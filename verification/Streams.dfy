/** Open files read in arbitrarily short pieces, and the running state of a hasher. */
module Streams {
  import opened Bytes
  import opened Wrappers

  /** The state of an incremental hash: the bytes it has been given so far. */
  class Hasher {
    var fed: seq<byte>

    constructor ()
      ensures fed == []
    {
      fed := [];
    }

    method Update(bytes: seq<byte>)
      modifies this
      ensures fed == old(fed) + bytes
    {
      fed := fed + bytes;
    }
  }

  /** An open file. A read returns some prefix of what is left, empty only at the end;
      an unreliable device may also fail. */
  class Reader {
    const bytes: seq<byte>
    const reliable: bool
    var position: nat

    ghost predicate Valid()
      reads this
    {
      position <= |bytes|
    }

    constructor (bytes: seq<byte>, reliable: bool)
      ensures Valid() && position == 0 && this.bytes == bytes && this.reliable == reliable
    {
      this.bytes, this.reliable, position := bytes, reliable, 0;
    }

    method Read(limit: nat) returns (r: Option<seq<byte>>)
      requires Valid() && limit > 0
      modifies this`position
      ensures Valid() && (reliable ==> r.Some?)
      ensures r.None? ==> position == old(position)
      ensures r.Some? ==>
                && position == old(position) + |r.value|
                && |r.value| <= limit
                && r.value == bytes[old(position)..position]
                && (r.value == [] <==> old(position) == |bytes|)
    {
      var fails: bool := *;
      if fails && !reliable {
        return None;
      }
      if position == |bytes| {
        return Some([]);
      }
      var n: nat :| 1 <= n <= limit && position + n <= |bytes|;
      r := Some(bytes[position..position + n]);
      position := position + n;
    }

    method Rewind()
      requires Valid()
      modifies this`position
      ensures Valid() && position == 0
    {
      position := 0;
    }
  }
}
