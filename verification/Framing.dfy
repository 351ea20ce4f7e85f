/** Length-prefixed fields, as fed to every identity hasher, and the reader that undoes them. */
module Framing {
  import opened Bytes
  import opened Sequences
  import opened Wrappers

  function Field(value: Buffer): seq<byte> {
    BigEndian(|value|, 8) + value
  }

  function Fields(values: seq<Buffer>): seq<byte> {
    if values == [] then [] else Field(values[0]) + Fields(values[1..])
  }

  lemma {:induction false} FieldsConcat(a: seq<Buffer>, b: seq<Buffer>)
    ensures Fields(a + b) == Fields(a) + Fields(b)
  {
    if a == [] {
      assert a + b == b;
    } else {
      FieldsConcat(a[1..], b);
      assert (a + b)[0] == a[0] && (a + b)[1..] == a[1..] + b;
      ConcatAssociates(Field(a[0]), Fields(a[1..]), Fields(b));
    }
  }

  lemma FieldsOne(value: Buffer)
    ensures Fields([value]) == Field(value)
  {
    assert Fields([value]) == Field(value) + Fields([]);
  }

  /** Takes one 64-bit word off the front. */
  function TakeWord(s: seq<byte>): Option<(nat, seq<byte>)> {
    if |s| < 8 then None else Some((FromBigEndian(s[..8]), s[8..]))
  }

  function TakeBytes(n: nat, s: seq<byte>): Option<(seq<byte>, seq<byte>)> {
    if |s| < n then None else Some((s[..n], s[n..]))
  }

  function TakeField(s: seq<byte>): Option<(seq<byte>, seq<byte>)> {
    var (n, rest) :- TakeWord(s);
    TakeBytes(n, rest)
  }

  function ReadFields(s: seq<byte>): Option<seq<seq<byte>>>
    decreases |s|
  {
    if s == [] then Some([])
    else
      var (value, rest) :- TakeField(s);
      var values :- ReadFields(rest);
      Some([value] + values)
  }

  lemma TakeWordUndoes(n: u64, rest: seq<byte>)
    ensures TakeWord(BigEndian(n, 8) + rest) == Some((n, rest))
  {
    Word64(n);
    var s := BigEndian(n, 8) + rest;
    assert s[..8] == BigEndian(n, 8) && s[8..] == rest;
  }

  lemma TakeBytesUndoes(value: seq<byte>, rest: seq<byte>)
    ensures TakeBytes(|value|, value + rest) == Some((value, rest))
  {
    assert (value + rest)[..|value|] == value && (value + rest)[|value|..] == rest;
  }

  lemma TakeFieldUndoes(value: Buffer, rest: seq<byte>)
    ensures TakeField(Field(value) + rest) == Some((value, rest))
  {
    assert Field(value) + rest == BigEndian(|value|, 8) + (value + rest);
    TakeWordUndoes(|value|, value + rest);
    TakeBytesUndoes(value, rest);
  }

  /** The stream names its fields although it never writes how many there are. */
  lemma {:induction false} ReadFieldsUndoes(values: seq<Buffer>)
    ensures ReadFields(Fields(values)) == Some(values)
  {
    if values != [] {
      TakeFieldUndoes(values[0], Fields(values[1..]));
      ReadFieldsUndoes(values[1..]);
      assert values == [values[0]] + values[1..];
    }
  }

  lemma TakeFieldCanonical(s: seq<byte>)
    requires |s| <= U64_MAX && TakeField(s).Some?
    ensures var (value, rest) := TakeField(s).value;
            |rest| < |s| && |value| <= U64_MAX && Field(value) + rest == s
  {
    var word, tail := s[..8], s[8..];
    FromBigEndianBound(word);
    var n := FromBigEndian(word);
    assert TakeField(s) == TakeBytes(n, tail);
    assert s == word + (tail[..n] + tail[n..]) == (word + tail[..n]) + tail[n..];
  }

  /** Only canonical streams are readable: what was read re-encodes to the same bytes. */
  lemma {:induction false} ReadFieldsCanonical(s: seq<byte>)
    requires |s| <= U64_MAX && ReadFields(s).Some?
    ensures (forall v :: v in ReadFields(s).value ==> |v| <= U64_MAX)
            && Fields(ReadFields(s).value) == s
    decreases |s|
  {
    if s != [] {
      var (value, rest) := TakeField(s).value;
      TakeFieldCanonical(s);
      ReadFieldsCanonical(rest);
      var values := ReadFields(rest).value;
      assert ReadFields(s).value == [value] + values;
      assert ([value] + values)[1..] == values;
    }
  }

  lemma FieldsInjective(a: seq<Buffer>, b: seq<Buffer>)
    ensures Fields(a) == Fields(b) <==> a == b
  {
    ReadFieldsUndoes(a);
    ReadFieldsUndoes(b);
  }
}
