/** Writing a new file atomically: a private copy first, then a link that never replaces anything. */
module AtomicWrite {
  import opened Bytes
  import opened FileSystem
  import opened Wrappers

  function CopyPath(p: Path, stamp: seq<byte>, attempt: nat): Path
    requires p != []
  {
    Parent(p) + [Ascii(".") + p[|p| - 1] + Ascii(".new-") + stamp + Ascii("-") + Decimal(attempt)]
  }

  lemma CopyIsElsewhere(p: Path, stamp: seq<byte>, attempt: nat)
    requires p != []
    ensures CopyPath(p, stamp, attempt) != p && Parent(CopyPath(p, stamp, attempt)) == Parent(p)
  {
    assert |CopyPath(p, stamp, attempt)[|p| - 1]| > |p[|p| - 1]|;
  }

  /** One of the hundred private names is free. */
  ghost predicate CopyFree(fs: Fs, p: Path, stamp: seq<byte>)
    requires p != []
  {
    exists k: nat :: k < 100 && CopyPath(p, stamp, k) !in fs.entries
  }

  /** The private copy: a fresh file with the bytes, or nothing new once removals work. */
  method WriteCopy(machine: Machine, p: Path, bytes: Contents, stamp: seq<byte>) returns (copy: Option<Path>)
    requires p != [] && machine.fs.Valid()
    modifies machine
    ensures machine.fs.Valid() && Preserves(old(machine.fs), machine.fs)
    ensures p in machine.fs.entries ==> p in old(machine.fs).entries
    ensures copy.Some? ==> copy.value !in old(machine.fs).entries && copy.value != p && copy.value != []
                           && machine.fs.Holds(copy.value, bytes)
                           && machine.fs.entries.Keys <= old(machine.fs).entries.Keys + {copy.value}
    ensures copy.Some? ==> Parent(copy.value) == Parent(p) && machine.log == old(machine.log) + [SyncedAt(copy.value)]
    ensures copy.None? && machine.removalsWork ==> machine.fs.entries.Keys == old(machine.fs).entries.Keys
    ensures machine.reliable ==>
              (copy.Some? <==> FolderOrRoot(old(machine.fs), Parent(p)) && CopyFree(old(machine.fs), p, stamp))
  {
    for attempt := 0 to 100
      invariant machine.fs == old(machine.fs) && machine.log == old(machine.log)
      invariant forall k :: 0 <= k < attempt ==> CopyPath(p, stamp, k) in machine.fs.entries
    {
      var candidate := CopyPath(p, stamp, attempt);
      CopyIsElsewhere(p, stamp, attempt);
      if candidate in machine.fs.entries {
        continue;
      }
      if !FolderOrRoot(machine.fs, Parent(p)) {
        return None;
      }
      var written := machine.WriteNew(candidate, bytes);
      if written {
        written := machine.Sync(candidate);
      }
      if !written {
        ghost var part := machine.fs;
        machine.RemoveFile(candidate);
        return None;
      }
      return Some(candidate);
    }
    return None;
  }

  /** `write_atomic_new`: all of the bytes under a name that was free, or no change at that name. */
  method WriteAtomicNew(machine: Machine, p: Path, bytes: Contents, stamp: seq<byte>) returns (ok: bool)
    requires p != [] && machine.fs.Valid()
    modifies machine
    ensures machine.fs.Valid() && Preserves(old(machine.fs), machine.fs)
    ensures ok ==> p !in old(machine.fs).entries && machine.fs.Holds(p, bytes)
    // Ok means that a copy in the same folder was made durable first, and the name came after it.
    ensures ok ==> exists copy :: copy != [] && Parent(copy) == Parent(p)
                     && machine.log == old(machine.log) + [SyncedAt(copy), LinkedAt(p)]
    ensures !ok ==> (p in machine.fs.entries <==> p in old(machine.fs).entries)
    ensures machine.removalsWork ==>
              machine.fs.entries.Keys == old(machine.fs).entries.Keys + if ok then {p} else {}
    ensures machine.reliable ==>
              (ok <==> p !in old(machine.fs).entries && FolderOrRoot(old(machine.fs), Parent(p))
                       && CopyFree(old(machine.fs), p, stamp))
  {
    var exists_ := machine.Metadata(p);
    if exists_.Ok? && exists_.value {
      return false;
    }
    var copy := WriteCopy(machine, p, bytes, stamp);
    if copy.None? {
      return false;
    }
    ghost var copied := machine.fs;
    ok := machine.HardLink(copy.value, p);
    ghost var linked := machine.fs;
    machine.RemoveFile(copy.value);
  }
}
