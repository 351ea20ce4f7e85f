/** Paths, inodes and bytes: the part of a file system that the installers change. */
module FileSystem {
  import opened Bytes
  import opened Wrappers

  type Name = seq<byte>
  type Path = seq<Name>
  type Contents = seq<byte>

  datatype Entry = Regular(inode: nat) | Folder | Other

  /** Strict prefixes of a path that exists are folders, and every regular entry has its bytes. */
  datatype Fs = Fs(entries: map<Path, Entry>, inodes: map<nat, Contents>) {

    ghost predicate Valid() {
      && (forall p, k :: p in entries && 1 <= k < |p| ==> p[..k] in entries && entries[p[..k]].Folder?)
      && (forall p :: p in entries && entries[p].Regular? ==> entries[p].inode in inodes)
    }

    ghost predicate Holds(p: Path, bytes: Contents) {
      p in entries && entries[p].Regular? && entries[p].inode in inodes && inodes[entries[p].inode] == bytes
    }

    function Unlink(p: Path): Fs {
      this.(entries := entries - {p})
    }

    /** A second name for the entry at `source`. */
    function Link(source: Path, p: Path): Fs
      requires source in entries
    {
      this.(entries := entries[p := entries[source]])
    }

    function RemoveTree(dir: Path): Fs {
      this.(entries := map p | p in entries && !Under(dir, p) :: entries[p])
    }
  }

  function ContentsAt(fs: Fs, p: Path): Option<Contents> {
    if p in fs.entries && fs.entries[p].Regular? && fs.entries[p].inode in fs.inodes
    then Some(fs.inodes[fs.entries[p].inode]) else None
  }

  /** `p` is `dir` or lies below it. */
  predicate Under(dir: Path, p: Path) {
    dir <= p
  }

  predicate FolderOrRoot(fs: Fs, p: Path) {
    p == [] || (p in fs.entries && fs.entries[p].Folder?)
  }

  /** Everything that existed still exists, as the same entry with the same bytes. */
  ghost predicate Preserves(before: Fs, after: Fs) {
    forall p :: p in before.entries ==>
      && p in after.entries && after.entries[p] == before.entries[p]
      && (before.entries[p].Regular? && before.entries[p].inode in before.inodes ==>
            before.entries[p].inode in after.inodes
            && after.inodes[before.entries[p].inode] == before.inodes[before.entries[p].inode])
  }

  lemma PreservesTransitive(a: Fs, b: Fs, c: Fs)
    requires Preserves(a, b) && Preserves(b, c)
    ensures Preserves(a, c)
  {
  }

  function Parent(p: Path): Path
    requires p != []
  {
    p[..|p| - 1]
  }

  function Sidecars(path: Path): (r: seq<Path>)
    requires path != []
    ensures |r| == 3
    ensures forall p :: p in r ==> |p| == |path| && p[..|path| - 1] == path[..|path| - 1]
                                   && |path[|path| - 1]| < |p[|path| - 1]| <= |path[|path| - 1]| + 8
  {
    var parent, name := path[..|path| - 1], path[|path| - 1];
    [parent + [name + Ascii("-wal")], parent + [name + Ascii("-shm")], parent + [name + Ascii("-journal")]]
  }

  /** The path with some bytes added to its last name. */
  function Beside(path: Path, suffix: Name): Path
    requires path != []
  {
    path[..|path| - 1] + [path[|path| - 1] + suffix]
  }

  /** Spelled out: no `-wal`, no `-shm` and no `-journal` file. */
  ghost predicate NoSidecar(fs: Fs, path: Path)
    requires path != []
  {
    && Beside(path, [45, 119, 97, 108]) !in fs.entries
    && Beside(path, [45, 115, 104, 109]) !in fs.entries
    && Beside(path, [45, 106, 111, 117, 114, 110, 97, 108]) !in fs.entries
  }

  lemma SidecarSuffixes()
    ensures Ascii("-wal") == [45, 119, 97, 108] && Ascii("-shm") == [45, 115, 104, 109]
    ensures Ascii("-journal") == [45, 106, 111, 117, 114, 110, 97, 108]
  {
  }

  lemma NoSidecarMeaning(fs: Fs, path: Path)
    requires path != []
    ensures NoSidecar(fs, path) <==> forall p :: p in Sidecars(path) ==> p !in fs.entries
  {
    SidecarSuffixes();
    assert Sidecars(path)
           == [Beside(path, Ascii("-wal")), Beside(path, Ascii("-shm")), Beside(path, Ascii("-journal"))];
    assert Sidecars(path)[0] in Sidecars(path) && Sidecars(path)[1] in Sidecars(path)
           && Sidecars(path)[2] in Sidecars(path);
  }

  predicate PathFree(fs: Fs, p: Path) {
    forall k :: 1 <= k <= |p| && p[..k] in fs.entries ==> fs.entries[p[..k]].Folder?
  }

  /** What an operation did that leaves no trace, or not all of it, in names and bytes. */
  datatype Event = LinkedAt(path: Path) | SyncedAt(path: Path) | OpenedAt(path: Path)

  /** The running file system. Unless it is `reliable` any operation may fail for reasons of its own;
      clean-up removals fail only when `removalsWork` is false. `log` lists the links, syncs and reads done. */
  class Machine {
    var fs: Fs
    ghost var log: seq<Event>
    const reliable: bool
    const removalsWork: bool

    constructor (fs: Fs, reliable: bool, removalsWork: bool)
      requires fs.Valid()
      ensures this.fs == fs && this.reliable == reliable && this.removalsWork == removalsWork
      ensures log == []
    {
      log := [];
      this.fs, this.reliable, this.removalsWork := fs, reliable, removalsWork;
    }

    /** Whether some operation goes wrong this time. */
    method Fails() returns (fails: bool)
      ensures reliable ==> !fails
    {
      fails := *;
      fails := fails && !reliable;
    }

    /** `symlink_metadata`: found, not found, or an error. */
    method Metadata(p: Path) returns (r: Result<bool, ()>)
      ensures r.Ok? ==> r.value == (p in fs.entries)
      ensures reliable ==> r.Ok?
    {
      var fails := Fails();
      r := if fails then Err(()) else Ok(p in fs.entries);
    }

    /** Creates the missing folders on the way to `p`. */
    method CreateFolders(p: Path) returns (ok: bool)
      requires fs.Valid()
      modifies this`fs
      ensures fs.Valid() && Preserves(old(fs), fs)
      ensures forall q :: q in fs.entries && q !in old(fs).entries ==> q <= p && q != [] && fs.entries[q] == Folder
      ensures ok ==> FolderOrRoot(fs, p)
      ensures reliable ==> (ok <==> PathFree(old(fs), p))
    {
      for k := 1 to |p| + 1
        invariant fs.Valid() && Preserves(old(fs), fs)
        invariant forall q :: q in fs.entries && q !in old(fs).entries ==> q <= p && q != [] && fs.entries[q] == Folder
        invariant FolderOrRoot(fs, p[..k - 1])
        invariant forall q :: q in fs.entries && q !in old(fs).entries ==> |q| < k
        invariant forall i :: 1 <= i < k && p[..i] in old(fs).entries ==> old(fs).entries[p[..i]].Folder?
      {
        var fails := Fails();
        var dir := p[..k];
        assert dir[..k - 1] == p[..k - 1];
        if dir in fs.entries {
          if !fs.entries[dir].Folder? {
            return false;
          }
        } else if fails {
          return false;
        } else {
          assert forall i :: 1 <= i < k - 1 ==> dir[..i] == p[..k - 1][..i];
          fs := fs.(entries := fs.entries[dir := Folder]);
        }
      }
      assert p[..|p|] == p;
      return true;
    }

    /** Creates one new folder: done, already there, or an error. */
    method CreateFolder(dir: Path) returns (r: Result<bool, ()>)
      requires fs.Valid() && dir != []
      modifies this`fs
      ensures fs.Valid() && Preserves(old(fs), fs)
      ensures r.Ok? && r.value ==> dir !in old(fs).entries && FolderOrRoot(old(fs), dir[..|dir| - 1])
                                   && fs == old(fs).(entries := old(fs).entries[dir := Folder])
      ensures !(r.Ok? && r.value) ==> fs == old(fs)
      ensures reliable && FolderOrRoot(old(fs), dir[..|dir| - 1]) ==> r == Ok(dir !in old(fs).entries)
    {
      var fails := Fails();
      if dir in fs.entries {
        return Ok(false);
      }
      if fails || !FolderOrRoot(fs, dir[..|dir| - 1]) {
        return Err(());
      }
      var parent := dir[..|dir| - 1];
      assert forall i :: 1 <= i < |dir| - 1 ==> dir[..i] == parent[..i];
      fs := fs.(entries := fs.entries[dir := Folder]);
      return Ok(true);
    }

    /** Creates a new file with a fresh inode and writes to it; a failure may leave part of it. */
    method WriteNew(p: Path, bytes: Contents) returns (ok: bool)
      requires fs.Valid() && p != [] && p !in fs.entries && FolderOrRoot(fs, p[..|p| - 1])
      modifies this`fs
      ensures fs.Valid() && Preserves(old(fs), fs)
      ensures fs.entries.Keys <= old(fs).entries.Keys + {p}
      ensures p in fs.entries ==> fs.entries[p].Regular?
      ensures ok ==> fs.Holds(p, bytes)
      ensures reliable ==> ok
    {
      var fails := Fails();
      if fails {
        return false;
      }
      var cut := Fails();
      var written: nat :| written <= |bytes|;
      var inode := FreshInode();
      var parent := p[..|p| - 1];
      assert forall i :: 1 <= i < |p| - 1 ==> p[..i] == parent[..i];
      var part := if cut then bytes[..written] else bytes;
      fs := Fs(fs.entries[p := Regular(inode)], fs.inodes[inode := part]);
      ok := part == bytes;
    }

    method FreshInode() returns (inode: nat)
      ensures inode !in fs.inodes
    {
      inode := 0;
      var left := fs.inodes.Keys;
      while inode in fs.inodes
        invariant left <= fs.inodes.Keys && forall i :: i in fs.inodes && i >= inode ==> i in left
        decreases left
      {
        left := left - {inode};
        inode := inode + 1;
      }
    }

    /** `hard_link`: never replaces anything. */
    method HardLink(source: Path, p: Path) returns (ok: bool)
      requires fs.Valid() && p != []
      modifies this
      ensures fs.Valid() && Preserves(old(fs), fs)
      ensures ok ==> source in old(fs).entries && old(fs).entries[source].Regular? && p !in old(fs).entries
                     && fs == old(fs).Link(source, p)
      ensures !ok ==> fs == old(fs)
      ensures log == if ok then old(log) + [LinkedAt(p)] else old(log)
      ensures reliable && p !in old(fs).entries && FolderOrRoot(old(fs), p[..|p| - 1]) ==>
                (ok <==> source in old(fs).entries && old(fs).entries[source].Regular?)
    {
      var fails := Fails();
      if fails || p in fs.entries || source !in fs.entries || !fs.entries[source].Regular?
         || !FolderOrRoot(fs, p[..|p| - 1]) {
        return false;
      }
      var parent := p[..|p| - 1];
      assert forall i :: 1 <= i < |p| - 1 ==> p[..i] == parent[..i];
      fs := fs.Link(source, p);
      log := log + [LinkedAt(p)];
      return true;
    }

    /** Best-effort removal of one file. */
    method RemoveFile(p: Path)
      requires fs.Valid()
      modifies this`fs
      ensures fs.Valid()
      ensures fs == old(fs) || (p in old(fs).entries && !old(fs).entries[p].Folder? && fs == old(fs).Unlink(p))
      ensures removalsWork && p in old(fs).entries && !old(fs).entries[p].Folder? ==> fs == old(fs).Unlink(p)
    {
      var fails: bool := *;
      if p in fs.entries && !fs.entries[p].Folder? && (removalsWork || !fails) {
        fs := fs.Unlink(p);
      }
    }

    /** Best-effort recursive removal; when it fails some of the tree may be gone. */
    method RemoveFolderAll(dir: Path)
      requires fs.Valid() && dir != []
      modifies this`fs
      ensures fs.Valid() && fs.inodes == old(fs).inodes
      ensures forall p :: p in old(fs).entries && !Under(dir, p) ==> p in fs.entries
      ensures forall p :: p in fs.entries ==> p in old(fs).entries && fs.entries[p] == old(fs).entries[p]
      ensures removalsWork ==> forall p :: p in fs.entries ==> !Under(dir, p)
    {
      var fails: bool := *;
      if removalsWork || !fails {
        fs := fs.RemoveTree(dir);
      }
    }

    /** `sync_all` on a file or a folder: durability only. */
    method Sync(p: Path) returns (ok: bool)
      modifies this`log
      ensures log == if ok then old(log) + [SyncedAt(p)] else old(log)
      ensures reliable ==> ok
    {
      var fails := Fails();
      if fails {
        return false;
      }
      log := log + [SyncedAt(p)];
      return true;
    }

    /** Opens a regular file and gives what it holds. */
    method Open(p: Path) returns (contents: Option<Contents>)
      modifies this`log
      ensures contents == ContentsAt(fs, p)
      ensures log == if contents.Some? then old(log) + [OpenedAt(p)] else old(log)
    {
      contents := ContentsAt(fs, p);
      if contents.Some? {
        log := log + [OpenedAt(p)];
      }
    }
  }
}
