/** The fingerprint as the engine adapter computes it: counters, loops, short reads and any
    directory enumeration order. */
module TargetHasher {
  import opened Bytes
  import opened Framing
  import opened Sequences
  import opened Sorting
  import opened Streams
  import opened TargetFingerprint
  import opened TargetTree
  import opened TargetWalk
  import opened Wrappers

  function KeepName(name: Name): seq<Name> {
    if Excluded(name) then [] else [name]
  }

  function KeepNames(names: seq<Name>): seq<Name> {
    if names == [] then [] else KeepName(names[0]) + KeepNames(names[1..])
  }

  lemma {:induction false} KeepNamesConcat(a: seq<Name>, b: seq<Name>)
    ensures KeepNames(a + b) == KeepNames(a) + KeepNames(b)
  {
    if a == [] {
      assert a + b == b;
    } else {
      KeepNamesConcat(a[1..], b);
      assert (a + b)[0] == a[0] && (a + b)[1..] == a[1..] + b;
      ConcatAssociates(KeepName(a[0]), KeepNames(a[1..]), KeepNames(b));
    }
  }

  lemma KeepNamesSplit(names: seq<Name>, i: nat)
    requires i < |names|
    ensures KeepNames(names[..i + 1]) == KeepNames(names[..i]) + KeepName(names[i])
    ensures |KeepNames(names[..i + 1])| <= |KeepNames(names)|
  {
    assert names[..i + 1] == names[..i] + [names[i]];
    KeepNamesConcat(names[..i], [names[i]]);
    assert KeepNames([names[i]]) == KeepName(names[i]) + KeepNames([]);
    assert names == names[..i + 1] + names[i + 1..];
    KeepNamesConcat(names[..i + 1], names[i + 1..]);
  }

  lemma {:induction false} KeepNamesMembers(names: seq<Name>)
    requires DistinctKeys(names, NameKey)
    ensures forall name :: name in KeepNames(names) <==> name in names && !Excluded(name)
    ensures DistinctKeys(KeepNames(names), NameKey)
  {
    if names != [] {
      KeepNamesMembers(names[1..]);
      assert names == [names[0]] + names[1..];
      forall name | name in KeepNames(names[1..])
        ensures name != names[0]
      {
        var j :| 0 <= j < |names[1..]| && names[1..][j] == name;
        assert names[j + 1] == name && NameKey(names[0]) != NameKey(names[j + 1]);
      }
    }
  }

  /** Whatever order the names came in, pruning and sorting gives the one listing. */
  lemma ListingUnique(children: map<Name, Node>, names: seq<Name>)
    requires DistinctKeys(names, NameKey)
    requires forall name :: name in names <==> name in children
    ensures SortBy(KeepNames(names), NameKey) == Listing(children)
    ensures |KeepNames(names)| == |Listing(children)|
  {
    var kept := KeepNames(names);
    KeepNamesMembers(names);
    SortSorts(kept, NameKey);
    SortPermutes(kept, NameKey);
    ListingProperties(children);
    StrictlySortedUnique(SortBy(kept, NameKey), Listing(children), NameKey);
    assert |multiset(SortBy(kept, NameKey))| == |multiset(kept)|;
  }

  class Collector {
    const limits: Limits
    const utf8: seq<byte> -> bool
    var visitedEntries: u64
    var totalBytes: u64
    var files: seq<FileEntry>

    constructor (limits: Limits, utf8: seq<byte> -> bool)
      ensures Counts() == Tally(0, 0, []) && this.limits == limits && this.utf8 == utf8
    {
      this.limits, this.utf8 := limits, utf8;
      visitedEntries, totalBytes, files := 0, 0, [];
    }

    ghost function Counts(): Tally
      reads this
    {
      Tally(visitedEntries, totalBytes, files)
    }

    /** The fields and the outcome are what the traversal function says, error for error. */
    ghost predicate Agrees(spec: Result<Tally, Failure>, r: Result<(), Failure>)
      reads this
    {
      match r
      case Ok(_) => spec == Ok(Counts())
      case Err(error) => spec == Err(error)
    }

    /** Every name of the directory once, in no particular order. */
    method ReadDir(children: map<Name, Node>) returns (names: seq<Name>)
      ensures DistinctKeys(names, NameKey)
      ensures forall name :: name in names <==> name in children
    {
      names := [];
      var left := children.Keys;
      while left != {}
        invariant DistinctKeys(names, NameKey)
        invariant left <= children.Keys
        invariant forall name :: name in names <==> name in children && name !in left
      {
        var name :| name in left;
        names := names + [name];
        left := left - {name};
      }
    }

    method CollectRegularFiles(node: Node, path: Path, depth: u64) returns (r: Result<(), Failure>)
      requires node.Directory?
      modifies this
      ensures Agrees(CollectDirectory(node, path, depth, limits, utf8, old(Counts())), r)
      decreases node, 2
    {
      if depth > limits.maxDepth {
        return Err(DepthLimit);
      }
      var counted := CountEntries(node.children);
      if counted.Err? {
        return Err(counted.error);
      }
      ListingProperties(node.children);
      r := VisitEntries(node, SortBy(counted.value, NameKey), path, depth);
    }

    method VisitEntries(node: Node, entries: seq<Name>, path: Path, depth: u64) returns (r: Result<(), Failure>)
      requires node.Directory? && forall name :: name in entries ==> name in node.children
      modifies this
      ensures Agrees(CollectNames(node, entries, path, depth, limits, utf8, old(Counts())), r)
      decreases node, 1
    {
      ghost var start := Counts();
      for i := 0 to |entries|
        invariant forall name :: name in entries[i..] ==> name in node.children
        invariant CollectNames(node, entries, path, depth, limits, utf8, start)
                  == CollectNames(node, entries[i..], path, depth, limits, utf8, Counts())
      {
        assert entries[i..][0] == entries[i] && entries[i..][1..] == entries[i + 1..];
        var visited := VisitEntry(node, entries[i], path, depth);
        if visited.Err? {
          return visited;
        }
      }
      return Ok(());
    }

    /** The first loop of the traversal: skip excluded names, count the rest, stop at the limit. */
    method CountEntries(children: map<Name, Node>) returns (r: Result<seq<Name>, Failure>)
      modifies this`visitedEntries
      ensures r.Ok? <==> Listing(children) == [] || old(visitedEntries) + |Listing(children)| <= limits.maxEntries
      ensures r.Ok? ==> SortBy(r.value, NameKey) == Listing(children)
                        && visitedEntries == old(visitedEntries) + |Listing(children)|
      ensures r.Err? ==> r.error == EntryLimit
    {
      var names := ReadDir(children);
      ListingUnique(children, names);
      var entries := [];
      for i := 0 to |names|
        invariant entries == KeepNames(names[..i])
        invariant visitedEntries == old(visitedEntries) + |entries|
        invariant visitedEntries <= limits.maxEntries || entries == []
      {
        KeepNamesSplit(names, i);
        if Excluded(names[i]) {
          continue;
        }
        if visitedEntries + 1 > U64_MAX || visitedEntries + 1 > limits.maxEntries {
          return Err(EntryLimit);
        }
        visitedEntries := visitedEntries + 1;
        entries := entries + [names[i]];
      }
      assert names[..|names|] == names;
      return Ok(entries);
    }

    method VisitEntry(node: Node, name: Name, path: Path, depth: u64) returns (r: Result<(), Failure>)
      requires node.Directory? && name in node.children
      modifies this
      ensures Agrees(CollectEntry(node, name, path, depth, limits, utf8, old(Counts())), r)
      decreases node, 0
    {
      var child := node.children[name];
      match child {
        case Symlink =>
          return Err(SymlinkFound);
        case Directory(_) =>
          r := CollectRegularFiles(child, path + [name], SaturatingAdd(depth, 1));
        case File(content) =>
          if |files| >= limits.maxFiles {
            return Err(FileLimit);
          }
          var total := ValidateFileSize(|content|, limits, totalBytes);
          if total.Err? {
            return Err(total.error);
          }
          totalBytes := total.value;
          var relative := Relative(path + [name]);
          if !utf8(relative) {
            return Err(PathNotUtf8);
          }
          files := files + [FileEntry(relative, content)];
          return Ok(());
        case Special =>
          return Ok(());
      }
    }
  }

  /** Feeds one file and insists that it still has the length seen earlier. */
  method HashTargetFile(hasher: Hasher, input: Reader, expectedBytes: u64) returns (r: Result<(), Failure>)
    requires input.Valid() && input.position == 0
    modifies hasher, input
    ensures r.Ok? ==> |input.bytes| == expectedBytes && hasher.fed == old(hasher.fed) + input.bytes
    ensures input.reliable && |input.bytes| == expectedBytes ==> r.Ok?
    ensures input.reliable && |input.bytes| < expectedBytes ==> r == Err(FileChangedSize)
    ensures input.reliable && |input.bytes| > expectedBytes ==> r.Err? && r.error in {FileGrew, SizeOverflow}
  {
    var actualBytes: u64 := 0;
    while true
      invariant input.Valid() && actualBytes == input.position <= expectedBytes
      invariant hasher.fed == old(hasher.fed) + input.bytes[..input.position]
      decreases |input.bytes| - input.position
    {
      var read := input.Read(8192);
      if read.None? {
        return Err(ReadFailed);
      }
      if read.value == [] {
        break;
      }
      if actualBytes + |read.value| > U64_MAX {
        return Err(SizeOverflow);
      }
      actualBytes := actualBytes + |read.value|;
      if actualBytes > expectedBytes {
        return Err(FileGrew);
      }
      hasher.Update(read.value);
      assert input.bytes[..input.position] == input.bytes[..input.position - |read.value|] + read.value;
    }
    assert input.bytes[..input.position] == input.bytes;
    if actualBytes != expectedBytes {
      return Err(FileChangedSize);
    }
    return Ok(());
  }

  lemma {:induction false} FlattenSnoc(files: seq<FileEntry>, file: FileEntry)
    requires Buffered(files) && |file.relative| <= U64_MAX
    ensures Buffered(files + [file]) && Flatten(files + [file]) == Flatten(files) + [file.relative, file.content]
  {
    if files == [] {
      assert files + [file] == [file];
      assert [file][1..] == [];
    } else {
      FlattenSnoc(files[1..], file);
      assert (files + [file])[1..] == files[1..] + [file];
    }
  }

  lemma FieldsSnoc(files: seq<FileEntry>, file: FileEntry)
    requires Buffered(files) && |file.relative| <= U64_MAX
    ensures Buffered(files + [file])
    ensures Fields(Flatten(files + [file])) == Fields(Flatten(files)) + (Field(file.relative) + Field(file.content))
  {
    var pair: seq<Buffer> := [file.relative, file.content];
    FlattenSnoc(files, file);
    FieldsConcat(Flatten(files), pair);
    FieldsOne(file.relative);
    FieldsOne(file.content);
    FieldsConcat([file.relative], [file.content]);
    assert pair == [file.relative] + [file.content];
  }

  method HashEntry(hasher: Hasher, file: FileEntry)
    requires |file.relative| <= U64_MAX
    modifies hasher
    ensures hasher.fed == old(hasher.fed) + (Field(file.relative) + Field(file.content))
  {
    hasher.Update(BigEndian(|file.relative|, 8));
    hasher.Update(file.relative);
    hasher.Update(BigEndian(|file.content|, 8));
    var input := new Reader(file.content, true);
    var hashed := HashTargetFile(hasher, input, |file.content|);
  }

  method HashEntries(hasher: Hasher, files: seq<FileEntry>)
    requires Buffered(files)
    modifies hasher
    ensures hasher.fed == old(hasher.fed) + Fields(Flatten(files))
  {
    for i := 0 to |files|
      invariant hasher.fed == old(hasher.fed) + Fields(Flatten(files[..i]))
    {
      HashEntry(hasher, files[i]);
      FieldsSnoc(files[..i], files[i]);
      assert files[..i + 1] == files[..i] + [files[i]];
    }
    assert files[..|files|] == files;
  }

  method HashDirectory(files: seq<FileEntry>, totalBytes: u64) returns (fed: seq<byte>)
    requires Buffered(files) && |files| <= U64_MAX
    ensures totalBytes == TotalBytes(files) ==> fed == DirectoryStream(files)
  {
    var hasher := new Hasher();
    hasher.Update(Field(SCHEME));
    hasher.Update(Field(DIRECTORY_KIND));
    hasher.Update(BigEndian(|files|, 8));
    hasher.Update(BigEndian(totalBytes, 8));
    assert totalBytes == TotalBytes(files) ==> hasher.fed == DirectoryHeader(files);
    HashEntries(hasher, files);
    fed := hasher.fed;
  }

  method HashFile(content: Buffer) returns (fed: seq<byte>)
    ensures fed == FileStream(content)
  {
    var hasher := new Hasher();
    hasher.Update(Field(SCHEME));
    hasher.Update(Field(FILE_KIND));
    hasher.Update(BigEndian(|content|, 8));
    var input := new Reader(content, true);
    var hashed := HashTargetFile(hasher, input, |content|);
    fed := hasher.fed;
  }

  /** The bytes hashed into the target fingerprint. Success and result depend on the tree alone:
      not on enumeration order, not on how reads are cut. */
  method Sha256TargetWithLimits(root: Node, limits: Limits, utf8: seq<byte> -> bool)
    returns (r: Result<seq<byte>, Failure>)
    requires WellFormed(root) && Representable(root)
    ensures r.Ok? <==> Fingerprints(root, limits, utf8)
    ensures r.Ok? ==> r.value == Stream(root)
    // Spelled out for what is no directory; a directory's exact condition is `TargetPruning.ExactAcceptance`.
    ensures root.Symlink? || root.Special? ==> r.Err?
    ensures root.File? ==>
              (r.Ok? <==> && limits.maxFiles > 0 && limits.maxEntries > 0 && limits.maxDepth > 0
                          && 0 < limits.maxFileBytes && 0 < limits.maxTotalBytes
                          && |root.content| <= limits.maxFileBytes && |root.content| <= limits.maxTotalBytes)
  {
    if limits.maxFiles == 0 || limits.maxEntries == 0 || limits.maxTotalBytes == 0
       || limits.maxFileBytes == 0 || limits.maxDepth == 0 {
      return Err(LimitsNotPositive);
    }
    match root {
      case Symlink =>
        return Err(TargetIsSymlink);
      case Special =>
        return Err(TargetNotRegular);
      case File(content) =>
        var size := ValidateFileSize(|content|, limits, 0);
        if size.Err? {
          return Err(size.error);
        }
        var fed := HashFile(content);
        return Ok(fed);
      case Directory(_) =>
        r := HashTree(root, limits, utf8);
    }
  }

  method HashTree(root: Node, limits: Limits, utf8: seq<byte> -> bool) returns (r: Result<seq<byte>, Failure>)
    requires root.Directory? && WellFormed(root) && Representable(root)
    ensures r.Ok? <==> Accepted(root, limits, utf8)
    ensures r.Ok? ==> r.value == Stream(root)
  {
    var collector := new Collector(limits, utf8);
    var collected := collector.CollectRegularFiles(root, [], 0);
    CollectIsAcceptance(root, limits, utf8);
    if collected.Err? {
      return Err(collected.error);
    }
    HashedFilesProperties(root);
    var files := SortBy(collector.files, RelativeKey);
    SortPermutes(collector.files, RelativeKey);
    TotalBytesPermutation(files, collector.files);
    var fed := HashDirectory(files, collector.totalBytes);
    return Ok(fed);
  }
}
