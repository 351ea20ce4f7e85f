/** The pruned traversal of a target directory: its limits, its counters and what it lists. */
module TargetTree {
  import opened Bytes
  import opened Sorting
  import opened Wrappers

  type Name = seq<byte>
  type Path = seq<Name>

  /** What `symlink_metadata` can say about a directory entry. */
  datatype Node = File(content: Buffer) | Directory(children: map<Name, Node>) | Symlink | Special

  const SLASH: byte := 47
  const GIT: Name := Ascii(".git")
  const NODE_MODULES: Name := Ascii("node_modules")

  predicate Excluded(name: Name) {
    name == GIT || name == NODE_MODULES
  }

  /** File systems hand out component names that are non-empty and hold no separator. */
  ghost predicate WellFormed(node: Node) {
    node.Directory? ==>
      forall name :: name in node.children ==>
        name != [] && SLASH !in name && WellFormed(node.children[name])
  }

  datatype Limits = Limits(maxFiles: u64, maxEntries: u64, maxTotalBytes: u64, maxFileBytes: u64, maxDepth: u64)

  datatype Failure =
    | LimitsNotPositive | TargetIsSymlink | TargetNotRegular
    | DepthLimit | EntryLimit | SymlinkFound | FileLimit
    | FileBytesLimit | SizeOverflow | TotalBytesLimit | PathNotUtf8
    | FileGrew | FileChangedSize | ReadFailed

  datatype FileEntry = FileEntry(relative: seq<byte>, content: Buffer)

  function RelativeKey(file: FileEntry): seq<byte> { file.relative }

  function NameKey(name: Name): seq<byte> { name }

  /** The components of a path joined by `/`. */
  function Relative(path: Path): seq<byte> {
    if path == [] then []
    else if |path| == 1 then path[0]
    else path[0] + [SLASH] + Relative(path[1..])
  }

  function ValidateFileSize(fileBytes: u64, limits: Limits, accumulated: u64): Result<u64, Failure> {
    if fileBytes > limits.maxFileBytes then Err(FileBytesLimit)
    else if accumulated + fileBytes > U64_MAX then Err(SizeOverflow)
    else if accumulated + fileBytes > limits.maxTotalBytes then Err(TotalBytesLimit)
    else Ok(accumulated + fileBytes)
  }

  // ---------------------------------------------------------------- the traversal as a function

  datatype Tally = Tally(visited: nat, total: u64, files: seq<FileEntry>)

  ghost function Kept(children: map<Name, Node>): set<Name> {
    set name | name in children && !Excluded(name)
  }

  ghost function Enumerate(names: set<Name>): seq<Name> {
    if names == {} then [] else
      var name :| name in names;
      [name] + Enumerate(names - {name})
  }

  /** The kept names of a directory in ascending order: a function of the set alone. */
  ghost function Listing(children: map<Name, Node>): seq<Name> {
    SortBy(Enumerate(Kept(children)), NameKey)
  }

  ghost function CollectDirectory(node: Node, path: Path, depth: u64, limits: Limits,
                                  utf8: seq<byte> -> bool, tally: Tally): Result<Tally, Failure>
    requires node.Directory?
    decreases node, 1, 0
  {
    ListingProperties(node.children);
    var names := Listing(node.children);
    if depth > limits.maxDepth then Err(DepthLimit)
    else if names != [] && tally.visited + |names| > limits.maxEntries then Err(EntryLimit)
    else CollectNames(node, names, path, depth, limits, utf8, tally.(visited := tally.visited + |names|))
  }

  ghost function CollectNames(node: Node, names: seq<Name>, path: Path, depth: u64, limits: Limits,
                              utf8: seq<byte> -> bool, tally: Tally): Result<Tally, Failure>
    requires node.Directory? && forall name :: name in names ==> name in node.children
    decreases node, 0, |names|
  {
    if names == [] then Ok(tally)
    else
      var next :- CollectEntry(node, names[0], path, depth, limits, utf8, tally);
      CollectNames(node, names[1..], path, depth, limits, utf8, next)
  }

  ghost function CollectEntry(node: Node, name: Name, path: Path, depth: u64, limits: Limits,
                              utf8: seq<byte> -> bool, tally: Tally): Result<Tally, Failure>
    requires node.Directory? && name in node.children
    decreases node, 0, 0
  {
    var child := node.children[name];
    match child
    case Symlink => Err(SymlinkFound)
    case Directory(_) =>
      CollectDirectory(child, path + [name], SaturatingAdd(depth, 1), limits, utf8, tally)
    case Special => Ok(tally)
    case File(content) =>
      if |tally.files| >= limits.maxFiles then Err(FileLimit)
      else
        var total :- ValidateFileSize(|content|, limits, tally.total);
        var relative := Relative(path + [name]);
        if !utf8(relative) then Err(PathNotUtf8)
        else Ok(tally.(total := total, files := tally.files + [FileEntry(relative, content)]))
  }

  // ---------------------------------------------------------------- directory listings

  lemma {:induction false} EnumerateProperties(names: set<Name>)
    ensures |Enumerate(names)| == |names|
    ensures forall name :: name in Enumerate(names) <==> name in names
    ensures DistinctKeys(Enumerate(names), NameKey)
  {
    if names != {} {
      var name :| name in names && Enumerate(names) == [name] + Enumerate(names - {name});
      EnumerateProperties(names - {name});
    }
  }

  lemma ListingProperties(children: map<Name, Node>)
    ensures |Listing(children)| == |Kept(children)|
    ensures forall name :: name in Listing(children) <==> name in Kept(children)
    ensures StrictlySorted(Listing(children), NameKey)
  {
    var names := Enumerate(Kept(children));
    EnumerateProperties(Kept(children));
    SortPermutes(names, NameKey);
    SortSorts(names, NameKey);
    assert |multiset(SortBy(names, NameKey))| == |multiset(names)|;
  }
}
