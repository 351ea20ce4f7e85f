/** What the traversal means: which paths a pruned tree has, and exactly when it is accepted. */
module TargetWalk {
  import opened Bytes
  import opened Sequences
  import opened TargetTree
  import opened Wrappers

  datatype Item = Item(path: Path, node: Node)

  /** The node a path leads to, when no component on the way is excluded. */
  ghost function Reach(node: Node, path: Path): Option<Node> {
    if path == [] then Some(node)
    else if node.Directory? && path[0] in node.children && !Excluded(path[0]) then
      Reach(node.children[path[0]], path[1..])
    else None
  }

  /** Every entry below `node`, parents before children, siblings in name order. */
  ghost function Walk(node: Node, path: Path): seq<Item>
    decreases node, 1, 0
  {
    if node.Directory? then
      ListingProperties(node.children);
      WalkNames(node, Listing(node.children), path)
    else []
  }

  ghost function WalkNames(node: Node, names: seq<Name>, path: Path): seq<Item>
    requires node.Directory? && forall name :: name in names ==> name in node.children
    decreases node, 0, |names|
  {
    if names == [] then []
    else
      var child := node.children[names[0]];
      [Item(path + [names[0]], child)] + Walk(child, path + [names[0]]) + WalkNames(node, names[1..], path)
  }

  // ---------------------------------------------------------------- Walk lists exactly what Reach finds

  ghost predicate Below(items: seq<Item>, node: Node, path: Path, names: seq<Name>)
  {
    forall item :: item in items <==>
      |item.path| > |path| && item.path[..|path|] == path && item.path[|path|] in names
      && Reach(node, item.path[|path|..]) == Some(item.node)
  }

  lemma {:induction false} WalkBelow(node: Node, path: Path)
    requires node.Directory?
    ensures Below(Walk(node, path), node, path, Listing(node.children))
    decreases node, 1, 0
  {
    ListingProperties(node.children);
    WalkNamesBelow(node, Listing(node.children), path);
  }

  lemma {:induction false} WalkNamesBelow(node: Node, names: seq<Name>, path: Path)
    requires node.Directory? && forall name :: name in names ==> name in node.children && !Excluded(name)
    ensures Below(WalkNames(node, names, path), node, path, names)
    decreases node, 0, |names|
  {
    if names != [] {
      var name := names[0];
      WalkChildBelow(node, name, path);
      WalkNamesBelow(node, names[1..], path);
      var child := node.children[name];
      var here := [Item(path + [name], child)] + Walk(child, path + [name]);
      var rest := WalkNames(node, names[1..], path);
      assert WalkNames(node, names, path) == here + rest;
      assert forall n :: n in names <==> n == name || n in names[1..];
      forall item
        ensures item in here + rest <==> item in here || item in rest
      {
      }
    }
  }

  lemma {:induction false} WalkChildBelow(node: Node, name: Name, path: Path)
    requires node.Directory? && name in Kept(node.children)
    ensures Below([Item(path + [name], node.children[name])] + Walk(node.children[name], path + [name]),
                  node, path, [name])
    decreases node, 0, 0
  {
    var child := node.children[name];
    var childPath := path + [name];
    var items := [Item(childPath, child)] + Walk(child, childPath);
    if child.Directory? {
      WalkBelow(child, childPath);
      ListingProperties(child.children);
    }
    forall item
      ensures item in items <==>
        |item.path| > |path| && item.path[..|path|] == path && item.path[|path|] in [name]
        && Reach(node, item.path[|path|..]) == Some(item.node)
    {
      var p := item.path;
      if item in items {
        assert |p| >= |childPath| && p[..|childPath|] == childPath;
        assert p[..|path|] == childPath[..|path|] && p[|path|] == childPath[|path|];
      }
      if |p| > |path| && p[..|path|] == path && p[|path|] == name {
        assert p[..|childPath|] == childPath;
        assert p[|path|..][1..] == p[|childPath|..];
        assert Reach(node, p[|path|..]) == Reach(child, p[|childPath|..]);
        if |p| == |childPath| {
          assert p == childPath && p[|childPath|..] == [];
          assert item in items ==> item.node == child;
        } else {
          assert p != childPath;
          assert p[|childPath|..][0] == p[|childPath|];
        }
      }
    }
  }

  // ---------------------------------------------------------------- acceptance without counters

  function DepthOf(path: Path): u64 {
    if |path| <= U64_MAX then |path| else U64_MAX
  }

  ghost predicate ItemOk(item: Item, limits: Limits, utf8: seq<byte> -> bool) {
    match item.node
    case Symlink => false
    case Special => true
    case Directory(_) => DepthOf(item.path) <= limits.maxDepth
    case File(content) => |content| <= limits.maxFileBytes && utf8(Relative(item.path))
  }

  ghost function FileOf(item: Item): seq<FileEntry> {
    if item.node.File? then [FileEntry(Relative(item.path), item.node.content)] else []
  }

  ghost function FilesIn(items: seq<Item>): seq<FileEntry> {
    if items == [] then [] else FileOf(items[0]) + FilesIn(items[1..])
  }

  function TotalBytes(files: seq<FileEntry>): nat {
    if files == [] then 0 else |files[0].content| + TotalBytes(files[1..])
  }

  ghost predicate AllOk(items: seq<Item>, limits: Limits, utf8: seq<byte> -> bool) {
    forall item :: item in items ==> ItemOk(item, limits, utf8)
  }

  lemma AllOkConcat(a: seq<Item>, b: seq<Item>, limits: Limits, utf8: seq<byte> -> bool)
    ensures AllOk(a + b, limits, utf8) <==> AllOk(a, limits, utf8) && AllOk(b, limits, utf8)
  {
    assert forall item :: item in a + b <==> item in a || item in b;
  }

  /** Accepting `items` on top of a tally, when `counted` of them were already counted as entries. */
  ghost predicate Admits(items: seq<Item>, counted: nat, limits: Limits, utf8: seq<byte> -> bool, tally: Tally) {
    && AllOk(items, limits, utf8)
    && tally.visited + |items| - counted <= limits.maxEntries
    && |tally.files| + |FilesIn(items)| <= limits.maxFiles
    && tally.total + TotalBytes(FilesIn(items)) <= limits.maxTotalBytes
  }

  ghost predicate Extends(next: Tally, items: seq<Item>, counted: nat, tally: Tally) {
    && next.visited == tally.visited + |items| - counted
    && next.total == tally.total + TotalBytes(FilesIn(items))
    && next.files == tally.files + FilesIn(items)
  }

  /** All five limits at once, over the whole pruned tree, with no counter and no order. */
  ghost predicate Accepted(root: Node, limits: Limits, utf8: seq<byte> -> bool) {
    Admits(Walk(root, []), 0, limits, utf8, Tally(0, 0, []))
  }

  lemma FilesInCons(item: Item, rest: seq<Item>)
    ensures FilesIn([item] + rest) == FileOf(item) + FilesIn(rest)
  {
    assert ([item] + rest)[1..] == rest;
  }

  lemma {:induction false} FilesInConcat(a: seq<Item>, b: seq<Item>)
    ensures FilesIn(a + b) == FilesIn(a) + FilesIn(b)
  {
    if a == [] {
      assert a + b == b;
    } else {
      FilesInConcat(a[1..], b);
      FilesInCons(a[0], a[1..] + b);
      assert a + b == [a[0]] + (a[1..] + b);
      ConcatAssociates(FileOf(a[0]), FilesIn(a[1..]), FilesIn(b));
    }
  }

  lemma {:induction false} TotalBytesConcat(a: seq<FileEntry>, b: seq<FileEntry>)
    ensures TotalBytes(a + b) == TotalBytes(a) + TotalBytes(b)
  {
    if a == [] {
      assert a + b == b;
    } else {
      TotalBytesConcat(a[1..], b);
      assert (a + b)[1..] == a[1..] + b;
    }
  }

  ghost predicate Within(tally: Tally, limits: Limits) {
    && tally.visited <= limits.maxEntries
    && |tally.files| <= limits.maxFiles
    && tally.total <= limits.maxTotalBytes
  }

  ghost predicate Matches(r: Result<Tally, Failure>, items: seq<Item>, counted: nat, limits: Limits,
                          utf8: seq<byte> -> bool, tally: Tally) {
    && (r.Ok? <==> Admits(items, counted, limits, utf8, tally))
    && (r.Ok? ==> Extends(r.value, items, counted, tally))
  }

  lemma Weights(a: seq<Item>, b: seq<Item>)
    ensures FilesIn(a + b) == FilesIn(a) + FilesIn(b)
    ensures TotalBytes(FilesIn(a + b)) == TotalBytes(FilesIn(a)) + TotalBytes(FilesIn(b))
  {
    FilesInConcat(a, b);
    TotalBytesConcat(FilesIn(a), FilesIn(b));
  }

  lemma AdmitsPart(a: seq<Item>, b: seq<Item>, countedA: nat, countedB: nat, limits: Limits,
                   utf8: seq<byte> -> bool, tally: Tally)
    requires countedA <= |a| && countedB <= |b|
    ensures Admits(a + b, countedA + countedB, limits, utf8, tally) ==> Admits(a, countedA, limits, utf8, tally)
  {
    Weights(a, b);
    AllOkConcat(a, b, limits, utf8);
  }

  lemma AdmitsInTurn(a: seq<Item>, b: seq<Item>, countedA: nat, countedB: nat, limits: Limits,
                     utf8: seq<byte> -> bool, tally: Tally, middle: Tally)
    requires countedA <= |a| && countedB <= |b|
    requires Admits(a, countedA, limits, utf8, tally) && Extends(middle, a, countedA, tally)
    ensures Admits(a + b, countedA + countedB, limits, utf8, tally) <==> Admits(b, countedB, limits, utf8, middle)
  {
    Weights(a, b);
    AllOkConcat(a, b, limits, utf8);
  }

  lemma ExtendsInTurn(a: seq<Item>, b: seq<Item>, countedA: nat, countedB: nat, tally: Tally, middle: Tally,
                      last: Tally)
    requires Extends(middle, a, countedA, tally) && Extends(last, b, countedB, middle)
    ensures Extends(last, a + b, countedA + countedB, tally)
  {
    Weights(a, b);
    ConcatAssociates(tally.files, FilesIn(a), FilesIn(b));
  }

  lemma MatchesSequence(first: Result<Tally, Failure>, second: Result<Tally, Failure>, a: seq<Item>, b: seq<Item>,
                        countedA: nat, countedB: nat, limits: Limits, utf8: seq<byte> -> bool, tally: Tally)
    requires countedA <= |a| && countedB <= |b|
    requires Matches(first, a, countedA, limits, utf8, tally)
    requires first.Ok? ==> Matches(second, b, countedB, limits, utf8, first.value)
    requires first.Err? ==> second.Err?
    ensures Matches(second, a + b, countedA + countedB, limits, utf8, tally)
  {
    if first.Ok? {
      AdmitsInTurn(a, b, countedA, countedB, limits, utf8, tally, first.value);
      if second.Ok? {
        ExtendsInTurn(a, b, countedA, countedB, tally, first.value, second.value);
      }
    } else {
      AdmitsPart(a, b, countedA, countedB, limits, utf8, tally);
    }
  }

  /** The threaded counters and the early exits compute nothing but the declarative acceptance. */
  lemma {:induction false} CollectDirectoryMatches(node: Node, path: Path, limits: Limits,
                                                   utf8: seq<byte> -> bool, tally: Tally)
    requires node.Directory? && Within(tally, limits) && DepthOf(path) <= limits.maxDepth
    ensures Matches(CollectDirectory(node, path, DepthOf(path), limits, utf8, tally),
                    Walk(node, path), 0, limits, utf8, tally)
    decreases node, 1, 0
  {
    ListingProperties(node.children);
    var names := Listing(node.children);
    WalkNamesLength(node, names, path);
    assert Walk(node, path) == WalkNames(node, names, path);
    if tally.visited + |names| <= limits.maxEntries {
      var counted := tally.(visited := tally.visited + |names|);
      CollectNamesMatches(node, names, path, limits, utf8, counted);
      CountedFirst(CollectNames(node, names, path, DepthOf(path), limits, utf8, counted),
                   WalkNames(node, names, path), |names|, limits, utf8, tally);
    }
  }

  /** Counting entries before or while visiting them comes to the same. */
  lemma CountedFirst(r: Result<Tally, Failure>, items: seq<Item>, counted: nat, limits: Limits,
                     utf8: seq<byte> -> bool, tally: Tally)
    requires Matches(r, items, counted, limits, utf8, tally.(visited := tally.visited + counted))
    ensures Matches(r, items, 0, limits, utf8, tally)
  {
  }

  lemma {:induction false} WalkNamesLength(node: Node, names: seq<Name>, path: Path)
    requires node.Directory? && forall name :: name in names ==> name in node.children
    ensures |WalkNames(node, names, path)| >= |names|
  {
    if names != [] {
      WalkNamesLength(node, names[1..], path);
    }
  }

  lemma {:induction false} CollectNamesMatches(node: Node, names: seq<Name>, path: Path, limits: Limits,
                                               utf8: seq<byte> -> bool, tally: Tally)
    requires node.Directory? && forall name :: name in names ==> name in node.children
    requires Within(tally, limits) && DepthOf(path) <= limits.maxDepth
    ensures Matches(CollectNames(node, names, path, DepthOf(path), limits, utf8, tally),
                    WalkNames(node, names, path), |names|, limits, utf8, tally)
    decreases node, 0, |names|
  {
    if names != [] {
      var name := names[0];
      var here := [Item(path + [name], node.children[name])] + Walk(node.children[name], path + [name]);
      var first := CollectEntry(node, name, path, DepthOf(path), limits, utf8, tally);
      CollectEntryMatches(node, name, path, limits, utf8, tally);
      if first.Ok? {
        CollectNamesMatches(node, names[1..], path, limits, utf8, first.value);
      }
      WalkNamesLength(node, names[1..], path);
      MatchesSequence(first, CollectNames(node, names, path, DepthOf(path), limits, utf8, tally),
                      here, WalkNames(node, names[1..], path), 1, |names| - 1, limits, utf8, tally);
    }
  }

  /** Visiting one entry, kind by kind. Only a directory has anything below it. */
  lemma {:induction false} CollectEntryMatches(node: Node, name: Name, path: Path, limits: Limits,
                                               utf8: seq<byte> -> bool, tally: Tally)
    requires node.Directory? && name in node.children
    requires Within(tally, limits) && DepthOf(path) <= limits.maxDepth
    ensures Matches(CollectEntry(node, name, path, DepthOf(path), limits, utf8, tally),
                    [Item(path + [name], node.children[name])] + Walk(node.children[name], path + [name]),
                    1, limits, utf8, tally)
    decreases node, 0, 0
  {
    var child := node.children[name];
    var item := Item(path + [name], child);
    var r := CollectEntry(node, name, path, DepthOf(path), limits, utf8, tally);
    match child
    case Directory(_) =>
      assert DepthOf(path + [name]) == SaturatingAdd(DepthOf(path), 1);
      if DepthOf(item.path) <= limits.maxDepth {
        CollectDirectoryMatches(child, item.path, limits, utf8, tally);
      }
      assert r == CollectDirectory(child, item.path, DepthOf(item.path), limits, utf8, tally);
      FolderMatches(item, Walk(child, item.path), r, limits, utf8, tally);
    case File(content) =>
      assert [item] + Walk(child, item.path) == [item];
      FileMatches(item, r, limits, utf8, tally);
    case Symlink =>
      assert [item] + Walk(child, item.path) == [item];
      OneItem(item, limits, utf8);
    case Special =>
      assert [item] + Walk(child, item.path) == [item];
      OneItem(item, limits, utf8);
  }

  lemma OneItem(item: Item, limits: Limits, utf8: seq<byte> -> bool)
    ensures AllOk([item], limits, utf8) <==> ItemOk(item, limits, utf8)
    ensures FilesIn([item]) == FileOf(item)
    ensures TotalBytes(FileOf(item)) == if item.node.File? then |item.node.content| else 0
  {
    assert FilesIn([item]) == FileOf(item) + FilesIn([]);
    if item.node.File? {
      assert TotalBytes(FileOf(item)) == |item.node.content| + TotalBytes([]);
    }
  }

  /** A directory passes when it is not too deep and everything below it passes. */
  lemma FolderMatches(item: Item, below: seq<Item>, r: Result<Tally, Failure>, limits: Limits,
                      utf8: seq<byte> -> bool, tally: Tally)
    requires item.node.Directory?
    requires DepthOf(item.path) > limits.maxDepth ==> r.Err?
    requires DepthOf(item.path) <= limits.maxDepth ==> Matches(r, below, 0, limits, utf8, tally)
    ensures Matches(r, [item] + below, 1, limits, utf8, tally)
  {
    OneItem(item, limits, utf8);
    AllOkConcat([item], below, limits, utf8);
    FilesInCons(item, below);
    assert FilesIn([item] + below) == FilesIn(below);
  }

  /** What the three tests on a file come to. */
  lemma FileMatches(item: Item, r: Result<Tally, Failure>, limits: Limits, utf8: seq<byte> -> bool, tally: Tally)
    requires item.node.File? && Within(tally, limits)
    requires var content, relative := item.node.content, Relative(item.path);
             r == if |tally.files| >= limits.maxFiles then Err(FileLimit)
                  else if ValidateFileSize(|content|, limits, tally.total).Err? then
                    Err(ValidateFileSize(|content|, limits, tally.total).error)
                  else if !utf8(relative) then Err(PathNotUtf8)
                  else Ok(tally.(total := ValidateFileSize(|content|, limits, tally.total).value,
                                 files := tally.files + [FileEntry(relative, content)]))
    ensures Matches(r, [item], 1, limits, utf8, tally)
  {
    OneItem(item, limits, utf8);
  }

  /** Matching from empty counters, in plain terms. */
  lemma FromStart(r: Result<Tally, Failure>, items: seq<Item>, limits: Limits, utf8: seq<byte> -> bool, start: Tally)
    requires start == Tally(0, 0, []) && Matches(r, items, 0, limits, utf8, start)
    ensures r.Ok? <==> Admits(items, 0, limits, utf8, start)
    ensures r.Ok? ==> r.value.files == FilesIn(items) && r.value.total == TotalBytes(r.value.files)
                      && r.value.visited == |items|
  {
    if r.Ok? {
      assert Extends(r.value, items, 0, start);
      assert start.files + FilesIn(items) == FilesIn(items);
    }
  }

  /** `collect_regular_files` from the root succeeds exactly on accepted trees, and lists their files. */
  lemma CollectIsAcceptance(root: Node, limits: Limits, utf8: seq<byte> -> bool)
    requires root.Directory?
    ensures var r := CollectDirectory(root, [], 0, limits, utf8, Tally(0, 0, []));
            && (r.Ok? <==> Accepted(root, limits, utf8))
            && (r.Ok? ==> r.value.files == FilesIn(Walk(root, [])) && r.value.total == TotalBytes(r.value.files)
                          && r.value.visited == |Walk(root, [])|)
  {
    var start := Tally(0, 0, []);
    assert DepthOf([]) == 0;
    CollectDirectoryMatches(root, [], limits, utf8, start);
    FromStart(CollectDirectory(root, [], 0, limits, utf8, start), Walk(root, []), limits, utf8, start);
  }
}
