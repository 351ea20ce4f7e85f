/** What pruning means: the two folders' names spelled out, and paths with a relation of their own. */
module TargetPruning {
  import opened Bytes
  import opened Sorting
  import opened TargetFingerprint
  import opened TargetTree
  import opened TargetWalk
  import opened Wrappers

  /** Neither `.git` nor `node_modules`. */
  predicate Visible(name: Name) {
    name != [46, 103, 105, 116] && name != [110, 111, 100, 101, 95, 109, 111, 100, 117, 108, 101, 115]
  }

  lemma VisibleMeaning(name: Name)
    ensures Excluded(name) <==> !Visible(name)
  {
    PrunedNames();
  }

  lemma PrunedNames()
    ensures GIT == [46, 103, 105, 116]
    ensures NODE_MODULES == [110, 111, 100, 101, 95, 109, 111, 100, 117, 108, 101, 115]
  {
  }

  // ---------------------------------------------------------------- what is pruned cannot matter

  /** The node without any child of either name, at any depth. */
  ghost function Pruned(node: Node): Node
    decreases node
  {
    match node
    case Directory(children) =>
      Directory(map name | name in children && Visible(name) :: Pruned(children[name]))
    case _ => node
  }

  ghost function PrunedItem(item: Item): Item {
    Item(item.path, Pruned(item.node))
  }

  ghost function PrunedItems(items: seq<Item>): seq<Item> {
    seq(|items|, i requires 0 <= i < |items| => PrunedItem(items[i]))
  }

  lemma SameListing(node: Node)
    requires node.Directory?
    ensures Pruned(node).Directory? && Listing(Pruned(node).children) == Listing(node.children)
    ensures forall name :: name in Kept(node.children) ==>
              name in Pruned(node).children && Pruned(node).children[name] == Pruned(node.children[name])
  {
    forall name
      ensures Excluded(name) <==> !Visible(name)
    {
      VisibleMeaning(name);
    }
    assert Kept(Pruned(node).children) == Kept(node.children);
  }

  /** Walking the pruned tree visits the same paths, each with its node pruned. */
  lemma {:induction false} WalkPruned(node: Node, path: Path)
    ensures Walk(Pruned(node), path) == PrunedItems(Walk(node, path))
    decreases node, 1, 0
  {
    if node.Directory? {
      SameListing(node);
      ListingProperties(node.children);
      WalkNamesPruned(node, Listing(node.children), path);
    }
  }

  lemma {:induction false} WalkNamesPruned(node: Node, names: seq<Name>, path: Path)
    requires node.Directory? && forall name :: name in names ==> name in Kept(node.children)
    ensures Pruned(node).Directory? && forall name :: name in names ==> name in Pruned(node).children
    ensures WalkNames(Pruned(node), names, path) == PrunedItems(WalkNames(node, names, path))
    decreases node, 0, |names|
  {
    SameListing(node);
    if names != [] {
      var child := node.children[names[0]];
      WalkPruned(child, path + [names[0]]);
      WalkNamesPruned(node, names[1..], path);
      PrunedConcat([Item(path + [names[0]], child)], Walk(child, path + [names[0]]));
      var here := [Item(path + [names[0]], child)] + Walk(child, path + [names[0]]);
      PrunedConcat(here, WalkNames(node, names[1..], path));
      assert PrunedItems([Item(path + [names[0]], child)]) == [Item(path + [names[0]], Pruned(child))];
    }
  }

  lemma PrunedConcat(a: seq<Item>, b: seq<Item>)
    ensures PrunedItems(a + b) == PrunedItems(a) + PrunedItems(b)
  {
  }

  lemma {:induction false} FilesPruned(items: seq<Item>)
    ensures FilesIn(PrunedItems(items)) == FilesIn(items)
  {
    if items != [] {
      FilesPruned(items[1..]);
      assert PrunedItems(items)[1..] == PrunedItems(items[1..]);
      assert FileOf(PrunedItem(items[0])) == FileOf(items[0]);
    }
  }

  lemma ItemsPruned(items: seq<Item>, limits: Limits, utf8: seq<byte> -> bool)
    ensures AllOk(PrunedItems(items), limits, utf8) <==> AllOk(items, limits, utf8)
  {
    var pruned := PrunedItems(items);
    forall item
      ensures ItemOk(PrunedItem(item), limits, utf8) <==> ItemOk(item, limits, utf8)
    {
    }
    if AllOk(pruned, limits, utf8) {
      forall item | item in items
        ensures ItemOk(item, limits, utf8)
      {
        var i :| 0 <= i < |items| && items[i] == item;
        assert pruned[i] in pruned;
      }
    }
  }

  lemma {:induction false} PrunedWellFormed(node: Node)
    requires WellFormed(node)
    ensures WellFormed(Pruned(node))
    decreases node
  {
    match node
    case Directory(children) =>
      forall name | name in Pruned(node).children
        ensures name != [] && SLASH !in name && WellFormed(Pruned(node).children[name])
      {
        PrunedWellFormed(children[name]);
      }
    case _ =>
  }

  /** A target and its pruned copy fingerprint alike, with the same stream. */
  lemma PruningChangesNothing(root: Node, limits: Limits, utf8: seq<byte> -> bool)
    requires WellFormed(root) && Representable(root)
    ensures WellFormed(Pruned(root)) && Representable(Pruned(root))
    ensures Fingerprints(Pruned(root), limits, utf8) <==> Fingerprints(root, limits, utf8)
    ensures Fingerprints(root, limits, utf8) ==> Stream(Pruned(root)) == Stream(root)
  {
    PrunedWellFormed(root);
    if root.Directory? {
      WalkPruned(root, []);
      FilesPruned(Walk(root, []));
      ItemsPruned(Walk(root, []), limits, utf8);
      FilesInReach(root);
      FilesInReach(Pruned(root));
      assert forall file :: HasFile(Pruned(root), file) <==> HasFile(root, file);
    }
  }

  /** So whatever is put at, taken from or changed below a child of either name, at any depth, neither success
      nor stream can tell: all that counts is that the pruned copies agree. */
  lemma PrunedAlike(a: Node, b: Node, limits: Limits, utf8: seq<byte> -> bool)
    requires WellFormed(a) && Representable(a) && WellFormed(b) && Representable(b) && Pruned(a) == Pruned(b)
    ensures Fingerprints(a, limits, utf8) <==> Fingerprints(b, limits, utf8)
    ensures Fingerprints(a, limits, utf8) ==> Stream(a) == Stream(b)
  {
    PruningChangesNothing(a, limits, utf8);
    PruningChangesNothing(b, limits, utf8);
  }

  /** Replacing or removing one child of either name leaves the pruned copy as it was. */
  lemma ChildOfEitherName(children: map<Name, Node>, name: Name, child: Node)
    requires name == [46, 103, 105, 116]
             || name == [110, 111, 100, 101, 95, 109, 111, 100, 117, 108, 101, 115]
    ensures Pruned(Directory(children[name := child])) == Pruned(Directory(children))
    ensures Pruned(Directory(children - {name})) == Pruned(Directory(children))
  {
  }

  /** And so does a change deeper down, below any child. */
  lemma ChangeBelow(children: map<Name, Node>, name: Name, a: Node, b: Node)
    requires Pruned(a) == Pruned(b)
    ensures Pruned(Directory(children[name := a])) == Pruned(Directory(children[name := b]))
  {
    var x, y := Pruned(Directory(children[name := a])).children, Pruned(Directory(children[name := b])).children;
    assert x.Keys == y.Keys;
    assert forall k :: k in x ==> x[k] == y[k];
  }

  // ---------------------------------------------------------------- nothing else is pruned

  /** The node that a path leads to. */
  ghost predicate Leads(root: Node, path: Path, node: Node)
    decreases |path|
  {
    if path == [] then root == node
    else root.Directory? && path[0] in root.children && Leads(root.children[path[0]], path[1..], node)
  }

  ghost predicate VisiblePath(path: Path) {
    forall i :: 0 <= i < |path| ==> Visible(path[i])
  }

  lemma {:induction false} LeadsMeaning(root: Node, path: Path, node: Node)
    ensures Reach(root, path) == Some(node) <==> Leads(root, path, node) && VisiblePath(path)
    decreases |path|
  {
    if path != [] {
      VisibleMeaning(path[0]);
      assert VisiblePath(path) <==> Visible(path[0]) && VisiblePath(path[1..]) by {
        assert forall i :: 1 <= i < |path| ==> path[i] == path[1..][i - 1];
      }
      if root.Directory? && path[0] in root.children {
        LeadsMeaning(root.children[path[0]], path[1..], node);
      }
    }
  }

  /** The components of a relative name: what stands between its slashes. */
  function Components(relative: seq<byte>): (path: seq<seq<byte>>)
    ensures |path| > 0
  {
    if relative == [] then [[]]
    else
      var rest := Components(relative[1..]);
      if relative[0] == 47 then [[]] + rest else [[relative[0]] + rest[0]] + rest[1..]
  }

  lemma {:induction false} OneComponent(name: seq<byte>)
    requires 47 !in name
    ensures Components(name) == [name]
  {
    if name != [] {
      OneComponent(name[1..]);
      assert name == [name[0]] + name[1..];
    }
  }

  lemma {:induction false} FirstComponent(name: seq<byte>, rest: seq<byte>)
    requires 47 !in name
    ensures Components(name + [47] + rest) == [name] + Components(rest)
  {
    if name == [] {
      assert name + [47] + rest == [47] + rest && ([47] + rest)[1..] == rest;
    } else {
      FirstComponent(name[1..], rest);
      var s := name + [47] + rest;
      assert s[0] == name[0] && s[1..] == name[1..] + [47] + rest;
      assert [name[0]] + name[1..] == name;
    }
  }

  /** A relative name is the path's components with slashes between them. */
  lemma {:induction false} RelativeSplits(path: Path)
    requires path != [] && forall i :: 0 <= i < |path| ==> 47 !in path[i]
    ensures Components(Relative(path)) == path
  {
    if |path| == 1 {
      OneComponent(path[0]);
      assert path == [path[0]];
    } else {
      RelativeSplits(path[1..]);
      FirstComponent(path[0], Relative(path[1..]));
      assert path == [path[0]] + path[1..];
    }
  }

  /** A regular file is in the stream exactly when a path leads to it that crosses neither folder, and under
      exactly that path. */
  lemma StreamHolds(root: Node, limits: Limits, utf8: seq<byte> -> bool, file: FileEntry)
    requires root.Directory? && Fingerprinted(root, limits, utf8)
    ensures ReadStream(Stream(root)).Some? && ReadStream(Stream(root)).value.Tree?
    ensures file in ReadStream(Stream(root)).value.files <==>
              exists path :: path != [] && Leads(root, path, File(file.content)) && VisiblePath(path)
                             && file.relative == Relative(path) && Components(file.relative) == path
  {
    ReadTarget(root, limits, utf8);
    HashedFilesProperties(root);
    if path :| FileAt(root, path, file) {
      LeadsMeaning(root, path, File(file.content));
      ReachComponentsOk(root, path);
      RelativeSplits(path);
    }
    if path :| path != [] && Leads(root, path, File(file.content)) && VisiblePath(path)
               && file.relative == Relative(path) && Components(file.relative) == path {
      LeadsMeaning(root, path, File(file.content));
      assert FileAt(root, path, file);
    }
  }

  // ---------------------------------------------------------------- the limits, over any listing

  /** The node at the end of a path, if there is one. */
  ghost function NodeAt(root: Node, path: Path): Option<Node>
    decreases |path|
  {
    if path == [] then Some(root)
    else if root.Directory? && path[0] in root.children then NodeAt(root.children[path[0]], path[1..])
    else None
  }

  lemma {:induction false} NodeAtLeads(root: Node, path: Path, node: Node)
    ensures NodeAt(root, path) == Some(node) <==> Leads(root, path, node)
    decreases |path|
  {
    if path != [] && root.Directory? && path[0] in root.children {
      NodeAtLeads(root.children[path[0]], path[1..], node);
    }
  }

  /** All entries below the root that no path component prunes, each once, in any order. */
  ghost predicate ListsEntries(root: Node, paths: seq<Path>) {
    && (forall i, j :: 0 <= i < j < |paths| ==> paths[i] != paths[j])
    && (forall path :: path in paths <==> path != [] && VisiblePath(path) && NodeAt(root, path).Some?)
  }

  ghost function Sum(paths: seq<Path>, weight: Path -> nat): nat {
    if paths == [] then 0 else weight(paths[0]) + Sum(paths[1..], weight)
  }

  ghost function FileCount(root: Node): Path -> nat {
    (path: Path) => if NodeAt(root, path).Some? && NodeAt(root, path).value.File? then 1 else 0
  }

  ghost function FileBytes(root: Node): Path -> nat {
    (path: Path) =>
      if NodeAt(root, path).Some? && NodeAt(root, path).value.File? then |NodeAt(root, path).value.content| else 0
  }

  ghost predicate EntryOk(path: Path, node: Node, limits: Limits, utf8: seq<byte> -> bool) {
    match node
    case Symlink => false
    case Special => true
    case Directory(_) => |path| <= limits.maxDepth || limits.maxDepth == U64_MAX
    case File(content) => |content| <= limits.maxFileBytes && utf8(Relative(path))
  }

  lemma {:induction false} SumConcat(a: seq<Path>, b: seq<Path>, weight: Path -> nat)
    ensures Sum(a + b, weight) == Sum(a, weight) + Sum(b, weight)
  {
    if a == [] {
      assert a + b == b;
    } else {
      SumConcat(a[1..], b, weight);
      assert (a + b)[0] == a[0] && (a + b)[1..] == a[1..] + b;
    }
  }

  /** Two listings of the same entries weigh the same and are equally long. */
  lemma {:induction false} SumOfListing(a: seq<Path>, b: seq<Path>, weight: Path -> nat)
    requires forall i, j :: 0 <= i < j < |a| ==> a[i] != a[j]
    requires forall i, j :: 0 <= i < j < |b| ==> b[i] != b[j]
    requires forall path :: path in a <==> path in b
    ensures |a| == |b| && Sum(a, weight) == Sum(b, weight)
    decreases |a|
  {
    if a == [] {
      if b != [] {
        HasElement(b);
      }
    } else {
      assert a[0] in b;
      var k :| 0 <= k < |b| && b[k] == a[0];
      var rest := b[..k] + b[k + 1..];
      assert b == b[..k] + ([b[k]] + b[k + 1..]);
      SumConcat(b[..k], [b[k]] + b[k + 1..], weight);
      SumConcat([b[k]], b[k + 1..], weight);
      SumConcat(b[..k], b[k + 1..], weight);
      assert Sum([b[k]], weight) == weight(b[k]) + Sum([], weight);
      RestListed(a, b, k);
      SumOfListing(a[1..], rest, weight);
    }
  }

  lemma RestListed(a: seq<Path>, b: seq<Path>, k: nat)
    requires a != [] && k < |b| && b[k] == a[0]
    requires forall i, j :: 0 <= i < j < |a| ==> a[i] != a[j]
    requires forall i, j :: 0 <= i < j < |b| ==> b[i] != b[j]
    requires forall path :: path in a <==> path in b
    ensures var rest := b[..k] + b[k + 1..];
            && (forall i, j :: 0 <= i < j < |rest| ==> rest[i] != rest[j])
            && (forall path :: path in a[1..] <==> path in rest)
  {
    var rest := b[..k] + b[k + 1..];
    assert forall i :: 0 <= i < |rest| ==> rest[i] == b[if i < k then i else i + 1];
    forall path
      ensures path in a[1..] <==> path in rest
    {
      if path in a[1..] {
        var i :| 0 <= i < |a[1..]| && a[1..][i] == path;
        assert a[i + 1] == path && path in a && path != a[0];
        var j :| 0 <= j < |b| && b[j] == path;
        assert rest[if j < k then j else j - 1] == path;
      }
      if path in rest {
        var i :| 0 <= i < |rest| && rest[i] == path;
        assert path in b && path != b[k];
        var j :| 0 <= j < |a| && a[j] == path;
        assert a[1..][j - 1] == path;
      }
    }
  }

  ghost function PathsOf(items: seq<Item>): seq<Path> {
    seq(|items|, i requires 0 <= i < |items| => items[i].path)
  }

  /** The walk is such a listing, and weighs what its files weigh. */
  lemma WalkLists(root: Node)
    requires root.Directory?
    ensures ListsEntries(root, PathsOf(Walk(root, [])))
    ensures forall item :: item in Walk(root, []) ==> NodeAt(root, item.path) == Some(item.node)
  {
    var items := Walk(root, []);
    var paths := PathsOf(items);
    WalkPathsDistinct(root, []);
    WalkBelow(root, []);
    ListingProperties(root.children);
    forall item | item in items
      ensures item.path != [] && VisiblePath(item.path) && NodeAt(root, item.path) == Some(item.node)
    {
      assert item.path[0..] == item.path;
      LeadsMeaning(root, item.path, item.node);
      NodeAtLeads(root, item.path, item.node);
    }
    forall path | path != [] && VisiblePath(path) && NodeAt(root, path).Some?
      ensures path in paths
    {
      var node := NodeAt(root, path).value;
      NodeAtLeads(root, path, node);
      LeadsMeaning(root, path, node);
      assert path[0..] == path && path[..0] == [];
      var item := Item(path, node);
      assert item in items;
      var i :| 0 <= i < |items| && items[i] == item;
      assert paths[i] == path;
    }
    forall path | path in paths
      ensures path != [] && VisiblePath(path) && NodeAt(root, path).Some?
    {
      var i :| 0 <= i < |paths| && paths[i] == path;
      assert items[i] in items;
    }
  }

  lemma {:induction false} FilesWeigh(root: Node, items: seq<Item>)
    requires forall item :: item in items ==> NodeAt(root, item.path) == Some(item.node)
    ensures |FilesIn(items)| == Sum(PathsOf(items), FileCount(root))
    ensures TotalBytes(FilesIn(items)) == Sum(PathsOf(items), FileBytes(root))
  {
    if items != [] {
      FilesWeigh(root, items[1..]);
      assert PathsOf(items)[0] == items[0].path && PathsOf(items)[1..] == PathsOf(items[1..]);
      assert items[0] in items;
      TotalBytesConcat(FileOf(items[0]), FilesIn(items[1..]));
      OneItem(items[0], Limits(0, 0, 0, 0, 0), _ => true);
    }
  }

  /** Exactly when a directory fingerprints: all limits are positive, and over any listing of its unpruned entries
      there is no symbolic link, no file too large or without a readable name, no folder too deep, and not too
      many entries, files or bytes in all. */
  lemma ExactAcceptance(root: Node, limits: Limits, utf8: seq<byte> -> bool, paths: seq<Path>)
    requires root.Directory? && ListsEntries(root, paths)
    ensures Fingerprints(root, limits, utf8) <==>
              && limits.maxFiles > 0 && limits.maxEntries > 0 && limits.maxTotalBytes > 0
              && limits.maxFileBytes > 0 && limits.maxDepth > 0
              && (forall path :: path in paths ==> EntryOk(path, NodeAt(root, path).value, limits, utf8))
              && |paths| <= limits.maxEntries
              && Sum(paths, FileCount(root)) <= limits.maxFiles
              && Sum(paths, FileBytes(root)) <= limits.maxTotalBytes
  {
    var items := Walk(root, []);
    WalkLists(root);
    FilesWeigh(root, items);
    SumOfListing(PathsOf(items), paths, FileCount(root));
    SumOfListing(PathsOf(items), paths, FileBytes(root));
    EntriesOk(root, items, limits, utf8, paths);
  }

  lemma EntriesOk(root: Node, items: seq<Item>, limits: Limits, utf8: seq<byte> -> bool, paths: seq<Path>)
    requires forall item :: item in items ==> NodeAt(root, item.path) == Some(item.node)
    requires forall path :: path in paths <==> path in PathsOf(items)
    ensures AllOk(items, limits, utf8) <==>
              forall path :: path in paths ==>
                NodeAt(root, path).Some? && EntryOk(path, NodeAt(root, path).value, limits, utf8)
  {
    forall i | 0 <= i < |items|
      ensures ItemOk(items[i], limits, utf8) <==> EntryOk(items[i].path, items[i].node, limits, utf8)
      ensures PathsOf(items)[i] in paths
    {
    }
    if AllOk(items, limits, utf8) {
      forall path | path in paths
        ensures NodeAt(root, path).Some? && EntryOk(path, NodeAt(root, path).value, limits, utf8)
      {
        var i :| 0 <= i < |items| && PathsOf(items)[i] == path;
        assert items[i] in items;
      }
    } else {
      var item :| item in items && !ItemOk(item, limits, utf8);
      var i :| 0 <= i < |items| && items[i] == item;
      assert PathsOf(items)[i] in paths;
    }
  }
}
