/** The byte stream fed to the target hasher, its reader, and what two equal streams mean. */
module TargetFingerprint {
  import opened Bytes
  import opened Framing
  import opened Sequences
  import opened Sorting
  import opened TargetTree
  import opened TargetWalk
  import opened Wrappers

  const SCHEME: Buffer := Ascii("secureflow-target-sha256-v3")
  const FILE_KIND: Buffer := Ascii("file")
  const DIRECTORY_KIND: Buffer := Ascii("directory")

  // ---------------------------------------------------------------- distinct paths, distinct names

  ghost predicate PathsDistinct(items: seq<Item>) {
    forall i, j :: 0 <= i < j < |items| ==> items[i].path != items[j].path
  }

  lemma {:induction false} WalkPathsDistinct(node: Node, path: Path)
    requires node.Directory?
    ensures PathsDistinct(Walk(node, path))
    decreases node, 1, 0
  {
    ListingProperties(node.children);
    var names := Listing(node.children);
    forall i, j | 0 <= i < j < |names|
      ensures names[i] != names[j]
    {
      LessTrichotomy(names[i], names[j]);
    }
    WalkNamesPathsDistinct(node, names, path);
  }

  lemma {:induction false} WalkNamesPathsDistinct(node: Node, names: seq<Name>, path: Path)
    requires node.Directory? && forall name :: name in names ==> name in node.children && !Excluded(name)
    requires forall i, j :: 0 <= i < j < |names| ==> names[i] != names[j]
    ensures PathsDistinct(WalkNames(node, names, path))
    decreases node, 0, |names|
  {
    if names != [] {
      var name, child := names[0], node.children[names[0]];
      var here := [Item(path + [name], child)] + Walk(child, path + [name]);
      var rest := WalkNames(node, names[1..], path);
      WalkChildBelow(node, name, path);
      WalkNamesBelow(node, names[1..], path);
      WalkNamesPathsDistinct(node, names[1..], path);
      if child.Directory? {
        WalkPathsDistinct(child, path + [name]);
        WalkBelow(child, path + [name]);
      }
      assert PathsDistinct(here);
      forall x, y | x in here && y in rest
        ensures x.path != y.path
      {
        assert x.path[|path|] == name && y.path[|path|] in names[1..];
      }
      assert WalkNames(node, names, path) == here + rest;
    }
  }

  ghost predicate ComponentsOk(path: Path) {
    forall i :: 0 <= i < |path| ==> path[i] != [] && SLASH !in path[i]
  }

  lemma {:induction false} ReachComponentsOk(node: Node, path: Path)
    requires WellFormed(node) && Reach(node, path).Some?
    ensures ComponentsOk(path)
  {
    if path != [] {
      ReachComponentsOk(node.children[path[0]], path[1..]);
      assert forall i :: 1 <= i < |path| ==> path[i] == path[1..][i - 1];
    }
  }

  lemma HasSlash(p: Path)
    requires p != [] && ComponentsOk(p)
    ensures SLASH in Relative(p) <==> |p| > 1
  {
    if |p| > 1 {
      assert Relative(p)[|p[0]|] == SLASH;
    }
  }

  /** Joining by `/` loses nothing when no component holds one. */
  lemma {:induction false} RelativeInjective(p: Path, q: Path)
    requires p != [] && q != [] && ComponentsOk(p) && ComponentsOk(q)
    requires Relative(p) == Relative(q)
    ensures p == q
  {
    var r := Relative(p);
    HasSlash(p);
    HasSlash(q);
    if |p| > 1 && |q| > 1 {
      assert r[|p[0]|] == SLASH && r[|q[0]|] == SLASH;
      assert forall i :: 0 <= i < |p[0]| ==> r[i] == p[0][i];
      assert forall i :: 0 <= i < |q[0]| ==> r[i] == q[0][i];
      assert |p[0]| == |q[0]|;
      assert p[0] == r[..|p[0]|] == q[0];
      assert Relative(p[1..]) == r[|p[0]| + 1..] == Relative(q[1..]);
      RelativeInjective(p[1..], q[1..]);
      assert p == [p[0]] + p[1..] && q == [q[0]] + q[1..];
    }
  }

  ghost predicate FileAt(root: Node, path: Path, file: FileEntry) {
    path != [] && Reach(root, path) == Some(File(file.content)) && file.relative == Relative(path)
  }

  /** A regular file the pruned tree reaches, under its relative name. */
  ghost predicate HasFile(root: Node, file: FileEntry) {
    exists path :: FileAt(root, path, file)
  }

  /** The listed files are exactly the regular files the pruned tree reaches. */
  lemma {:induction false} FilesInMembers(items: seq<Item>)
    ensures forall file :: file in FilesIn(items) <==>
              exists item :: item in items && item.node == File(file.content) && file.relative == Relative(item.path)
  {
    if items != [] {
      FilesInMembers(items[1..]);
      assert items == [items[0]] + items[1..];
      forall file
        ensures file in FilesIn(items) <==>
                exists item :: item in items && item.node == File(file.content) && file.relative == Relative(item.path)
      {
        if item :| item in items && item.node == File(file.content) && file.relative == Relative(item.path) {
          assert item == items[0] || item in items[1..];
        }
      }
    }
  }

  lemma FilesInReach(root: Node)
    requires root.Directory?
    ensures forall file :: file in FilesIn(Walk(root, [])) <==> HasFile(root, file)
  {
    var items := Walk(root, []);
    FilesInMembers(items);
    WalkBelow(root, []);
    ListingProperties(root.children);
    forall file
      ensures file in FilesIn(items) <==> HasFile(root, file)
    {
      if file in FilesIn(items) {
        var item :| item in items && item.node == File(file.content) && file.relative == Relative(item.path);
        assert item.path[0..] == item.path;
        assert FileAt(root, item.path, file);
      }
      if path :| FileAt(root, path, file) {
        assert path[0..] == path && path[..0] == [];
        assert Item(path, File(file.content)) in items;
      }
    }
  }

  lemma {:induction false} FilesInDistinct(root: Node, items: seq<Item>)
    requires WellFormed(root) && PathsDistinct(items)
    requires forall item :: item in items ==> item.path != [] && Reach(root, item.path).Some?
    ensures DistinctKeys(FilesIn(items), RelativeKey)
  {
    if items != [] {
      FilesInDistinct(root, items[1..]);
      FilesInMembers(items[1..]);
      var rest := FilesIn(items[1..]);
      forall file | items[0].node.File? && file in rest
        ensures file.relative != Relative(items[0].path)
      {
        var item :| item in items[1..] && item.node == File(file.content) && file.relative == Relative(item.path);
        var k :| 0 <= k < |items[1..]| && items[1..][k] == item;
        assert items[k + 1] == item && items[0] in items;
        ReachComponentsOk(root, item.path);
        ReachComponentsOk(root, items[0].path);
        if file.relative == Relative(items[0].path) {
          RelativeInjective(item.path, items[0].path);
        }
      }
    }
  }

  /** The files in the order they are hashed. */
  ghost function HashedFiles(root: Node): seq<FileEntry> {
    SortBy(FilesIn(Walk(root, [])), RelativeKey)
  }

  lemma HashedFilesProperties(root: Node)
    requires root.Directory? && WellFormed(root)
    ensures StrictlySorted(HashedFiles(root), RelativeKey)
    ensures forall file :: file in HashedFiles(root) <==> HasFile(root, file)
    ensures |HashedFiles(root)| == |FilesIn(Walk(root, []))|
  {
    var items := Walk(root, []);
    var files := FilesIn(items);
    WalkPathsDistinct(root, []);
    WalkBelow(root, []);
    forall item | item in items
      ensures item.path != [] && Reach(root, item.path).Some?
    {
      assert item.path[0..] == item.path;
    }
    FilesInDistinct(root, items);
    SortSorts(files, RelativeKey);
    SortPermutes(files, RelativeKey);
    assert |multiset(HashedFiles(root))| == |multiset(files)|;
    FilesInReach(root);
  }

  // ---------------------------------------------------------------- the stream

  /** A `PathBuf` holds at most usize bytes. */
  ghost predicate Representable(root: Node) {
    forall file :: HasFile(root, file) ==> |file.relative| <= U64_MAX
  }

  predicate Buffered(files: seq<FileEntry>) {
    forall file :: file in files ==> |file.relative| <= U64_MAX
  }

  /** Each file contributes its name and its contents, both length-prefixed. */
  function Flatten(files: seq<FileEntry>): seq<Buffer>
    requires Buffered(files)
  {
    if files == [] then [] else [files[0].relative, files[0].content] + Flatten(files[1..])
  }

  function FileStream(content: Buffer): seq<byte> {
    Field(SCHEME) + Field(FILE_KIND) + BigEndian(|content|, 8) + content
  }

  function DirectoryHeader(files: seq<FileEntry>): seq<byte> {
    Field(SCHEME) + Field(DIRECTORY_KIND) + BigEndian(|files|, 8) + BigEndian(TotalBytes(files), 8)
  }

  function DirectoryStream(files: seq<FileEntry>): seq<byte>
    requires Buffered(files)
  {
    DirectoryHeader(files) + Fields(Flatten(files))
  }

  predicate Positive(limits: Limits) {
    limits.maxFiles > 0 && limits.maxEntries > 0 && limits.maxTotalBytes > 0 && limits.maxFileBytes > 0
    && limits.maxDepth > 0
  }

  /** When a target fingerprints at all. */
  ghost predicate Fingerprints(root: Node, limits: Limits, utf8: seq<byte> -> bool) {
    Positive(limits) &&
    match root
    case File(content) => |content| <= limits.maxFileBytes && |content| <= limits.maxTotalBytes
    case Directory(_) => Accepted(root, limits, utf8)
    case _ => false
  }

  ghost function Stream(root: Node): seq<byte>
    requires root.File? || (root.Directory? && WellFormed(root) && Representable(root))
  {
    if root.File? then FileStream(root.content)
    else
      HashedFilesProperties(root);
      DirectoryStream(HashedFiles(root))
  }

  // ---------------------------------------------------------------- reading it back

  datatype Reading = SingleFile(content: seq<byte>) | Tree(files: seq<FileEntry>)

  function Pair(values: seq<seq<byte>>): Option<seq<FileEntry>> {
    if values == [] then Some([])
    else if |values| == 1 || |values[1]| > U64_MAX then None
    else
      var rest :- Pair(values[2..]);
      Some([FileEntry(values[0], values[1])] + rest)
  }

  function ReadStream(s: seq<byte>): Option<Reading> {
    var (scheme, s1) :- TakeField(s);
    var (kind, s2) :- TakeField(s1);
    if scheme != SCHEME then None
    else if kind == FILE_KIND then
      var (content, s3) :- TakeField(s2);
      if s3 == [] then Some(SingleFile(content)) else None
    else if kind == DIRECTORY_KIND then
      ReadDirectory(s2)
    else None
  }

  function ReadDirectory(s: seq<byte>): Option<Reading> {
    var (count, s1) :- TakeWord(s);
    var (total, s2) :- TakeWord(s1);
    var values :- ReadFields(s2);
    var files :- Pair(values);
    if |files| == count && TotalBytes(files) == total then Some(Tree(files)) else None
  }

  lemma {:induction false} PairUndoes(files: seq<FileEntry>)
    requires Buffered(files)
    ensures Pair(Flatten(files)) == Some(files)
  {
    if files != [] {
      PairUndoes(files[1..]);
      var values := Flatten(files);
      assert values[0] == files[0].relative && values[1] == files[0].content;
      assert values[2..] == Flatten(files[1..]);
      assert files == [files[0]] + files[1..];
    }
  }

  lemma ReadFileStream(content: Buffer)
    ensures ReadStream(FileStream(content)) == Some(SingleFile(content))
  {
    assert FileStream(content) == Field(SCHEME) + (Field(FILE_KIND) + (Field(content) + []));
    TakeFieldUndoes(SCHEME, Field(FILE_KIND) + (Field(content) + []));
    TakeFieldUndoes(FILE_KIND, Field(content) + []);
    TakeFieldUndoes(content, []);
  }

  lemma ReadDirectoryUndoes(count: seq<byte>, total: seq<byte>, files: seq<FileEntry>)
    requires Buffered(files) && |count| == 8 && |total| == 8
    requires FromBigEndian(count) == |files| && FromBigEndian(total) == TotalBytes(files)
    ensures ReadDirectory(count + (total + Fields(Flatten(files)))) == Some(Tree(files))
  {
    var body := Fields(Flatten(files));
    var s := count + (total + body);
    assert s[..8] == count && s[8..] == total + body;
    assert (total + body)[..8] == total && (total + body)[8..] == body;
    ReadFieldsUndoes(Flatten(files));
    PairUndoes(files);
  }

  lemma ReadTagged(scheme: Buffer, kind: Buffer, rest: seq<byte>)
    requires scheme == SCHEME && kind == DIRECTORY_KIND
    ensures ReadStream(Field(scheme) + (Field(kind) + rest)) == ReadDirectory(rest)
  {
    TakeFieldUndoes(scheme, Field(kind) + rest);
    TakeFieldUndoes(kind, rest);
    KindsDiffer();
  }

  lemma Regroup(a: seq<byte>, b: seq<byte>, c: seq<byte>, d: seq<byte>, e: seq<byte>)
    ensures a + b + c + d + e == a + (b + (c + (d + e)))
  {
  }

  lemma DirectoryWords(files: seq<FileEntry>) returns (count: seq<byte>, total: seq<byte>)
    requires Buffered(files) && |files| <= U64_MAX && TotalBytes(files) <= U64_MAX
    ensures ReadDirectory(count + (total + Fields(Flatten(files)))) == Some(Tree(files))
    ensures count == BigEndian(|files|, 8) && total == BigEndian(TotalBytes(files), 8)
  {
    count, total := BigEndian(|files|, 8), BigEndian(TotalBytes(files), 8);
    Word64(|files|);
    Word64(TotalBytes(files));
    ReadDirectoryUndoes(count, total, files);
  }

  lemma DirectoryShape(files: seq<FileEntry>, count: seq<byte>, total: seq<byte>)
    requires Buffered(files)
    requires count == BigEndian(|files|, 8) && total == BigEndian(TotalBytes(files), 8)
    ensures DirectoryStream(files) ==
            Field(SCHEME) + (Field(DIRECTORY_KIND) + (count + (total + Fields(Flatten(files)))))
  {
    Regroup(Field(SCHEME), Field(DIRECTORY_KIND), count, total, Fields(Flatten(files)));
  }

  lemma ReadDirectoryStream(files: seq<FileEntry>)
    requires Buffered(files) && |files| <= U64_MAX && TotalBytes(files) <= U64_MAX
    ensures ReadStream(DirectoryStream(files)) == Some(Tree(files))
  {
    var count, total := DirectoryWords(files);
    DirectoryShape(files, count, total);
    ReadTagged(SCHEME, DIRECTORY_KIND, count + (total + Fields(Flatten(files))));
  }

  /** Spelled out for a file: the scheme, the kind, the length, the bytes. */
  lemma FileLayout(content: Buffer)
    ensures TakeField(FileStream(content)).Some?
            && var (scheme, s1) := TakeField(FileStream(content)).value;
               && scheme == Ascii("secureflow-target-sha256-v3")
               && TakeField(s1).Some?
               && var (kind, s2) := TakeField(s1).value;
                  && kind == Ascii("file")
                  && TakeField(s2) == Some((content, []))
  {
    assert FileStream(content) == Field(SCHEME) + (Field(FILE_KIND) + (Field(content) + []));
    TakeFieldUndoes(SCHEME, Field(FILE_KIND) + (Field(content) + []));
    TakeFieldUndoes(FILE_KIND, Field(content) + []);
    TakeFieldUndoes(content, []);
  }

  /** Spelled out for a directory: the scheme, the kind, how many files, how many bytes, then name and contents
      of each file in turn. */
  lemma DirectoryLayout(files: seq<FileEntry>)
    requires Buffered(files) && |files| <= U64_MAX && TotalBytes(files) <= U64_MAX
    ensures TakeField(DirectoryStream(files)).Some?
            && var (scheme, s1) := TakeField(DirectoryStream(files)).value;
               && scheme == Ascii("secureflow-target-sha256-v3")
               && TakeField(s1).Some?
               && var (kind, s2) := TakeField(s1).value;
                  && kind == Ascii("directory")
                  && s2 == BigEndian(|files|, 8) + (BigEndian(TotalBytes(files), 8) + Fields(Flatten(files)))
                  && ReadFields(Fields(Flatten(files))) == Some(Flatten(files))
    ensures |Flatten(files)| == 2 * |files|
    ensures forall i :: 0 <= i < |files| ==>
              Flatten(files)[2 * i] == files[i].relative && Flatten(files)[2 * i + 1] == files[i].content
  {
    var rest := BigEndian(|files|, 8) + (BigEndian(TotalBytes(files), 8) + Fields(Flatten(files)));
    DirectoryShape(files, BigEndian(|files|, 8), BigEndian(TotalBytes(files), 8));
    TakeFieldUndoes(SCHEME, Field(DIRECTORY_KIND) + rest);
    TakeFieldUndoes(DIRECTORY_KIND, rest);
    ReadFieldsUndoes(Flatten(files));
    FlattenAlternates(files);
  }

  lemma {:induction false} FlattenAlternates(files: seq<FileEntry>)
    requires Buffered(files)
    ensures |Flatten(files)| == 2 * |files|
    ensures forall i :: 0 <= i < |files| ==>
              Flatten(files)[2 * i] == files[i].relative && Flatten(files)[2 * i + 1] == files[i].content
  {
    if files != [] {
      FlattenAlternates(files[1..]);
      var tail := Flatten(files[1..]);
      assert Flatten(files) == [files[0].relative, files[0].content] + tail;
      forall i | 0 <= i < |files|
        ensures Flatten(files)[2 * i] == files[i].relative && Flatten(files)[2 * i + 1] == files[i].content
      {
        if i > 0 {
          assert Flatten(files)[2 * i] == tail[2 * (i - 1)] && Flatten(files)[2 * i + 1] == tail[2 * (i - 1) + 1];
          assert files[i] == files[1..][i - 1];
        }
      }
    }
  }

  lemma KindsDiffer()
    ensures FILE_KIND != DIRECTORY_KIND
  {
    assert |FILE_KIND| == 4 && |DIRECTORY_KIND| == 9;
  }

  // ---------------------------------------------------------------- identity

  ghost predicate SameFiles(a: Node, b: Node) {
    forall file :: HasFile(a, file) <==> HasFile(b, file)
  }

  /** Both are files with equal bytes, or both are directories with equal pruned contents by name. */
  ghost predicate SameTarget(a: Node, b: Node) {
    || (a.File? && b.File? && a.content == b.content)
    || (a.Directory? && b.Directory? && SameFiles(a, b))
  }

  ghost predicate Fingerprinted(root: Node, limits: Limits, utf8: seq<byte> -> bool) {
    WellFormed(root) && Representable(root) && Fingerprints(root, limits, utf8)
  }

  lemma ReadTarget(root: Node, limits: Limits, utf8: seq<byte> -> bool)
    requires Fingerprinted(root, limits, utf8)
    ensures ReadStream(Stream(root)) ==
            Some(if root.File? then SingleFile(root.content) else Tree(HashedFiles(root)))
  {
    if root.File? {
      ReadFileStream(root.content);
    } else {
      HashedFilesProperties(root);
      var listed := FilesIn(Walk(root, []));
      SortPermutes(listed, RelativeKey);
      TotalBytesPermutation(HashedFiles(root), listed);
      ReadDirectoryStream(HashedFiles(root));
    }
  }

  lemma {:induction false} TotalBytesRemove(s: seq<FileEntry>, i: nat)
    requires i < |s|
    ensures TotalBytes(s) == |s[i].content| + TotalBytes(s[..i] + s[i + 1..])
  {
    TotalBytesConcat(s[..i], s[i + 1..]);
    TotalBytesConcat(s[..i], s[i..]);
    assert s == s[..i] + s[i..];
    assert s[i..][1..] == s[i + 1..];
  }

  lemma {:induction false} TotalBytesPermutation(a: seq<FileEntry>, b: seq<FileEntry>)
    requires multiset(a) == multiset(b)
    ensures TotalBytes(a) == TotalBytes(b)
  {
    if a == [] {
      assert |multiset(b)| == 0;
    } else {
      assert a[0] in multiset(b);
      var i :| 0 <= i < |b| && b[i] == a[0];
      TotalBytesRemove(b, i);
      RemoveBoth(a, b, i);
      TotalBytesPermutation(a[1..], b[..i] + b[i + 1..]);
    }
  }

  /** The stream is an identity: equal streams mean equal targets, and the other way round,
      whatever limits either was fingerprinted under. */
  lemma FingerprintIdentity(a: Node, b: Node, limitsA: Limits, limitsB: Limits, utf8: seq<byte> -> bool)
    requires Fingerprinted(a, limitsA, utf8) && Fingerprinted(b, limitsB, utf8)
    ensures Stream(a) == Stream(b) <==> SameTarget(a, b)
  {
    ReadTarget(a, limitsA, utf8);
    ReadTarget(b, limitsB, utf8);
    if a.Directory? && b.Directory? {
      SameFilesSameList(a, b);
    }
  }

  lemma SameFilesSameList(a: Node, b: Node)
    requires a.Directory? && b.Directory? && WellFormed(a) && WellFormed(b)
    ensures HashedFiles(a) == HashedFiles(b) <==> SameFiles(a, b)
  {
    HashedFilesProperties(a);
    HashedFilesProperties(b);
    if SameFiles(a, b) {
      StrictlySortedUnique(HashedFiles(a), HashedFiles(b), RelativeKey);
    }
  }
}
