/** `install_bundle`: verify into a private folder, link, re-check, and roll back on any failure. */
module BundleInstall {
  import opened BundleReads
  import opened Bytes
  import opened FileSystem
  import opened Streams
  import opened Wrappers

  datatype InstallError =
    | InvalidOutput | OutputExists | Filesystem | PolicyRejected | NoTemporaryName
    | PayloadRejected | InstalledStateDiffers | FinalSyncFailed

  /** What is being installed: the bundle's bytes, its manifest with the manifest's own hash and profile, the
      policy with its pin, and what the libraries make of bytes. */
  datatype Package = Package(
    bundle: Buffer, manifest: Manifest, manifestSha: Digest, profile: string, manifestValid: bool,
    policy: Policy, requiredProfile: Option<string>, pin: Option<Digest>, allowUnverified: bool,
    decode: seq<byte> -> Frame, header: seq<byte> -> Option<nat>, describes: seq<byte> -> bool,
    sha: seq<byte> -> Digest)
  {
    /** `validate_policy` and the test after it, apart from the sizes. */
    predicate Authentic() {
      && manifestValid
      && (requiredProfile.Some? ==> requiredProfile.value == profile)
      && (match pin case Some(expected) => expected == manifestSha case None => allowUnverified)
    }

    /** The bundle is exactly what its manifest says. */
    ghost predicate Sound() {
      Acceptable(bundle, manifest, policy, decode, header, describes, sha)
    }

    function Payload(): Contents {
      decode(bundle).content
    }
  }

  /** Hidden, labelled and stamped with process and clock; longer than the output or any sidecar. */
  function TemporaryName(name: Name, stamp: seq<byte>, attempt: nat): (r: Name)
    ensures |r| > |name| + 8
  {
    Ascii(".") + name + Ascii(".install-") + stamp + Ascii("-") + Decimal(attempt)
  }

  /** What an installation may leave behind besides its temporary folder. */
  predicate Installed(output: Path, p: Path)
    requires output != []
  {
    p == output || p in Sidecars(output)
  }

  ghost predicate OnlyNew(before: Fs, after: Fs, output: Path, temporary: Path, installed: bool, scratch: bool)
    requires output != []
  {
    forall p :: p in after.entries && p !in before.entries ==>
      || (p <= Parent(output) && after.entries[p] == Folder)
      || (installed && Installed(output, p))
      || (scratch && Under(temporary, p))
  }

  lemma AncestorExists(fs: Fs, dir: Path, p: Path)
    requires fs.Valid() && dir != [] && p in fs.entries && Under(dir, p)
    ensures dir in fs.entries
  {
    if |dir| < |p| {
      assert p[..|dir|] == dir;
    } else {
      assert p == dir;
    }
  }

  /** A folder that did not exist before had nothing below it. */
  lemma NothingBelow(before: Fs, dir: Path)
    requires before.Valid() && dir != [] && dir !in before.entries
    ensures forall p :: p in before.entries ==> !Under(dir, p)
  {
    forall p | p in before.entries
      ensures !Under(dir, p)
    {
      if Under(dir, p) {
        AncestorExists(before, dir, p);
      }
    }
  }

  /** Where the installation stands: old files intact, new ones only where they may be. */
  ghost predicate Stage(before: Fs, now: Fs, output: Path, temporary: Path, installed: bool, scratch: bool)
    requires output != []
  {
    now.Valid() && Preserves(before, now) && OnlyNew(before, now, output, temporary, installed, scratch)
  }

  lemma StageGrows(before: Fs, a: Fs, b: Fs, output: Path, temporary: Path,
                   installed: bool, scratch: bool, installed': bool, scratch': bool)
    requires output != [] && before.Valid() && Stage(before, a, output, temporary, installed, scratch)
    requires b.Valid() && Preserves(a, b) && (installed ==> installed') && (scratch ==> scratch')
    requires forall p :: p in b.entries && p !in a.entries ==>
               (installed' && Installed(output, p)) || (scratch' && Under(temporary, p))
    ensures Stage(before, b, output, temporary, installed', scratch')
  {
    PreservesTransitive(before, a, b);
  }

  lemma StageShrinks(before: Fs, a: Fs, b: Fs, output: Path, temporary: Path,
                     installed: bool, scratch: bool, installed': bool, scratch': bool)
    requires output != [] && Stage(before, a, output, temporary, installed, scratch)
    requires b.Valid() && b.inodes == a.inodes
    requires forall p :: p in b.entries ==> p in a.entries && b.entries[p] == a.entries[p]
    requires forall p :: p in before.entries ==> p in b.entries
    requires installed && !installed' ==> forall p :: p in b.entries ==> !Installed(output, p)
    requires scratch && !scratch' ==> forall p :: p in b.entries ==> !Under(temporary, p)
    ensures Stage(before, b, output, temporary, installed', scratch')
  {
  }

  /** The folder guard: removes its folder once, on clean-up or when dropped. */
  class TemporaryDirectory {
    const path: Path
    var active: bool

    constructor (path: Path)
      ensures this.path == path && active
    {
      this.path, active := path, true;
    }

    method Cleanup(machine: Machine)
      requires path != [] && machine.fs.Valid()
      modifies this, machine`fs
      ensures machine.fs.Valid() && !active && machine.fs.inodes == old(machine.fs).inodes
      ensures !old(active) ==> machine.fs == old(machine.fs)
      ensures forall p :: p in old(machine.fs).entries && !Under(path, p) ==> p in machine.fs.entries
      ensures forall p :: p in machine.fs.entries ==>
                p in old(machine.fs).entries && machine.fs.entries[p] == old(machine.fs).entries[p]
      ensures old(active) && machine.removalsWork ==> forall p :: p in machine.fs.entries ==> !Under(path, p)
    {
      if !active {
        return;
      }
      machine.RemoveFolderAll(path);
      active := false;
    }
  }

  /** Neither the output nor any SQLite sidecar of it exists. */
  ghost predicate OutputFree(fs: Fs, output: Path) {
    output != [] && output !in fs.entries && forall p :: p in Sidecars(output) ==> p !in fs.entries
  }

  method EnsureNewCatalogOutput(machine: Machine, output: Path) returns (r: Result<(), InstallError>)
    ensures r.Ok? ==> OutputFree(machine.fs, output)
    ensures r.Ok? ==> output != [] && output !in machine.fs.entries && NoSidecar(machine.fs, output)
    ensures r.Err? ==> r.error in {InvalidOutput, OutputExists, Filesystem}
    ensures machine.reliable ==> (r.Ok? <==> OutputFree(machine.fs, output))
  {
    if output == [] {
      return Err(InvalidOutput);
    }
    NoSidecarMeaning(machine.fs, output);
    var found := machine.Metadata(output);
    if found.Err? {
      return Err(Filesystem);
    }
    if found.value {
      return Err(OutputExists);
    }
    var sidecars := Sidecars(output);
    for i := 0 to |sidecars|
      invariant forall j :: 0 <= j < i ==> sidecars[j] !in machine.fs.entries
    {
      var present := machine.Metadata(sidecars[i]);
      if present.Err? {
        return Err(Filesystem);
      }
      if present.value {
        return Err(OutputExists);
      }
    }
    return Ok(());
  }

  function TemporaryPath(output: Path, stamp: seq<byte>, attempt: nat): Path
    requires output != []
  {
    Parent(output) + [TemporaryName(output[|output| - 1], stamp, attempt)]
  }

  lemma TemporaryShape(output: Path, stamp: seq<byte>, attempt: nat)
    requires output != []
    ensures var dir := TemporaryPath(output, stamp, attempt);
            dir != [] && |dir| == |output| && Parent(dir) == Parent(output)
            && |dir[|output| - 1]| > |output[|output| - 1]| + 8
  {
  }

  /** One of the hundred names tried is free. */
  ghost predicate NameFree(fs: Fs, output: Path, stamp: seq<byte>)
    requires output != []
  {
    exists k: nat :: k < 100 && TemporaryPath(output, stamp, k) !in fs.entries
  }

  method CreateTemporaryDirectory(machine: Machine, output: Path, stamp: seq<byte>)
    returns (r: Result<TemporaryDirectory, InstallError>)
    requires output != [] && machine.fs.Valid()
    modifies machine`fs
    ensures machine.fs.Valid() && Preserves(old(machine.fs), machine.fs)
    ensures r.Ok? ==>
              && fresh(r.value) && r.value.active && r.value.path != []
              && Parent(r.value.path) == Parent(output) && |r.value.path[|output| - 1]| > |output[|output| - 1]| + 8
              && r.value.path !in old(machine.fs).entries
              && machine.fs == old(machine.fs).(entries := old(machine.fs).entries[r.value.path := Folder])
    ensures r.Err? ==> machine.fs == old(machine.fs) && r.error in {NoTemporaryName, Filesystem}
    ensures machine.reliable && FolderOrRoot(old(machine.fs), Parent(output)) ==>
              (r.Ok? <==> NameFree(old(machine.fs), output, stamp))
  {
    for attempt := 0 to 100
      invariant machine.fs == old(machine.fs)
      invariant forall k :: 0 <= k < attempt ==> machine.reliable && FolderOrRoot(machine.fs, Parent(output)) ==>
                  TemporaryPath(output, stamp, k) in machine.fs.entries
    {
      var dir := TemporaryPath(output, stamp, attempt);
      TemporaryShape(output, stamp, attempt);
      var created := machine.CreateFolder(dir);
      if created.Err? {
        return Err(Filesystem);
      }
      if created.value {
        var guard := new TemporaryDirectory(dir);
        return Ok(guard);
      }
    }
    return Err(NoTemporaryName);
  }

  /** SQLite may leave bookkeeping files beside a database that it opens. */
  method OpenDatabase(machine: Machine, path: Path) returns (ok: bool)
    requires machine.fs.Valid() && path != [] && path in machine.fs.entries
    modifies machine`fs
    ensures machine.fs.Valid() && Preserves(old(machine.fs), machine.fs)
    ensures forall p :: p in machine.fs.entries && p !in old(machine.fs).entries ==>
              p in Sidecars(path) && machine.fs.entries[p].Regular?
    ensures machine.reliable ==> ok
  {
    var sidecars := Sidecars(path);
    for i := 0 to |sidecars|
      invariant machine.fs.Valid() && Preserves(old(machine.fs), machine.fs)
      invariant forall p :: p in machine.fs.entries && p !in old(machine.fs).entries ==>
                  p in sidecars && machine.fs.entries[p].Regular?
    {
      var leaves: bool := *;
      ghost var before := machine.fs;
      if leaves && sidecars[i] !in machine.fs.entries {
        ParentIsFolder(machine.fs, path);
        var written := machine.WriteNew(sidecars[i], []);
        PreservesTransitive(old(machine.fs), before, machine.fs);
      }
    }
    var fails := machine.Fails();
    ok := !fails;
  }

  lemma ParentIsFolder(fs: Fs, path: Path)
    requires fs.Valid() && path != [] && path in fs.entries
    ensures FolderOrRoot(fs, Parent(path))
  {
    assert |path| > 1 ==> path[..|path| - 1] in fs.entries;
  }

  /** Decompression and verification into the temporary folder: success means the payload of a sound bundle. */
  method DecompressAndVerify(machine: Machine, temporary: Path, package: Package) returns (ok: bool)
    requires machine.fs.Valid() && temporary != [] && temporary !in machine.fs.entries
    requires FolderOrRoot(machine.fs, Parent(temporary))
    modifies machine
    ensures machine.fs.Valid() && Preserves(old(machine.fs), machine.fs)
    ensures forall p :: p in machine.fs.entries && p !in old(machine.fs).entries ==> Under(Parent(temporary), p)
    ensures ok ==> package.Sound() && machine.fs.Holds(temporary, package.Payload())
    ensures ok ==> machine.log == old(machine.log) + [SyncedAt(temporary)]
    ensures machine.reliable && package.Sound() ==> ok
  {
    var bundle := new Reader(package.bundle, machine.reliable);
    var output := new Output(machine.reliable);
    var verdict := DecompressOpened(bundle, output, package.manifest, package.policy, package.decode, package.header,
                                    package.describes, package.sha);
    // Whatever was decoded before a refusal is on disk too.
    ok := machine.WriteNew(temporary, output.written);
    ghost var written := machine.fs;
    ok := ok && verdict.Ok?;
    if ok {
      ok := machine.Sync(temporary);
      if ok {
        ok := OpenDatabase(machine, temporary);
        PreservesTransitive(old(machine.fs), written, machine.fs);
      }
    }
  }

  /** `describe_database` at the output: its hash, its length and its description once more. */
  method Describe(machine: Machine, output: Path, package: Package) returns (ok: bool)
    requires machine.fs.Valid() && output != [] && package.Sound() && machine.fs.Holds(output, package.Payload())
    modifies machine
    ensures machine.fs.Valid() && Preserves(old(machine.fs), machine.fs)
    ensures forall p :: p in machine.fs.entries && p !in old(machine.fs).entries ==>
              p in Sidecars(output) && machine.fs.entries[p].Regular?
    ensures ok ==> machine.log == old(machine.log) + [OpenedAt(output)]
    ensures machine.reliable ==> ok
  {
    var opened_ := machine.Open(output);
    var contents := opened_.value;
    var file := new Reader(contents, machine.reliable);
    var hashed, _ := HashOpenFileBounded(file, MAX_DATABASE_BYTES, package.sha);
    if hashed != Ok((package.manifest.databaseSha, package.manifest.databaseBytes as nat)) {
      return false;
    }
    ok := OpenDatabase(machine, output);
    ok := ok && package.describes(contents);
  }

  /** Links the verified file to its final name; undone unless the link was made durable. */
  method PublishNew(machine: Machine, temporary: Path, output: Path, payload: Contents) returns (ok: bool)
    requires machine.fs.Valid() && machine.fs.Holds(temporary, payload) && output != []
    modifies machine
    ensures machine.fs.Valid()
    ensures ok ==> output !in old(machine.fs).entries && machine.fs.Holds(output, payload)
                   && machine.fs == old(machine.fs).Link(temporary, output)
    ensures ok ==> machine.log == old(machine.log) + [LinkedAt(output), SyncedAt(output), SyncedAt(Parent(output))]
    ensures machine.reliable && FolderOrRoot(old(machine.fs), Parent(output)) ==>
              (ok <==> output !in old(machine.fs).entries)
    ensures !ok ==> machine.fs == old(machine.fs)
                    || (!machine.removalsWork && output !in old(machine.fs).entries
                        && machine.fs == old(machine.fs).Link(temporary, output))
  {
    ok := machine.HardLink(temporary, output);
    if !ok {
      return;
    }
    ok := machine.Sync(output);
    if ok {
      ok := machine.Sync(Parent(output));
    }
    if !ok {
      machine.RemoveFile(output);
      assert machine.fs == old(machine.fs).Link(temporary, output)
             || machine.fs.entries == old(machine.fs).entries;
    }
  }

  method RemoveCatalogOutputSet(machine: Machine, output: Path)
    requires machine.fs.Valid() && output != []
    requires forall p :: p in machine.fs.entries && Installed(output, p) ==> !machine.fs.entries[p].Folder?
    modifies machine`fs
    ensures machine.fs.Valid() && machine.fs.inodes == old(machine.fs).inodes
    ensures forall p :: p in old(machine.fs).entries && !Installed(output, p) ==> p in machine.fs.entries
    ensures forall p :: p in machine.fs.entries ==>
              p in old(machine.fs).entries && machine.fs.entries[p] == old(machine.fs).entries[p]
    ensures machine.removalsWork ==> forall p :: p in machine.fs.entries ==> !Installed(output, p)
  {
    machine.RemoveFile(output);
    var sidecars := Sidecars(output);
    for i := 0 to |sidecars|
      invariant machine.fs.Valid() && machine.fs.inodes == old(machine.fs).inodes
      invariant forall p :: p in old(machine.fs).entries && !Installed(output, p) ==> p in machine.fs.entries
      invariant forall p :: p in machine.fs.entries ==>
                  p in old(machine.fs).entries && machine.fs.entries[p] == old(machine.fs).entries[p]
      invariant machine.removalsWork ==>
                  output !in machine.fs.entries && forall j :: 0 <= j < i ==> sidecars[j] !in machine.fs.entries
    {
      machine.RemoveFile(sidecars[i]);
    }
  }

  /** What every exit of the installer guarantees about the whole file system. */
  ghost predicate InstallPost(before: Fs, after: Fs, removalsWork: bool, output: Path, payload: Contents,
                              r: Result<(), InstallError>)
  {
    // No existing file is changed or removed, whatever fails.
    && Preserves(before, after)
    // Success, and a failure of the very last sync, mean a new output with exactly the payload's bytes.
    && (r.Ok? || r.error.FinalSyncFailed? ==> output != [] && output !in before.entries && after.Holds(output, payload))
    // With working removals nothing temporary survives, and any other failure leaves no output.
    && (removalsWork && output != [] ==>
          forall p :: p in after.entries && p !in before.entries ==>
            || (p <= Parent(output) && after.entries[p] == Folder)
            || (Installed(output, p) && (r.Ok? || r.error.FinalSyncFailed?)))
  }

  /** The link, its two syncs, and the second look at it. */
  function LinkedDurably(output: Path): seq<Event>
    requires output != []
  {
    [LinkedAt(output), SyncedAt(output), SyncedAt(Parent(output)), OpenedAt(output)]
  }

  /** What a successful installation from a private folder did. */
  ghost predicate DurableBy(before: seq<Event>, after: seq<Event>, folder: Path, output: Path)
    requires output != []
  {
    exists temporary ::
      && temporary != [] && Parent(temporary) == folder
      && after == before + [SyncedAt(temporary)] + LinkedDurably(output) + [SyncedAt(Parent(output))]
  }

  lemma InstalledDurably(before: seq<Event>, verified: seq<Event>, linked: seq<Event>, after: seq<Event>,
                         temporary: Path, output: Path)
    requires temporary != [] && output != [] && verified == before + [SyncedAt(temporary)]
    requires linked == verified + LinkedDurably(output) && after == linked + [SyncedAt(Parent(output))]
    ensures DurableBy(before, after, Parent(temporary), output)
  {
  }

  ghost predicate DurableBeside(before: seq<Event>, after: seq<Event>, output: Path)
    requires output != []
  {
    exists folder :: folder != [] && Parent(folder) == Parent(output) && DurableBy(before, after, folder, output)
  }

  /** Synced before the link, synced with its folder after it, read once more, and the folder synced again. */
  ghost predicate Durable(before: seq<Event>, after: seq<Event>, output: Path)
    requires output != []
  {
    exists temporary ::
      && |temporary| > 1 && Parent(Parent(temporary)) == Parent(output)
      && after == before + [SyncedAt(temporary), LinkedAt(output), SyncedAt(output), SyncedAt(Parent(output)),
                            OpenedAt(output), SyncedAt(Parent(output))]
  }

  lemma DurableMeaning(before: seq<Event>, after: seq<Event>, output: Path)
    requires output != [] && DurableBeside(before, after, output)
    ensures Durable(before, after, output)
  {
    var folder :| folder != [] && Parent(folder) == Parent(output) && DurableBy(before, after, folder, output);
    var temporary :| temporary != [] && Parent(temporary) == folder
      && after == before + [SyncedAt(temporary)] + LinkedDurably(output) + [SyncedAt(Parent(output))];
    assert after == before + [SyncedAt(temporary), LinkedAt(output), SyncedAt(output), SyncedAt(Parent(output)),
                              OpenedAt(output), SyncedAt(Parent(output))];
  }

  /** From the verified payload to the re-checked output, undoing the output set on failure. */
  method LinkAndRecheck(machine: Machine, temporary: Path, output: Path, package: Package,
                        ghost before: Fs, ghost scratch: Path)
    returns (r: Result<(), InstallError>)
    requires output != [] && before.Valid() && package.Sound() && machine.fs.Holds(temporary, package.Payload())
    requires Stage(before, machine.fs, output, scratch, false, true)
    requires OutputFree(machine.fs, output)
    modifies machine
    ensures machine.reliable && FolderOrRoot(old(machine.fs), Parent(output)) ==> r.Ok?
    ensures Stage(before, machine.fs, output, scratch, r.Ok? || !machine.removalsWork, true)
    ensures r.Ok? ==> machine.log == old(machine.log) + LinkedDurably(output)
    ensures r.Ok? ==> machine.fs.Holds(output, package.Payload())
    ensures r.Err? ==> !r.error.FinalSyncFailed?
  {
    ghost var start := machine.fs;
    var published := PublishNew(machine, temporary, output, package.Payload());
    ghost var linked := machine.fs;
    StageGrows(before, start, linked, output, scratch, false, true, linked != start, true);
    if !published {
      return Err(Filesystem);
    }
    var described := Describe(machine, output, package);
    ghost var reopened := machine.fs;
    StageGrows(before, linked, reopened, output, scratch, true, true, true, true);
    if described {
      return Ok(());
    }
    NotFolders(start, linked, reopened, temporary, output);
    RemoveCatalogOutputSet(machine, output);
    NotInstalledBefore(before, start, output);
    StageShrinks(before, reopened, machine.fs, output, scratch, true, true, !machine.removalsWork, true);
    return Err(InstalledStateDiffers);
  }

  /** Removes the temporary folder and makes the output's folder durable. */
  method FinishInstall(machine: Machine, guard: TemporaryDirectory, output: Path, payload: Contents, ghost before: Fs)
    returns (ok: bool)
    requires output != [] && guard.path != [] && guard.active && before.Valid() && guard.path !in before.entries
    requires machine.fs.Holds(output, payload) && !Under(guard.path, output)
    requires Stage(before, machine.fs, output, guard.path, true, true)
    modifies machine, guard
    ensures !guard.active && machine.fs.Holds(output, payload)
    ensures Stage(before, machine.fs, output, guard.path, true, !machine.removalsWork)
    ensures ok ==> machine.log == old(machine.log) + [SyncedAt(Parent(output))]
    ensures machine.reliable ==> ok
  {
    ghost var linked := machine.fs;
    NothingBelow(before, guard.path);
    guard.Cleanup(machine);
    StageShrinks(before, linked, machine.fs, output, guard.path, true, true, true, !machine.removalsWork);
    ok := machine.Sync(Parent(output));
  }

  /** After the guard exists: every path out of the installation, the guard dropped by the caller. */
  method InstallInto(machine: Machine, guard: TemporaryDirectory, output: Path, package: Package,
                     ghost before: Fs)
    returns (r: Result<(), InstallError>)
    requires output != [] && guard.path != [] && guard.active && before.Valid()
    requires guard.path in machine.fs.entries && machine.fs.entries[guard.path].Folder?
    requires guard.path !in before.entries
    requires forall p :: p in machine.fs.entries && Under(guard.path, p) ==> p == guard.path
    requires forall p :: Installed(output, p) ==> !Under(guard.path, p)
    requires Stage(before, machine.fs, output, guard.path, false, true)
    modifies machine, guard
    ensures r.Ok? || r.error.FinalSyncFailed? ==> package.Sound()
    ensures r.Ok? ==> DurableBy(old(machine.log), machine.log, guard.path, output)
    ensures machine.reliable && FolderOrRoot(old(machine.fs), Parent(output)) ==>
              (r.Ok? <==> package.Sound() && OutputFree(old(machine.fs), output))
    ensures Stage(before, machine.fs, output, guard.path,
                  r.Ok? || r.error.FinalSyncFailed? || !machine.removalsWork, guard.active || !machine.removalsWork)
    ensures r.Ok? || r.error.FinalSyncFailed? ==>
              !guard.active && output !in before.entries && machine.fs.Holds(output, package.Payload())
  {
    var temporary := guard.path + [Ascii("catalog.sqlite3")];
    assert Parent(temporary) == guard.path;
    ghost var start, logged := machine.fs, machine.log;
    var verified := DecompressAndVerify(machine, temporary, package);
    StageGrows(before, start, machine.fs, output, guard.path, false, true, false, true);
    if !verified {
      return Err(PayloadRejected);
    }
    var ensured := EnsureNewCatalogOutput(machine, output);
    if ensured.Err? {
      return Err(OutputExists);
    }
    ghost var verifiedLog := machine.log;
    r := LinkAndRecheck(machine, temporary, output, package, before, guard.path);
    if r.Err? {
      return;
    }
    ghost var linkedLog := machine.log;
    var synced := FinishInstall(machine, guard, output, package.Payload(), before);
    if !synced {
      return Err(FinalSyncFailed);
    }
    InstalledDurably(logged, verifiedLog, linkedLog, machine.log, temporary, output);
  }

  lemma NotFolders(start: Fs, linked: Fs, reopened: Fs, temporary: Path, output: Path)
    requires output != [] && temporary in start.entries && start.entries[temporary].Regular?
    requires linked == start.(entries := start.entries[output := start.entries[temporary]])
    requires Preserves(linked, reopened)
    requires forall p :: p in reopened.entries && p !in linked.entries ==> reopened.entries[p].Regular?
    requires output !in start.entries && forall p :: p in Sidecars(output) ==> p !in start.entries
    ensures forall p :: p in reopened.entries && Installed(output, p) ==> !reopened.entries[p].Folder?
  {
  }

  lemma NotInstalledBefore(before: Fs, now: Fs, output: Path)
    requires output != [] && Preserves(before, now)
    requires output !in now.entries && forall p :: p in Sidecars(output) ==> p !in now.entries
    ensures forall p :: p in before.entries ==> !Installed(output, p)
  {
  }

  lemma OutputNotScratch(output: Path, scratch: Path)
    requires output != [] && |scratch| == |output|
    requires |scratch[|output| - 1]| > |output[|output| - 1]| + 8
    ensures forall p :: Installed(output, p) ==> !Under(scratch, p)
  {
    forall p | Installed(output, p)
      ensures !Under(scratch, p)
    {
      assert |p| == |scratch| && |p[|p| - 1]| < |scratch[|p| - 1]|;
    }
  }

  method InstallGuarded(machine: Machine, output: Path, package: Package, stamp: seq<byte>)
    returns (r: Result<(), InstallError>)
    requires machine.fs.Valid()
    modifies machine
    ensures machine.reliable ==>
              (r.Ok? <==> package.Authentic() && package.Sound() && OutputFree(old(machine.fs), output)
                          && PathFree(old(machine.fs), Parent(output)) && NameFree(old(machine.fs), output, stamp))
    ensures r.Ok? ==> output != [] && DurableBeside(old(machine.log), machine.log, output)
    ensures r.Ok? || r.error.FinalSyncFailed? ==>
              package.Authentic() && package.Sound() && OutputFree(old(machine.fs), output)
    ensures machine.fs.Valid()
    ensures InstallPost(old(machine.fs), machine.fs, machine.removalsWork, output, package.Payload(), r)
  {
    ghost var before := machine.fs;
    var ensured := EnsureNewCatalogOutput(machine, output);
    if ensured.Err? {
      return ensured;
    }
    var created := machine.CreateFolders(Parent(output));
    if !created {
      return Err(Filesystem);
    }
    if !package.Authentic() || !PolicyAccepts(package.manifest, package.policy) {
      return Err(InstallError.PolicyRejected);
    }
    ghost var prepared := machine.fs;
    var directory := CreateTemporaryDirectory(machine, output, stamp);
    if directory.Err? {
      return Err(directory.error);
    }
    var guard := directory.value;
    NothingBelow(prepared, guard.path);
    NothingBelow(before, guard.path);
    OutputNotScratch(output, guard.path);
    StageGrows(before, prepared, machine.fs, output, guard.path, false, false, false, true);
    r := InstallInto(machine, guard, output, package, before);
    ghost var done, scratch := machine.fs, guard.active || !machine.removalsWork;
    ghost var kept := r.Ok? || r.error.FinalSyncFailed? || !machine.removalsWork;
    guard.Cleanup(machine);
    StageShrinks(before, done, machine.fs, output, guard.path, kept, scratch, kept, !machine.removalsWork);
  }

  /** The whole installation. Refused inputs, I/O failures and a rejected payload all end in `InstallPost`. */
  method InstallBundle(machine: Machine, output: Path, package: Package, stamp: seq<byte>)
    returns (r: Result<(), InstallError>)
    requires machine.fs.Valid()
    modifies machine
    ensures r.Ok? ==> package.Authentic() && package.Sound() && OutputFree(old(machine.fs), output)
    ensures machine.reliable ==>
              (r.Ok? <==> package.Authentic() && package.Sound() && OutputFree(old(machine.fs), output)
                          && PathFree(old(machine.fs), Parent(output)) && NameFree(old(machine.fs), output, stamp))
    ensures machine.fs.Valid()
    ensures InstallPost(old(machine.fs), machine.fs, machine.removalsWork, output, package.Payload(), r)
    // What is installed is what the manifest names, and within the policy;
    ensures r.Ok? || r.error.FinalSyncFailed? ==>
              && output != [] && output !in old(machine.fs).entries && NoSidecar(old(machine.fs), output)
              && 0 < package.policy.maxCompressedBytes <= 8589934592
              && 0 < package.policy.maxDatabaseBytes <= 17179869184
              && |package.bundle| <= package.policy.maxCompressedBytes
              && package.manifestValid
              && (package.requiredProfile.None? || package.requiredProfile == Some(package.profile))
              && (package.pin == Some(package.manifestSha) || (package.pin.None? && package.allowUnverified))
              && exists content :: machine.fs.Holds(output, content)
                   && |content| <= package.policy.maxDatabaseBytes
                   && AsManifest(package.bundle, content, package.decode(package.bundle), package.manifest, package.sha)
    // its file was synced before the link, the link and its folder after it, then it was read once more;
    ensures r.Ok? ==> Durable(old(machine.log), machine.log, output)
    // a bundle outside the policy, under a wrong pin, or unpinned without leave, is refused.
    ensures (!WithinPolicy(package.bundle, package.manifest, package.policy)
             || |package.decode(package.bundle).content| > package.policy.maxDatabaseBytes
             || (package.pin.Some? && package.pin.value != package.manifestSha)
             || (package.pin.None? && !package.allowUnverified)) ==>
              r.Err? && !r.error.FinalSyncFailed?
  {
    ghost var before := machine.fs;
    AcceptableMeaning(package.bundle, package.manifest, package.policy, package.decode, package.header,
                      package.describes, package.sha);
    if output != [] {
      NoSidecarMeaning(before, output);
    }
    r := InstallGuarded(machine, output, package, stamp);
    if r.Ok? {
      DurableMeaning(old(machine.log), machine.log, output);
    }
  }
}
