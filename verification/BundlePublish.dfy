/** Journalled publication: link, sync, clean up, verify. It may stop between any two steps, by a
    crash or by an error, and must never roll back; recovery decides from what is on disk. */
module BundlePublish {
  import opened BundleInstall
  import opened BundleReads
  import opened Bytes
  import opened FileSystem
  import opened Streams
  import opened Wrappers

  datatype Descriptor = Descriptor(databaseSha: Digest, databaseBytes: u64)

  /** The verified private file, its guard folder, and the descriptor retained across the journal entry. */
  datatype Prepared = Prepared(path: Path, folder: Path, output: Path, payload: Contents, descriptor: Descriptor)

  ghost predicate Describes(d: Descriptor, payload: Contents, sha: seq<byte> -> Digest) {
    d.databaseSha == sha(payload) && d.databaseBytes == |payload|
  }

  // ---------------------------------------------------------------- checking an installed file

  /** `verify_installed_descriptor`: no sidecar, a regular file, and bounded hashing agrees. */
  predicate VerifyInstalled(fs: Fs, output: Path, d: Descriptor, sha: seq<byte> -> Digest)
    requires output != []
  {
    && (forall p :: p in Sidecars(output) ==> p !in fs.entries)
    && ContentsAt(fs, output).Some?
    && HashBounded(ContentsAt(fs, output).value, d.databaseBytes, sha) == Ok((d.databaseSha, d.databaseBytes as nat))
  }

  /** Spelled out: a regular file with the descriptor's hash and length, and no sidecar beside it. */
  ghost predicate Intact(fs: Fs, output: Path, d: Descriptor, sha: seq<byte> -> Digest)
    requires output != []
  {
    && NoSidecar(fs, output)
    && output in fs.entries && fs.entries[output].Regular? && fs.entries[output].inode in fs.inodes
    && var bytes := fs.inodes[fs.entries[output].inode];
       sha(bytes) == d.databaseSha && |bytes| == d.databaseBytes
  }

  lemma IntactMeaning(fs: Fs, output: Path, d: Descriptor, sha: seq<byte> -> Digest)
    requires output != []
    ensures VerifyInstalled(fs, output, d, sha) <==> Intact(fs, output, d, sha)
  {
    NoSidecarMeaning(fs, output);
  }

  /** File lengths are 64-bit. */
  ghost predicate Sized(fs: Fs) {
    forall i :: i in fs.inodes ==> |fs.inodes[i]| <= U64_MAX
  }

  method VerifyInstalledDescriptor(machine: Machine, output: Path, d: Descriptor, sha: seq<byte> -> Digest)
    returns (ok: bool)
    requires output != [] && Sized(machine.fs)
    modifies machine`log
    ensures ok ==> machine.log == old(machine.log) + [OpenedAt(output)]
    ensures old(machine.log) <= machine.log <= old(machine.log) + [OpenedAt(output)]
    ensures ok ==> VerifyInstalled(machine.fs, output, d, sha)
    ensures machine.reliable ==> (ok <==> VerifyInstalled(machine.fs, output, d, sha))
    ensures ok ==> Intact(machine.fs, output, d, sha)
    ensures machine.reliable ==> (ok <==> Intact(machine.fs, output, d, sha))
  {
    IntactMeaning(machine.fs, output, d, sha);
    var sidecars := Sidecars(output);
    for i := 0 to |sidecars|
      invariant machine.log == old(machine.log)
      invariant forall p :: p in sidecars[..i] ==> p !in machine.fs.entries
    {
      var found := machine.Metadata(sidecars[i]);
      if found.Err? || found.value {
        return false;
      }
    }
    var contents := machine.Open(output);
    if contents.None? {
      return false;
    }
    var file := new Reader(contents.value, machine.reliable);
    var hashed, _ := HashOpenFileBounded(file, d.databaseBytes, sha);
    ok := hashed == Ok((d.databaseSha, d.databaseBytes as nat));
  }

  datatype Recovery = NothingInstalled | Completed | Refused

  /** Recovery of a pending journal entry. */
  function Recover(fs: Fs, output: Path, d: Descriptor, sha: seq<byte> -> Digest): Recovery
    requires output != []
  {
    if output !in fs.entries then NothingInstalled
    else if VerifyInstalled(fs, output, d, sha) then Completed
    else Refused
  }

  // ---------------------------------------------------------------- the protocol

  datatype Pc = Check | Link | SyncFile | SyncParent | Cleanup | Verify | FinalSync | Succeeded | Failed

  /** `live` is what a process sees; `durable` is what is known to survive a power loss. */
  datatype State = State(pc: Pc, live: Fs, durable: Fs)

  function Linked(fs: Fs, job: Prepared): Fs
    requires job.path in fs.entries
  {
    fs.Link(job.path, job.output)
  }

  /** Dropping the guard: the private folder goes, or part of it when the removal fails half-way. */
  ghost predicate Dropped(before: Fs, after: Fs, folder: Path) {
    && after.inodes == before.inodes
    && (forall p :: p in before.entries && !Under(folder, p) ==> p in after.entries)
    && (forall p :: p in after.entries ==> p in before.entries && after.entries[p] == before.entries[p])
  }

  ghost predicate Fails(s: State, t: State, job: Prepared) {
    t.pc == Failed && t.durable == s.durable && Dropped(s.live, t.live, job.folder)
  }

  ghost predicate Step(s: State, t: State, job: Prepared, sha: seq<byte> -> Digest)
    requires job.output != []
  {
    match s.pc
    case Check =>
      || Fails(s, t, job)
      || (OutputFree(s.live, job.output) && t == s.(pc := Link))
    case Link =>
      || Fails(s, t, job)
      || (job.path in s.live.entries && job.output !in s.live.entries
          && t == s.(pc := SyncFile, live := Linked(s.live, job)))
    case SyncFile =>
      Fails(s, t, job) || t == s.(pc := SyncParent)
    case SyncParent =>
      Fails(s, t, job) || t == s.(pc := Cleanup, durable := s.live)
    case Cleanup =>
      t.pc == Verify && t.durable == s.durable && Dropped(s.live, t.live, job.folder)
    case Verify =>
      if VerifyInstalled(s.live, job.output, job.descriptor, sha) then Fails(s, t, job) || t == s.(pc := FinalSync)
      else Fails(s, t, job)
    case FinalSync =>
      Fails(s, t, job) || t == s.(pc := Succeeded, durable := s.live)
    case Succeeded => false
    case Failed => false
  }

  ghost predicate Initial(s: State, job: Prepared, sha: seq<byte> -> Digest) {
    && s.pc == Check && job.output != [] && s.live.Valid() && s.live.Holds(job.path, job.payload)
    && job.folder != [] && Under(job.folder, job.path) && !Under(job.folder, job.output)
    && s.durable.inodes == s.live.inodes
    && (forall p :: p == job.output || p in Sidecars(job.output) ==>
          (p in s.durable.entries <==> p in s.live.entries)
          && (p in s.live.entries ==> s.durable.entries[p] == s.live.entries[p]))
    && Describes(job.descriptor, job.payload, sha)
  }

  ghost predicate IsRun(run: seq<State>, job: Prepared, sha: seq<byte> -> Digest) {
    && run != [] && Initial(run[0], job, sha)
    && forall i :: 0 <= i < |run| - 1 ==> Step(run[i], run[i + 1], job, sha)
  }

  /** The process stopping leaves `live`; a power loss leaves, name by name, the live or the durable entry. */
  ghost predicate Crashes(s: State, after: Fs) {
    && after.inodes == s.live.inodes
    && (forall p :: p in after.entries ==>
          || (p in s.live.entries && after.entries[p] == s.live.entries[p])
          || (p in s.durable.entries && after.entries[p] == s.durable.entries[p]))
    && (forall p :: p in s.live.entries && p in s.durable.entries ==> p in after.entries)
  }

  // ---------------------------------------------------------------- the invariant

  ghost predicate PastLink(pc: Pc) {
    pc in {SyncFile, SyncParent, Cleanup, Verify, FinalSync, Succeeded}
  }

  ghost predicate PastSync(pc: Pc) {
    pc in {Cleanup, Verify, FinalSync, Succeeded}
  }

  /** At `output`: as it was at the start, or a link to the payload where nothing was. */
  ghost predicate OutputAt(fs: Fs, start: Fs, job: Prepared) {
    if job.output in start.entries then
      job.output in fs.entries && fs.entries[job.output] == start.entries[job.output]
    else
      job.output in fs.entries ==> fs.Holds(job.output, job.payload)
  }

  ghost predicate Inv(s: State, start: Fs, job: Prepared)
    requires job.output != []
  {
    && s.live.inodes == start.inodes && s.durable.inodes == start.inodes
    && OutputAt(s.live, start, job) && OutputAt(s.durable, start, job)
    && (s.pc == Check ==> s.live == start)
    && (s.pc != Check && s.pc != Failed ==> OutputFree(start, job.output))
    && (s.pc in {Check, Link, SyncFile, SyncParent, Cleanup} ==> s.live.Holds(job.path, job.payload))
    && (s.pc == Check || s.pc == Link ==> (job.output in s.live.entries <==> job.output in start.entries))
    && (PastLink(s.pc) ==> job.output in s.live.entries)
    && (PastSync(s.pc) ==> job.output in s.durable.entries)
    && (job.output in s.durable.entries ==> job.output in s.live.entries)
    && (forall p :: p in Sidecars(job.output) ==>
          (p in s.live.entries || p in s.durable.entries ==> p in start.entries))
    && OthersKept(s.live, start, job)
  }

  /** Apart from the output and the private folder, everything is as it was. */
  ghost predicate OthersKept(fs: Fs, start: Fs, job: Prepared) {
    forall p :: p != job.output && !Under(job.folder, p) ==>
      (p in fs.entries <==> p in start.entries) && (p in fs.entries ==> fs.entries[p] == start.entries[p])
  }

  lemma FailureKeepsInv(s: State, t: State, start: Fs, job: Prepared)
    requires job.output != [] && !Under(job.folder, job.output)
    requires Inv(s, start, job) && Fails(s, t, job)
    ensures Inv(t, start, job)
  {
  }

  lemma LinkKeepsInv(s: State, t: State, start: Fs, job: Prepared)
    requires job.output != [] && Inv(s, start, job) && s.pc == Link
    requires job.path in s.live.entries && job.output !in s.live.entries
    requires t == s.(pc := SyncFile, live := Linked(s.live, job))
    ensures Inv(t, start, job)
  {
    assert job.path != job.output;
    assert forall p :: p in Sidecars(job.output) ==> p != job.output;
  }

  lemma StepKeepsInv(s: State, t: State, start: Fs, job: Prepared, sha: seq<byte> -> Digest)
    requires job.output != [] && !Under(job.folder, job.output)
    requires Inv(s, start, job) && Step(s, t, job, sha)
    ensures Inv(t, start, job)
  {
    if Fails(s, t, job) {
      FailureKeepsInv(s, t, start, job);
    } else if s.pc == Link {
      LinkKeepsInv(s, t, start, job);
    } else if s.pc == Cleanup {
      assert Dropped(s.live, t.live, job.folder);
    }
  }

  lemma {:induction false} RunKeepsInv(run: seq<State>, job: Prepared, sha: seq<byte> -> Digest, k: nat)
    requires IsRun(run, job, sha) && k < |run|
    ensures Inv(run[k], run[0].live, job)
  {
    if k > 0 {
      RunKeepsInv(run, job, sha, k - 1);
      assert Step(run[k - 1], run[k - 1 + 1], job, sha);
      StepKeepsInv(run[k - 1], run[k], run[0].live, job, sha);
    }
  }

  // ---------------------------------------------------------------- the code takes only these steps

  ghost predicate At(run: seq<State>, machine: Machine, pc: Pc, job: Prepared, sha: seq<byte> -> Digest)
    reads machine`fs
  {
    IsRun(run, job, sha) && run[|run| - 1].pc == pc && run[|run| - 1].live == machine.fs
  }

  /** The events done are the first of those given, and all of them on success. */
  ghost predicate DoneUpTo(before: seq<Event>, after: seq<Event>, events: seq<Event>, ok: bool) {
    before <= after <= before + events && (ok ==> after == before + events)
  }

  lemma DoneThen(before: seq<Event>, between: seq<Event>, after: seq<Event>, first: seq<Event>, second: seq<Event>,
                 ok: bool)
    requires DoneUpTo(before, between, first, true) && DoneUpTo(between, after, second, ok)
    ensures DoneUpTo(before, after, first + second, ok)
  {
    assert before + (first + second) == between + second;
  }

  lemma DoneNoMore(before: seq<Event>, after: seq<Event>, first: seq<Event>, second: seq<Event>)
    requires DoneUpTo(before, after, first, false)
    ensures DoneUpTo(before, after, first + second, false)
  {
    assert before + (first + second) == before + first + second;
  }

  lemma DoneInAll(before: seq<Event>, after: seq<Event>, output: Path, ok: bool)
    requires output != []
    requires DoneUpTo(before, after, [LinkedAt(output)] + ([SyncedAt(output), SyncedAt(Parent(output))]
                                                           + [OpenedAt(output), SyncedAt(Parent(output))]), ok)
    ensures DoneUpTo(before, after, [LinkedAt(output), SyncedAt(output), SyncedAt(Parent(output)),
                                     OpenedAt(output), SyncedAt(Parent(output))], ok)
  {
    assert [LinkedAt(output)] + ([SyncedAt(output), SyncedAt(Parent(output))]
                                 + [OpenedAt(output), SyncedAt(Parent(output))])
           == [LinkedAt(output), SyncedAt(output), SyncedAt(Parent(output)), OpenedAt(output),
               SyncedAt(Parent(output))];
  }

  /** Returning early drops the guard and nothing else: a published output stays. */
  method GiveUp(machine: Machine, guard: TemporaryDirectory, job: Prepared, sha: seq<byte> -> Digest,
                ghost run: seq<State>, ghost pc: Pc)
    returns (ghost longer: seq<State>)
    requires At(run, machine, pc, job, sha) && pc !in {Cleanup, Succeeded, Failed}
    requires guard.path == job.folder && machine.fs.Valid()
    modifies machine`fs, guard
    ensures At(longer, machine, Failed, job, sha) && run <= longer && !guard.active
    ensures machine.fs.Valid() && machine.fs.inodes == old(machine.fs).inodes
  {
    ghost var s := run[|run| - 1];
    guard.Cleanup(machine);
    assert Fails(s, State(Failed, machine.fs, s.durable), job);
    longer := Continue(run, State(Failed, machine.fs, s.durable), job, sha);
  }

  /** The output is free and its parent is there. */
  ghost predicate Linkable(fs: Fs, output: Path)
    requires output != []
  {
    OutputFree(fs, output) && FolderOrRoot(fs, Parent(output))
  }

  lemma Begin(fs: Fs, durable: Fs, job: Prepared, sha: seq<byte> -> Digest) returns (run: seq<State>)
    requires Initial(State(Check, fs, durable), job, sha)
    ensures IsRun(run, job, sha) && run == [State(Check, fs, durable)]
  {
    run := [State(Check, fs, durable)];
  }

  lemma CheckSteps(run: seq<State>, fs: Fs, durable: Fs, job: Prepared, sha: seq<byte> -> Digest)
    returns (longer: seq<State>)
    requires IsRun(run, job, sha) && run[|run| - 1] == State(Check, fs, durable) && OutputFree(fs, job.output)
    ensures IsRun(longer, job, sha) && longer == run + [State(Link, fs, durable)]
  {
    longer := Continue(run, State(Link, fs, durable), job, sha);
  }

  lemma LinkSteps(run: seq<State>, fs: Fs, durable: Fs, job: Prepared, sha: seq<byte> -> Digest)
    returns (longer: seq<State>)
    requires IsRun(run, job, sha) && run[|run| - 1] == State(Link, fs, durable)
    requires job.path in fs.entries && job.output !in fs.entries
    ensures IsRun(longer, job, sha) && longer == run + [State(SyncFile, Linked(fs, job), durable)]
  {
    longer := Continue(run, State(SyncFile, Linked(fs, job), durable), job, sha);
  }

  /** There is something to link. */
  lemma LinkSource(fs: Fs, durable: Fs, job: Prepared, sha: seq<byte> -> Digest)
    requires Initial(State(Check, fs, durable), job, sha)
    ensures fs.Valid() && job.path in fs.entries && fs.entries[job.path].Regular?
  {
  }

  /** The link itself, from a free output on. */
  method LinkOutput(machine: Machine, guard: TemporaryDirectory, job: Prepared, sha: seq<byte> -> Digest,
                    ghost soFar: seq<State>, ghost durable: Fs)
    returns (ok: bool, ghost run: seq<State>)
    requires IsRun(soFar, job, sha) && soFar[|soFar| - 1] == State(Link, machine.fs, durable)
    requires machine.fs.Valid() && job.path in machine.fs.entries && machine.fs.entries[job.path].Regular?
    requires job.output != [] && job.output !in machine.fs.entries && guard.path == job.folder && guard.active
    modifies machine, guard
    ensures DoneUpTo(old(machine.log), machine.log, [LinkedAt(job.output)], ok)
    ensures At(run, machine, if ok then SyncFile else Failed, job, sha) && soFar <= run && guard.active == ok
    ensures machine.fs.Valid() && machine.fs.inodes == old(machine.fs).inodes
    ensures machine.reliable && FolderOrRoot(old(machine.fs), Parent(job.output)) ==> ok
  {
    run := soFar;
    ghost var start := machine.fs;
    ok := machine.HardLink(job.path, job.output);
    if ok {
      run := LinkSteps(run, start, durable, job, sha);
    } else {
      run := GiveUp(machine, guard, job, sha, run, Link);
    }
  }

  /** Up to the link: the output must be free, and the link must go through. */
  method CheckAndLink(machine: Machine, guard: TemporaryDirectory, job: Prepared, sha: seq<byte> -> Digest,
                      ghost durable: Fs)
    returns (ok: bool, ghost run: seq<State>)
    requires Initial(State(Check, machine.fs, durable), job, sha) && guard.path == job.folder && guard.active
    modifies machine, guard
    ensures DoneUpTo(old(machine.log), machine.log, [LinkedAt(job.output)], ok)
    ensures At(run, machine, if ok then SyncFile else Failed, job, sha)
    ensures run[0] == State(Check, old(machine.fs), durable) && guard.active == ok
    ensures machine.fs.Valid() && machine.fs.inodes == old(machine.fs).inodes
    ensures machine.reliable && Linkable(old(machine.fs), job.output) ==> ok
  {
    run := Begin(machine.fs, durable, job, sha);
    LinkSource(machine.fs, durable, job, sha);
    var ensured := EnsureNewCatalogOutput(machine, job.output);
    if ensured.Err? {
      run := GiveUp(machine, guard, job, sha, run, Check);
      return false, run;
    }
    run := CheckSteps(run, machine.fs, durable, job, sha);
    ok, run := LinkOutput(machine, guard, job, sha, run, durable);
  }

  /** What an execution leaves: on success the payload at a name that was free, without sidecars; after a failure
      what stood at the output before, or the payload; and everything else as it was. */
  ghost predicate Published(start: Fs, fs: Fs, ok: bool, job: Prepared)
    requires job.output != []
  {
    && OthersKept(fs, start, job) && fs.inodes == start.inodes
    && (ok ==> job.output !in start.entries && NoSidecar(start, job.output) && fs.Holds(job.output, job.payload))
    && (job.output in start.entries ==>
          !ok && job.output in fs.entries && fs.entries[job.output] == start.entries[job.output])
    && (job.output !in start.entries && job.output in fs.entries ==> fs.Holds(job.output, job.payload))
  }

  lemma RunPublishes(run: seq<State>, job: Prepared, sha: seq<byte> -> Digest, ok: bool)
    requires IsRun(run, job, sha) && run[|run| - 1].pc == if ok then Succeeded else Failed
    ensures Published(run[0].live, run[|run| - 1].live, ok, job)
  {
    RunKeepsInv(run, job, sha, |run| - 1);
    NoSidecarMeaning(run[0].live, job.output);
  }

  /** `publish`: every execution is a run of the protocol, ending in `Succeeded` exactly when it returns Ok. */
  method Publish(machine: Machine, guard: TemporaryDirectory, job: Prepared, sha: seq<byte> -> Digest,
                 ghost durable: Fs)
    returns (ok: bool, ghost run: seq<State>)
    requires Initial(State(Check, machine.fs, durable), job, sha) && Sized(machine.fs)
    requires guard.path == job.folder && guard.active
    modifies machine, guard
    // The link, its sync and its folder's, the second look, and the last sync, in this order;
    // a failure stops somewhere on the way.
    ensures DoneUpTo(old(machine.log), machine.log,
              [LinkedAt(job.output), SyncedAt(job.output), SyncedAt(Parent(job.output)),
               OpenedAt(job.output), SyncedAt(Parent(job.output))], ok)
    ensures At(run, machine, if ok then Succeeded else Failed, job, sha)
    ensures run[0] == State(Check, old(machine.fs), durable) && !guard.active
    ensures Published(old(machine.fs), machine.fs, ok, job)
    ensures machine.reliable && Linkable(old(machine.fs), job.output) ==> ok
  {
    ghost var start, before := machine.fs, machine.log;
    ok, run := TakeSteps(machine, guard, job, sha, durable);
    DoneInAll(before, machine.log, job.output, ok);
    RunPublishes(run, job, sha, ok);
    assert run[0].live == start && run[|run| - 1].live == machine.fs;
  }

  method TakeSteps(machine: Machine, guard: TemporaryDirectory, job: Prepared, sha: seq<byte> -> Digest,
                   ghost durable: Fs)
    returns (ok: bool, ghost run: seq<State>)
    requires Initial(State(Check, machine.fs, durable), job, sha) && Sized(machine.fs)
    requires guard.path == job.folder && guard.active
    modifies machine, guard
    ensures DoneUpTo(old(machine.log), machine.log,
              [LinkedAt(job.output)]
              + ([SyncedAt(job.output), SyncedAt(Parent(job.output))]
                 + [OpenedAt(job.output), SyncedAt(Parent(job.output))]), ok)
    ensures At(run, machine, if ok then Succeeded else Failed, job, sha)
    ensures run[0] == State(Check, old(machine.fs), durable) && !guard.active
    ensures machine.reliable && Linkable(old(machine.fs), job.output) ==> ok
  {
    ghost var before := machine.log;
    ghost var rest := [SyncedAt(job.output), SyncedAt(Parent(job.output))]
                      + [OpenedAt(job.output), SyncedAt(Parent(job.output))];
    ok, run := CheckAndLink(machine, guard, job, sha, durable);
    if !ok {
      DoneNoMore(before, machine.log, [LinkedAt(job.output)], rest);
      return;
    }
    ghost var between := machine.log;
    ok, run := SettleOutput(machine, guard, job, sha, run);
    DoneThen(before, between, machine.log, [LinkedAt(job.output)], rest, ok);
  }

  /** From the link on: sync file and parent, drop the guard, verify, sync again. */
  method SettleOutput(machine: Machine, guard: TemporaryDirectory, job: Prepared, sha: seq<byte> -> Digest,
                      ghost soFar: seq<State>)
    returns (ok: bool, ghost run: seq<State>)
    requires At(soFar, machine, SyncFile, job, sha) && Sized(machine.fs) && machine.fs.Valid()
    requires guard.path == job.folder && guard.active
    modifies machine, guard
    ensures DoneUpTo(old(machine.log), machine.log,
              [SyncedAt(job.output), SyncedAt(Parent(job.output))]
              + [OpenedAt(job.output), SyncedAt(Parent(job.output))], ok)
    ensures At(run, machine, if ok then Succeeded else Failed, job, sha) && soFar <= run && !guard.active
    ensures machine.reliable ==> ok
  {
    ghost var before := machine.log;
    ok, run := SyncOutput(machine, guard, job, sha, soFar);
    if !ok {
      DoneNoMore(before, machine.log, [SyncedAt(job.output), SyncedAt(Parent(job.output))],
                 [OpenedAt(job.output), SyncedAt(Parent(job.output))]);
      return;
    }
    ghost var between := machine.log;
    run := DropGuard(machine, guard, job, sha, run);
    ok, run := FinishVerified(machine, guard, job, sha, run);
    DoneThen(before, between, machine.log, [SyncedAt(job.output), SyncedAt(Parent(job.output))],
             [OpenedAt(job.output), SyncedAt(Parent(job.output))], ok);
  }

  /** The linked file and its folder are made durable. */
  method SyncOutput(machine: Machine, guard: TemporaryDirectory, job: Prepared, sha: seq<byte> -> Digest,
                    ghost soFar: seq<State>)
    returns (ok: bool, ghost run: seq<State>)
    requires At(soFar, machine, SyncFile, job, sha) && Sized(machine.fs) && machine.fs.Valid()
    requires guard.path == job.folder && guard.active
    modifies machine, guard
    ensures DoneUpTo(old(machine.log), machine.log, [SyncedAt(job.output), SyncedAt(Parent(job.output))], ok)
    ensures At(run, machine, if ok then Cleanup else Failed, job, sha) && soFar <= run && guard.active == ok
    ensures Sized(machine.fs) && machine.fs.Valid()
    ensures machine.reliable ==> ok
  {
    run := soFar;
    ghost var durable := run[|run| - 1].durable;
    ok := machine.Sync(job.output);
    if !ok {
      run := GiveUp(machine, guard, job, sha, run, SyncFile);
      return;
    }
    run := Continue(run, State(SyncParent, machine.fs, durable), job, sha);
    ok := machine.Sync(Parent(job.output));
    if !ok {
      run := GiveUp(machine, guard, job, sha, run, SyncParent);
      return;
    }
    run := Continue(run, State(Cleanup, machine.fs, machine.fs), job, sha);
  }

  method DropGuard(machine: Machine, guard: TemporaryDirectory, job: Prepared, sha: seq<byte> -> Digest,
                   ghost soFar: seq<State>)
    returns (ghost run: seq<State>)
    requires At(soFar, machine, Cleanup, job, sha) && Sized(machine.fs) && machine.fs.Valid()
    requires guard.path == job.folder && guard.active
    modifies machine`fs, guard
    ensures At(run, machine, Verify, job, sha) && soFar <= run && !guard.active
    ensures Sized(machine.fs) && machine.fs.Valid()
  {
    ghost var settled, durable := machine.fs, soFar[|soFar| - 1].durable;
    guard.Cleanup(machine);
    assert Dropped(settled, machine.fs, job.folder);
    run := Continue(soFar, State(Verify, machine.fs, durable), job, sha);
  }

  method FinishVerified(machine: Machine, guard: TemporaryDirectory, job: Prepared, sha: seq<byte> -> Digest,
                        ghost soFar: seq<State>)
    returns (ok: bool, ghost run: seq<State>)
    requires At(soFar, machine, Verify, job, sha) && Sized(machine.fs) && machine.fs.Valid()
    requires guard.path == job.folder && !guard.active
    modifies machine, guard
    ensures DoneUpTo(old(machine.log), machine.log, [OpenedAt(job.output), SyncedAt(Parent(job.output))], ok)
    ensures At(run, machine, if ok then Succeeded else Failed, job, sha) && soFar <= run && !guard.active
    ensures machine.reliable ==> ok
  {
    run := soFar;
    ghost var durable := run[|run| - 1].durable;
    VerifiesByThen(run, job, sha);
    var verified := VerifyInstalledDescriptor(machine, job.output, job.descriptor, sha);
    if !verified {
      run := GiveUp(machine, guard, job, sha, run, Verify);
      return false, run;
    }
    run := Continue(run, State(FinalSync, machine.fs, durable), job, sha);
    var synced := machine.Sync(Parent(job.output));
    if !synced {
      run := GiveUp(machine, guard, job, sha, run, FinalSync);
      return false, run;
    }
    run := Continue(run, State(Succeeded, machine.fs, machine.fs), job, sha);
    ok := true;
  }

  /** What the protocol itself linked always passes its own final check. */
  lemma VerifiesByThen(run: seq<State>, job: Prepared, sha: seq<byte> -> Digest)
    requires IsRun(run, job, sha) && run[|run| - 1].pc == Verify
    ensures VerifyInstalled(run[|run| - 1].live, job.output, job.descriptor, sha)
  {
    RunKeepsInv(run, job, sha, |run| - 1);
  }

  lemma Continue(run: seq<State>, next: State, job: Prepared, sha: seq<byte> -> Digest) returns (longer: seq<State>)
    requires IsRun(run, job, sha) && Step(run[|run| - 1], next, job, sha)
    ensures IsRun(longer, job, sha) && longer == run + [next]
  {
    longer := run + [next];
  }

  // ---------------------------------------------------------------- crash safety

  /** Wherever publication stops, the output is as it was, absent, or byte-identical to the payload. */
  lemma CrashLeavesAbsentOrPayload(run: seq<State>, job: Prepared, sha: seq<byte> -> Digest, k: nat, after: Fs)
    requires IsRun(run, job, sha) && k < |run| && Crashes(run[k], after)
    ensures OutputAt(after, run[0].live, job)
    ensures PastSync(run[k].pc) ==> after.Holds(job.output, job.payload)
  {
    RunKeepsInv(run, job, sha, k);
  }

  /** Recovery completes exactly when the link survived, drops the entry exactly when it did not, and
      never refuses what this protocol left behind. */
  lemma RecoveryVerdict(run: seq<State>, job: Prepared, sha: seq<byte> -> Digest, k: nat, after: Fs)
    requires IsRun(run, job, sha) && k < |run| && Crashes(run[k], after)
    requires OutputFree(run[0].live, job.output)
    ensures Recover(after, job.output, job.descriptor, sha) ==
            if job.output in after.entries then Completed else NothingInstalled
    ensures PastSync(run[k].pc) ==> Recover(after, job.output, job.descriptor, sha) == Completed
  {
    RunKeepsInv(run, job, sha, k);
    assert forall p :: p in Sidecars(job.output) ==> p !in after.entries;
  }

  /** Without a power loss the link step alone decides, and a sidecar that appeared since blocks. */
  lemma RecoveryAfterStop(run: seq<State>, job: Prepared, sha: seq<byte> -> Digest, k: nat, found: Fs)
    requires IsRun(run, job, sha) && k < |run| && OutputFree(run[0].live, job.output)
    requires ContentsAt(found, job.output) == ContentsAt(run[k].live, job.output)
    ensures VerifyInstalled(found, job.output, job.descriptor, sha) <==>
              WasLinked(run, k) && forall p :: p in Sidecars(job.output) ==> p !in found.entries
  {
    RunKeepsInv(run, job, sha, k);
    LinkedIff(run, job, sha, k);
  }

  /** The link step is among the first `k` steps of the run. */
  ghost predicate WasLinked(run: seq<State>, k: nat)
    requires k < |run|
  {
    exists i :: 0 <= i < k && run[i].pc == Link && run[i + 1].pc == SyncFile
  }

  lemma WasLinkedNext(run: seq<State>, i: nat)
    requires i + 1 < |run|
    ensures WasLinked(run, i + 1) <==> WasLinked(run, i) || (run[i].pc == Link && run[i + 1].pc == SyncFile)
  {
  }

  lemma StepLinks(s: State, t: State, start: Fs, job: Prepared, sha: seq<byte> -> Digest)
    requires job.output != [] && !Under(job.folder, job.output) && Inv(s, start, job) && Step(s, t, job, sha)
    ensures job.output in t.live.entries <==>
              job.output in s.live.entries || (s.pc == Link && t.pc == SyncFile)
  {
  }

  lemma RunStepLinks(run: seq<State>, job: Prepared, sha: seq<byte> -> Digest, i: nat)
    requires IsRun(run, job, sha) && i + 1 < |run|
    ensures job.output in run[i + 1].live.entries <==>
              job.output in run[i].live.entries || (run[i].pc == Link && run[i + 1].pc == SyncFile)
  {
    RunKeepsInv(run, job, sha, i);
    assert Step(run[i], run[i + 1], job, sha);
    StepLinks(run[i], run[i + 1], run[0].live, job, sha);
  }

  lemma {:induction false} LinkedIff(run: seq<State>, job: Prepared, sha: seq<byte> -> Digest, k: nat)
    requires IsRun(run, job, sha) && k < |run| && OutputFree(run[0].live, job.output)
    ensures job.output in run[k].live.entries <==> WasLinked(run, k)
  {
    if k > 0 {
      var i := k - 1;
      LinkedIff(run, job, sha, i);
      RunStepLinks(run, job, sha, i);
      WasLinkedNext(run, i);
    }
  }

  /** Success is durable: no crash afterwards loses the output. */
  lemma SuccessIsDurable(run: seq<State>, job: Prepared, sha: seq<byte> -> Digest, k: nat, after: Fs)
    requires IsRun(run, job, sha) && k < |run| && run[k].pc == Succeeded && Crashes(run[k], after)
    ensures after.Holds(job.output, job.payload) && Recover(after, job.output, job.descriptor, sha) == Completed
  {
    RunKeepsInv(run, job, sha, k);
    RecoveryVerdict(run, job, sha, k, after);
  }

  lemma FaultFreeLinks(start: State, job: Prepared, sha: seq<byte> -> Digest) returns (run: seq<State>)
    requires Initial(start, job, sha) && OutputFree(start.live, job.output)
    ensures IsRun(run, job, sha) && run[0] == start && |run| == 4
    ensures run[3] == start.(pc := SyncParent, live := Linked(start.live, job))
  {
    run := Continue([start], start.(pc := Link), job, sha);
    run := Continue(run, run[1].(pc := SyncFile, live := Linked(start.live, job)), job, sha);
    run := Continue(run, run[2].(pc := SyncParent), job, sha);
  }

  lemma CleanedVerifies(start: State, job: Prepared, sha: seq<byte> -> Digest)
    requires Initial(start, job, sha) && OutputFree(start.live, job.output)
    ensures var linked := Linked(start.live, job);
            && Dropped(linked, linked.RemoveTree(job.folder), job.folder)
            && VerifyInstalled(linked.RemoveTree(job.folder), job.output, job.descriptor, sha)
  {
    assert forall p :: p in Sidecars(job.output) ==> p != job.output;
  }

  /** With a free output and no failing operation, publication goes through: the final check accepts
      what the link step produced. */
  lemma FaultFreeRunSucceeds(start: State, job: Prepared, sha: seq<byte> -> Digest) returns (run: seq<State>)
    requires Initial(start, job, sha) && OutputFree(start.live, job.output)
    ensures IsRun(run, job, sha) && run[0] == start && |run| == 8 && run[7].pc == Succeeded
  {
    var linked := Linked(start.live, job);
    var cleaned := linked.RemoveTree(job.folder);
    CleanedVerifies(start, job, sha);
    run := FaultFreeLinks(start, job, sha);
    run := Continue(run, run[3].(pc := Cleanup, durable := linked), job, sha);
    run := Continue(run, run[4].(pc := Verify, live := cleaned), job, sha);
    run := Continue(run, run[5].(pc := FinalSync), job, sha);
    run := Continue(run, run[6].(pc := Succeeded, durable := cleaned), job, sha);
  }

  // ---------------------------------------------------------------- recovery of the journal

  /** A pending installation: its transaction, where it goes, and the descriptor retained for it. */
  datatype Pending = Pending(transaction: string, output: Path, descriptor: Descriptor, consistent: bool)

  datatype Journal = Journal(pending: Option<Pending>, completed: set<string>)

  /** What the host says about folders and paths: owned and private, and free of aliases. */
  datatype Host = Host(privateFolder: Path -> bool, canonical: Path -> bool)

  /** Recovery looks at a pending entry at all: it agrees with its receipt, its output's folder is private, and
      an output that is there has a canonical path. */
  predicate Recoverable(pending: Pending, fs: Fs, host: Host) {
    && pending.consistent && pending.output != [] && host.privateFolder(Parent(pending.output))
    && (pending.output in fs.entries ==> host.canonical(pending.output))
  }

  /** What recovery makes of a journal, given what is on disk; nothing when it must refuse. */
  function Settled(j: Journal, fs: Fs, host: Host, sha: seq<byte> -> Digest): Option<Journal> {
    if j.pending.None? then Some(j)
    else if !Recoverable(j.pending.value, fs, host) then None
    else
      match Recover(fs, j.pending.value.output, j.pending.value.descriptor, sha)
      case NothingInstalled => Some(Journal(None, j.completed))
      case Completed => Some(Journal(None, j.completed + {j.pending.value.transaction}))
      case Refused => None
  }

  /** The pending output is there and is not what the descriptor says. */
  ghost predicate Conflicts(j: Journal, fs: Fs, sha: seq<byte> -> Digest) {
    && j.pending.Some? && j.pending.value.output != [] && j.pending.value.output in fs.entries
    && !Intact(fs, j.pending.value.output, j.pending.value.descriptor, sha)
  }

  predicate Vouched(pending: Pending, host: Host) {
    && pending.consistent && pending.output != []
    && host.privateFolder(Parent(pending.output)) && host.canonical(pending.output)
  }

  /** The journal in memory and the one on disk, in the folder `store`; a session starts with the two equal.
      `copy` is the random name that a new journal is written to first. */
  class TrustState {
    const mutating: bool
    const store: Path
    const copy: Path
    var memory: Journal
    var saved: Journal

    constructor (journal: Journal, mutating: bool, store: Path, copy: Path)
      ensures memory == saved == journal && this.mutating == mutating && this.store == store && this.copy == copy
    {
      this.mutating, this.store, this.copy := mutating, store, copy;
      memory, saved := journal, journal;
    }

    /** `save` with `replace_state`: a private copy, a rename onto the journal, and a sync of the folder. When
        only that last sync fails, the caller gets an error although the new journal is in place. */
    method Save(machine: Machine) returns (ok: bool)
      modifies this`saved, machine`log
      // The journal on disk is replaced only after its successor was synced, and Ok comes after the folder's sync.
      ensures saved != old(saved) ==> old(machine.log) + [SyncedAt(copy)] <= machine.log
      ensures mutating && ok ==> machine.log == old(machine.log) + [SyncedAt(copy), SyncedAt(store)]
      ensures old(machine.log) <= machine.log
      ensures !mutating ==> ok && saved == old(saved)
      ensures mutating && ok ==> saved == memory
      ensures saved == old(saved) || (mutating && saved == memory)
      ensures machine.reliable ==> ok
    {
      if !mutating {
        return true;
      }
      var written := machine.Sync(copy);
      if !written {
        return false;
      }
      var renameFails := machine.Fails();
      if renameFails {
        return false;
      }
      saved := memory;
      ok := machine.Sync(store);
    }

    /** `recover`, up to the export of receipts. After a failure the journal on disk is the old one or already
        the settled one; either way it settles to the same, so recovery can be repeated. */
    method RecoverPending(machine: Machine, host: Host, sha: seq<byte> -> Digest) returns (ok: bool)
      requires memory == saved && Sized(machine.fs)
      modifies this, machine`log
      ensures ok ==> Settled(old(saved), machine.fs, host, sha) == Some(memory)
                     && saved == if mutating then memory else old(saved)
      ensures !ok ==> saved == old(saved)
                      || (mutating && Settled(old(saved), machine.fs, host, sha) == Some(saved))
      ensures Settled(saved, machine.fs, host, sha) == Settled(old(saved), machine.fs, host, sha)
      ensures machine.reliable ==> (ok <==> Settled(old(saved), machine.fs, host, sha).Some?)
      // Spelled out: a transaction becomes complete only when it was pending and its output is intact;
      ensures forall t :: (t in memory.completed || t in saved.completed) && t !in old(memory).completed ==>
                && old(memory).pending.Some? && t == old(memory).pending.value.transaction
                && old(memory).pending.value.output != []
                && Intact(machine.fs, old(memory).pending.value.output, old(memory).pending.value.descriptor, sha)
      // and then only after the output was read and made durable, file and folder;
      ensures forall t :: (t in memory.completed || t in saved.completed) && t !in old(memory).completed ==>
                old(machine.log) + [OpenedAt(old(memory).pending.value.output),
                                    SyncedAt(old(memory).pending.value.output),
                                    SyncedAt(Parent(old(memory).pending.value.output))] <= machine.log
      // none ever stops being complete;
      ensures old(memory).completed <= memory.completed && old(memory).completed <= saved.completed
      // an output that is there and not intact is refused, whatever works, and the entry stays pending;
      ensures Conflicts(old(memory), machine.fs, sha) ==> !ok && memory == old(memory) && saved == old(memory)
      // an absent output completes nothing;
      ensures old(memory).pending.Some? && old(memory).pending.value.output !in machine.fs.entries ==>
                memory.completed == old(memory).completed && saved.completed == old(memory).completed
      // an entry that disagrees with its receipt, or whose folder or path the host does not vouch for, is refused;
      ensures old(memory).pending.Some?
              && (!old(memory).pending.value.consistent || old(memory).pending.value.output == []
                  || !host.privateFolder(Parent(old(memory).pending.value.output))
                  || (old(memory).pending.value.output in machine.fs.entries
                      && !host.canonical(old(memory).pending.value.output))) ==>
                !ok && memory == old(memory) && saved == old(memory)
      // and when nothing fails and the host vouches, an intact output completes its transaction.
      ensures machine.reliable && old(memory).pending.Some? && Vouched(old(memory).pending.value, host)
              && Intact(machine.fs, old(memory).pending.value.output, old(memory).pending.value.descriptor, sha) ==>
                && ok && memory.pending.None?
                && memory.completed == old(memory).completed + {old(memory).pending.value.transaction}
    {
      ghost var start := saved;
      SettledAgain(start, machine.fs, host, sha);
      if memory.pending.None? {
        return true;
      }
      var pending := memory.pending.value;
      if !pending.consistent || pending.output == [] || !host.privateFolder(Parent(pending.output)) {
        return false;
      }
      var found := machine.Metadata(pending.output);
      if found.Err? {
        return false;
      }
      if found.value {
        if !host.canonical(pending.output) {
          return false;
        }
        var installed := Confirm(machine, pending, sha);
        if !installed {
          return false;
        }
        memory := memory.(completed := memory.completed + {pending.transaction});
      }
      memory := memory.(pending := None);
      assert Settled(start, machine.fs, host, sha) == Some(memory);
      ok := Save(machine);
    }

    /** The output passes the descriptor check and is made durable, file and parent. */
    method Confirm(machine: Machine, pending: Pending, sha: seq<byte> -> Digest) returns (ok: bool)
      requires pending.output != [] && Sized(machine.fs)
      modifies machine`log
      ensures ok ==> machine.log == old(machine.log)
                       + [OpenedAt(pending.output), SyncedAt(pending.output), SyncedAt(Parent(pending.output))]
      ensures old(machine.log) <= machine.log
      ensures ok ==> VerifyInstalled(machine.fs, pending.output, pending.descriptor, sha)
      ensures machine.reliable ==>
                (ok <==> VerifyInstalled(machine.fs, pending.output, pending.descriptor, sha))
      ensures ok ==> Intact(machine.fs, pending.output, pending.descriptor, sha)
      ensures machine.reliable ==> (ok <==> Intact(machine.fs, pending.output, pending.descriptor, sha))
    {
      ok := VerifyInstalledDescriptor(machine, pending.output, pending.descriptor, sha);
      ghost var before := machine.log;
      if ok {
        ok := SyncInstalled(machine, pending.output);
      }
      assert ok ==> machine.log == before + [SyncedAt(pending.output), SyncedAt(Parent(pending.output))];
    }

    method SyncInstalled(machine: Machine, output: Path) returns (ok: bool)
      requires output != []
      modifies machine`log
      ensures ok ==> machine.log == old(machine.log) + [SyncedAt(output), SyncedAt(Parent(output))]
      ensures old(machine.log) <= machine.log
      ensures machine.reliable ==> ok
    {
      ok := machine.Sync(output);
      if ok {
        ok := machine.Sync(Parent(output));
      }
    }
  }

  /** Recovering twice is recovering once. */
  lemma SettledAgain(j: Journal, fs: Fs, host: Host, sha: seq<byte> -> Digest)
    ensures Settled(j, fs, host, sha).Some? ==>
              Settled(Settled(j, fs, host, sha).value, fs, host, sha) == Settled(j, fs, host, sha)
  {
  }

  /** After any crash of a publication its own journal entry settles exactly when the host vouches for folder
      and path, and the transaction is then recorded as complete exactly when the output is there, holding the
      payload. */
  lemma CrashSettles(run: seq<State>, job: Prepared, sha: seq<byte> -> Digest, k: nat, after: Fs, host: Host,
                     transaction: string, completed: set<string>)
    requires IsRun(run, job, sha) && k < |run| && Crashes(run[k], after)
    requires OutputFree(run[0].live, job.output) && transaction !in completed
    ensures var pending := Pending(transaction, job.output, job.descriptor, true);
            var j := Settled(Journal(Some(pending), completed), after, host, sha);
            && (j.Some? <==> host.privateFolder(Parent(job.output))
                             && (job.output in after.entries ==> host.canonical(job.output)))
            && (j.Some? ==>
                  && j.value.pending.None?
                  && (transaction in j.value.completed <==> job.output in after.entries)
                  && (transaction in j.value.completed ==> after.Holds(job.output, job.payload)))
  {
    RecoveryVerdict(run, job, sha, k, after);
    CrashLeavesAbsentOrPayload(run, job, sha, k, after);
  }
}
