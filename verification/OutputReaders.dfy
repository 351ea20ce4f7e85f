/** Two pipe readers sharing one atomic output budget: every interleaving reaches the same verdict. */
module OutputReaders {
  import opened Bytes
  import opened Streams
  import opened Wrappers

  const CHUNK: nat := 8192

  datatype Bounded = Complete(bytes: seq<byte>) | LimitExceeded | ReadError

  /** A thread is about to read, holds a chunk it has not yet charged, or has returned. */
  datatype Phase = Idle | Holding(chunk: seq<byte>) | Returned(result: Bounded)

  datatype Thread = Thread(pending: seq<byte>, phase: Phase, output: seq<byte>, exceeded: bool)

  datatype Side = Stdout | Stderr

  datatype State = State(remaining: nat, stdout: Thread, stderr: Thread) {
    function Of(side: Side): Thread {
      if side.Stdout? then stdout else stderr
    }

    function With(side: Side, thread: Thread): State {
      if side.Stdout? then this.(stdout := thread) else this.(stderr := thread)
    }

    predicate Final() {
      stdout.phase.Returned? && stderr.phase.Returned?
    }
  }

  function Start(budget: nat, stdout: seq<byte>, stderr: seq<byte>): State {
    State(budget, Thread(stdout, Idle, [], false), Thread(stderr, Idle, [], false))
  }

  // ---------------------------------------------------------------- the steps

  /** `read` returned between 1 and 8192 bytes. */
  ghost predicate ReadChunk(s: State, t: State, side: Side, n: nat) {
    var thread := s.Of(side);
    && thread.phase.Idle? && 1 <= n <= CHUNK && n <= |thread.pending|
    && t == s.With(side, thread.(pending := thread.pending[n..], phase := Holding(thread.pending[..n])))
  }

  /** One `fetch_update`: charge the chunk, or give up retaining and only drain from now on. */
  ghost predicate Charge(s: State, t: State, side: Side) {
    var thread := s.Of(side);
    && thread.phase.Holding?
    && var chunk := thread.phase.chunk;
       if thread.exceeded || |chunk| > s.remaining then
         t == s.With(side, thread.(phase := Idle, exceeded := true))
       else
         t == s.With(side, thread.(phase := Idle, output := thread.output + chunk)).(remaining := s.remaining - |chunk|)
  }

  ghost predicate EndOfFile(s: State, t: State, side: Side) {
    var thread := s.Of(side);
    && thread.phase.Idle? && thread.pending == []
    && t == s.With(side, thread.(phase := Returned(if thread.exceeded then LimitExceeded else Complete(thread.output))))
  }

  ghost predicate ReadFails(s: State, t: State, side: Side) {
    var thread := s.Of(side);
    thread.phase.Idle? && t == s.With(side, thread.(phase := Returned(ReadError)))
  }

  ghost predicate SideStep(s: State, t: State, side: Side) {
    || (exists n :: ReadChunk(s, t, side, n))
    || Charge(s, t, side)
    || EndOfFile(s, t, side)
    || ReadFails(s, t, side)
  }

  ghost predicate Next(s: State, t: State) {
    SideStep(s, t, Stdout) || SideStep(s, t, Stderr)
  }

  /** A run is any interleaving of the two threads' steps. */
  ghost predicate IsRun(run: seq<State>, budget: nat, stdout: seq<byte>, stderr: seq<byte>) {
    && run != [] && run[0] == Start(budget, stdout, stderr)
    && forall i :: 0 <= i < |run| - 1 ==> Next(run[i], run[i + 1])
  }

  // ---------------------------------------------------------------- the invariant

  function Held(thread: Thread): seq<byte> {
    if thread.phase.Holding? then thread.phase.chunk else []
  }

  ghost predicate Accounted(thread: Thread, source: seq<byte>) {
    && |thread.output| + |Held(thread)| + |thread.pending| <= |source|
    && (!thread.exceeded ==> thread.output + Held(thread) + thread.pending == source)
    && (thread.phase.Returned? && !thread.phase.result.ReadError? ==>
          && thread.pending == []
          && thread.phase.result == if thread.exceeded then LimitExceeded else Complete(thread.output))
  }

  ghost predicate Inv(s: State, budget: nat, stdout: seq<byte>, stderr: seq<byte>) {
    && s.remaining + |s.stdout.output| + |s.stderr.output| == budget
    && Accounted(s.stdout, stdout)
    && Accounted(s.stderr, stderr)
    && (s.stdout.exceeded || s.stderr.exceeded ==> |stdout| + |stderr| > budget)
  }

  lemma ReadChunkAccounted(before: Thread, after: Thread, source: seq<byte>, n: nat)
    requires Accounted(before, source) && before.phase.Idle? && n <= |before.pending|
    requires after == before.(pending := before.pending[n..], phase := Holding(before.pending[..n]))
    ensures Accounted(after, source)
  {
    assert before.pending == before.pending[..n] + before.pending[n..];
    assert before.output + [] + before.pending == before.output + before.pending[..n] + before.pending[n..];
  }

  lemma RetainAccounted(before: Thread, after: Thread, source: seq<byte>)
    requires Accounted(before, source) && before.phase.Holding?
    requires after == before.(phase := Idle, output := before.output + before.phase.chunk)
    ensures Accounted(after, source)
  {
    assert after.output + [] + after.pending == before.output + before.phase.chunk + before.pending;
  }

  lemma SideStepKeepsInv(s: State, t: State, side: Side, budget: nat, stdout: seq<byte>, stderr: seq<byte>)
    requires Inv(s, budget, stdout, stderr) && SideStep(s, t, side)
    ensures Inv(t, budget, stdout, stderr)
  {
    var source := if side.Stdout? then stdout else stderr;
    var before, after := s.Of(side), t.Of(side);
    if n: nat :| ReadChunk(s, t, side, n) {
      ReadChunkAccounted(before, after, source, n);
    } else if Charge(s, t, side) {
      if !before.exceeded && |before.phase.chunk| <= s.remaining {
        RetainAccounted(before, after, source);
      }
    }
  }

  /** Conservation over whole runs: what is left plus what both threads retain is the budget. */
  lemma {:induction false} RunKeepsInv(run: seq<State>, budget: nat, stdout: seq<byte>, stderr: seq<byte>, k: nat)
    requires IsRun(run, budget, stdout, stderr) && k < |run|
    ensures Inv(run[k], budget, stdout, stderr)
  {
    if k > 0 {
      RunKeepsInv(run, budget, stdout, stderr, k - 1);
      assert Next(run[k - 1], run[k - 1 + 1]);
      if SideStep(run[k - 1], run[k], Stdout) {
        SideStepKeepsInv(run[k - 1], run[k], Stdout, budget, stdout, stderr);
      } else {
        SideStepKeepsInv(run[k - 1], run[k], Stderr, budget, stdout, stderr);
      }
    }
  }

  // ---------------------------------------------------------------- the verdict

  datatype JoinError = OutputRead | OutputLimit

  /** Joining the readers: stdout's read error first, then stderr's, then the limit, then the re-check. */
  function Join(stdout: Bounded, stderr: Bounded, budget: nat): Result<(seq<byte>, seq<byte>), JoinError> {
    if stdout.ReadError? || stderr.ReadError? then Err(OutputRead)
    else if stdout.LimitExceeded? || stderr.LimitExceeded? then Err(OutputLimit)
    else if Recheck(stdout.bytes, stderr.bytes, budget) then Err(OutputLimit)
    else Ok((stdout.bytes, stderr.bytes))
  }

  /** The aggregate re-check after the join. */
  predicate Recheck(stdout: seq<byte>, stderr: seq<byte>, budget: nat) {
    (if |stdout| + |stderr| <= U64_MAX then |stdout| + |stderr| else U64_MAX) > budget
  }

  ghost predicate Finishes(run: seq<State>, budget: nat, stdout: seq<byte>, stderr: seq<byte>) {
    IsRun(run, budget, stdout, stderr) && run[|run| - 1].Final()
  }

  function Verdict(s: State, budget: nat): Result<(seq<byte>, seq<byte>), JoinError>
    requires s.Final()
  {
    Join(s.stdout.phase.result, s.stderr.phase.result, budget)
  }

  /** No schedule and no chunking can change the verdict. */
  lemma VerdictIsScheduleFree(run: seq<State>, budget: nat, stdout: seq<byte>, stderr: seq<byte>)
    requires Finishes(run, budget, stdout, stderr)
    ensures var s := run[|run| - 1];
            && (s.stdout.phase.result.ReadError? || s.stderr.phase.result.ReadError?
                <==> Verdict(s, budget) == Err(OutputRead))
            && (Verdict(s, budget) != Err(OutputRead) ==>
                  Verdict(s, budget) ==
                  if |stdout| + |stderr| > budget then Err(OutputLimit) else Ok((stdout, stderr)))
  {
    RunKeepsInv(run, budget, stdout, stderr, |run| - 1);
    var s := run[|run| - 1];
    if !s.stdout.exceeded && !s.stderr.exceeded {
      assert s.stdout.output + [] + [] == s.stdout.output;
      assert s.stderr.output + [] + [] == s.stderr.output;
    }
  }

  /** The re-check is dead code: two complete reads never exceed the budget together. */
  lemma RecheckNeverFires(run: seq<State>, budget: nat, stdout: seq<byte>, stderr: seq<byte>)
    requires Finishes(run, budget, stdout, stderr)
    ensures var s := run[|run| - 1];
            s.stdout.phase.result.Complete? && s.stderr.phase.result.Complete? ==>
              !Recheck(s.stdout.phase.result.bytes, s.stderr.phase.result.bytes, budget)
  {
    RunKeepsInv(run, budget, stdout, stderr, |run| - 1);
  }

  // ---------------------------------------------------------------- every schedule ends

  function ThreadWork(thread: Thread): nat {
    2 * |thread.pending| + (match thread.phase case Idle => 1 case Holding(_) => 2 case Returned(_) => 0)
  }

  function Work(s: State): nat {
    ThreadWork(s.stdout) + ThreadWork(s.stderr)
  }

  lemma StepReducesWork(s: State, t: State)
    requires Next(s, t)
    ensures Work(t) < Work(s)
  {
  }

  /** A run takes at most two steps a byte and one more a thread, breach or not. */
  lemma {:induction false} RunsAreBounded(run: seq<State>, budget: nat, stdout: seq<byte>, stderr: seq<byte>, k: nat)
    requires IsRun(run, budget, stdout, stderr) && k < |run|
    ensures k + Work(run[k]) <= 2 * (|stdout| + |stderr|) + 2
  {
    if k > 0 {
      RunsAreBounded(run, budget, stdout, stderr, k - 1);
      StepReducesWork(run[k - 1], run[k - 1 + 1]);
    }
  }

  /** A thread that has not returned can always step by itself: draining never waits for the other. */
  lemma NeverStuck(s: State, side: Side) returns (t: State)
    requires !s.Of(side).phase.Returned?
    ensures SideStep(s, t, side) && !ReadFails(s, t, side)
  {
    var thread := s.Of(side);
    match thread.phase
    case Holding(chunk) =>
      t := if thread.exceeded || |chunk| > s.remaining then s.With(side, thread.(phase := Idle, exceeded := true))
      else s.With(side, thread.(phase := Idle, output := thread.output + chunk)).(remaining := s.remaining - |chunk|);
      assert Charge(s, t, side);
    case Idle =>
      if thread.pending == [] {
        var result := if thread.exceeded then LimitExceeded else Complete(thread.output);
        t := s.With(side, thread.(phase := Returned(result)));
        assert EndOfFile(s, t, side);
      } else {
        t := s.With(side, thread.(pending := thread.pending[1..], phase := Holding(thread.pending[..1])));
        assert ReadChunk(s, t, side, 1);
      }
  }

  // ---------------------------------------------------------------- one reader's loop

  /** The shared counter. Between any two operations of this thread the other one may have charged it. */
  class Budget {
    var available: nat
    ghost var mine: nat
    ghost var others: nat

    ghost predicate Valid(initial: nat)
      reads this
    {
      available + mine + others == initial
    }

    constructor (initial: nat)
      ensures Valid(initial) && mine == others == 0
    {
      available, mine, others := initial, 0, 0;
    }

    /** `fetch_update` with `checked_sub`, after whatever the other thread did meanwhile; `found` is what it
        left. */
    method TryCharge(n: nat, ghost initial: nat) returns (ok: bool, ghost found: nat)
      requires Valid(initial)
      modifies this
      ensures Valid(initial) && others >= old(others)
      ensures found <= old(available) && (ok <==> n <= found)
      ensures available == if ok then found - n else found
      ensures ok ==> mine == old(mine) + n
      ensures !ok ==> mine == old(mine) && old(mine) + n + others > initial
    {
      var taken: nat :| taken <= available;
      available, others := available - taken, others + taken;
      found := available;
      ok := n <= available;
      if ok {
        available, mine := available - n, mine + n;
      }
    }
  }

  /** What the other thread can do to this one: take from the budget. */
  ghost predicate Interferes(s: State, t: State, side: Side) {
    t.Of(side) == s.Of(side) && t.remaining <= s.remaining
  }

  /** It is all that a step of the other thread does here. */
  lemma OtherStepInterferes(s: State, t: State, side: Side, other: Side)
    requires side != other && SideStep(s, t, other)
    ensures Interferes(s, t, side)
  {
  }

  /** Steps of one thread with interference between them. */
  ghost predicate IsTrace(trace: seq<State>, side: Side) {
    && trace != []
    && forall i :: 0 <= i < |trace| - 1 ==>
         SideStep(trace[i], trace[i + 1], side) || Interferes(trace[i], trace[i + 1], side)
  }

  /** A trace from `start` to a state with the given thread and budget. */
  ghost predicate Reaches(trace: seq<State>, start: State, side: Side, thread: Thread, remaining: nat) {
    && IsTrace(trace, side) && trace[0] == start
    && trace[|trace| - 1].Of(side) == thread && trace[|trace| - 1].remaining == remaining
  }

  lemma Extend(trace: seq<State>, next: State, start: State, side: Side) returns (longer: seq<State>)
    requires IsTrace(trace, side) && trace[0] == start
    requires SideStep(trace[|trace| - 1], next, side) || Interferes(trace[|trace| - 1], next, side)
    ensures IsTrace(longer, side) && longer[0] == start && longer[|longer| - 1] == next
  {
    longer := trace + [next];
  }

  lemma TraceRead(trace: seq<State>, start: State, side: Side, thread: Thread, remaining: nat, n: nat)
    returns (longer: seq<State>)
    requires Reaches(trace, start, side, thread, remaining) && thread.phase.Idle?
    requires 1 <= n <= CHUNK && n <= |thread.pending|
    ensures Reaches(longer, start, side,
                    thread.(pending := thread.pending[n..], phase := Holding(thread.pending[..n])), remaining)
  {
    var s := trace[|trace| - 1];
    var next := s.With(side, thread.(pending := thread.pending[n..], phase := Holding(thread.pending[..n])));
    assert ReadChunk(s, next, side, n);
    longer := Extend(trace, next, start, side);
  }

  /** Whatever the other thread left, the charge is decided on it. */
  lemma TraceCharge(trace: seq<State>, start: State, side: Side, thread: Thread, remaining: nat, found: nat)
    returns (longer: seq<State>)
    requires Reaches(trace, start, side, thread, remaining) && thread.phase.Holding? && found <= remaining
    ensures thread.exceeded || |thread.phase.chunk| > found ==>
              Reaches(longer, start, side, thread.(phase := Idle, exceeded := true), found)
    ensures !thread.exceeded && |thread.phase.chunk| <= found ==>
              Reaches(longer, start, side, thread.(phase := Idle, output := thread.output + thread.phase.chunk),
                      found - |thread.phase.chunk|)
  {
    var s := trace[|trace| - 1].(remaining := found);
    var middle := Extend(trace, s, start, side);
    var chunk := thread.phase.chunk;
    var next := if thread.exceeded || |chunk| > found then s.With(side, thread.(phase := Idle, exceeded := true))
    else s.With(side, thread.(phase := Idle, output := thread.output + chunk)).(remaining := found - |chunk|);
    assert Charge(s, next, side);
    longer := Extend(middle, next, start, side);
  }

  lemma TraceReturn(trace: seq<State>, start: State, side: Side, thread: Thread, remaining: nat, r: Bounded)
    returns (longer: seq<State>)
    requires Reaches(trace, start, side, thread, remaining) && thread.phase.Idle?
    requires r.ReadError? || (thread.pending == []
                              && r == if thread.exceeded then LimitExceeded else Complete(thread.output))
    ensures Reaches(longer, start, side, thread.(phase := Returned(r)), remaining)
  {
    var s := trace[|trace| - 1];
    var next := s.With(side, thread.(phase := Returned(r)));
    assert ReadFails(s, next, side) || EndOfFile(s, next, side);
    longer := Extend(trace, next, start, side);
  }

  lemma ReadSplits(bytes: seq<byte>, from: nat, n: nat)
    requires from + n <= |bytes|
    ensures bytes[from..][n..] == bytes[from + n..] && bytes[from..][..n] == bytes[from..from + n]
  {
  }

  function Reading(reader: seq<byte>, position: nat, output: seq<byte>, exceeded: bool): Thread
    requires position <= |reader|
  {
    Thread(reader[position..], Idle, output, exceeded)
  }

  /** The reader loop against any interference. It takes only the steps of the protocol; complete means the
      whole stream was charged and kept; a breach means the stream and the other thread together overran the
      budget. */
  method ReadBounded(reader: Reader, remaining: Budget, ghost initial: nat, ghost side: Side, ghost start: State)
    returns (r: Bounded, ghost trace: seq<State>)
    requires reader.Valid() && reader.position == 0 && remaining.Valid(initial) && remaining.mine == 0
    requires start.Of(side) == Thread(reader.bytes, Idle, [], false) && start.remaining == remaining.available
    modifies reader, remaining
    ensures remaining.Valid(initial)
    ensures reader.reliable ==> !r.ReadError?
    ensures r.Complete? ==> r.bytes == reader.bytes && remaining.mine == |reader.bytes|
    ensures r.LimitExceeded? ==> |reader.bytes| + remaining.others > initial
    ensures IsTrace(trace, side) && trace[0] == start && trace[|trace| - 1].remaining == remaining.available
    ensures trace[|trace| - 1].Of(side).phase == Returned(r)
  {
    var output: seq<byte> := [];
    var limitExceeded := false;
    trace := [start];
    assert reader.bytes[0..] == reader.bytes;
    while true
      invariant reader.Valid() && remaining.Valid(initial)
      invariant remaining.mine == |output| <= reader.position
      invariant !limitExceeded ==> output == reader.bytes[..reader.position]
      invariant limitExceeded ==> reader.position + remaining.others > initial
      invariant Reaches(trace, start, side, Reading(reader.bytes, reader.position, output, limitExceeded),
                        remaining.available)
      decreases |reader.bytes| - reader.position
    {
      ghost var thread := Reading(reader.bytes, reader.position, output, limitExceeded);
      var read := reader.Read(CHUNK);
      if read.None? {
        trace := TraceReturn(trace, start, side, thread, remaining.available, ReadError);
        return ReadError, trace;
      }
      if read.value == [] {
        assert reader.bytes[..reader.position] == reader.bytes;
        r := if limitExceeded then LimitExceeded else Complete(output);
        trace := TraceReturn(trace, start, side, thread, remaining.available, r);
        return;
      }
      trace := TraceRead(trace, start, side, thread, remaining.available, |read.value|);
      ReadSplits(reader.bytes, reader.position - |read.value|, |read.value|);
      thread := thread.(pending := reader.bytes[reader.position..], phase := Holding(read.value));
      if limitExceeded {
        trace := TraceCharge(trace, start, side, thread, remaining.available, remaining.available);
        continue;
      }
      ghost var before := remaining.available;
      ghost var found: nat;
      var charged: bool;
      charged, found := remaining.TryCharge(|read.value|, initial);
      trace := TraceCharge(trace, start, side, thread, before, found);
      if !charged {
        limitExceeded := true;
        continue;
      }
      assert reader.bytes[..reader.position] == reader.bytes[..reader.position - |read.value|] + read.value;
      output := output + read.value;
    }
  }
}
