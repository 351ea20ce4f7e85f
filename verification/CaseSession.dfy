/** The case MCP session: a mutable case in memory, one stage output on disk, untrusted requests. */
module CaseSession {
  import opened AtomicWrite
  import opened Bytes
  import opened CaseOperations
  import opened CaseValidator
  import opened Characters
  import opened FileSystem
  import opened Sarif
  import opened SecurityCase
  import opened Wrappers

  /** A request line after JSON parsing; absent or mistyped arguments are `None`. */
  datatype Request =
    | Unparsable
    | Initialize
    | ListTools
    | ReadCase
    | Investigate(candidateId: Option<string>)
    | StageRecommendation(
        candidate: Option<string>, agentName: Option<string>, recommendation: Option<string>,
        rationale: Option<string>, now: string)
    | UnknownMethodOrTool

  const HUMAN_ONLY := "human-only"

  /** What a request is answered with; the framing around it is not modelled. */
  datatype Answer =
    | Refused
    | Description
    | CaseText(text: Contents)
    | CandidateText(candidate: Candidate, evidence: seq<string>, finalAuthority: string)
    | Staged(stageId: string)

  /** What the serializer, the digests and the platform supply. */
  datatype Environment = Environment(serialize: Case -> Contents, h: Hashing, reading: Reading, stamp: seq<byte>)

  function Advice(q: Request): StageRequest
    requires Complete(q)
  {
    StageRequest(q.candidate.value, q.agentName.value, q.recommendation.value, q.rationale.value, q.now)
  }

  predicate Complete(q: Request) {
    q.StageRecommendation? && q.candidate.Some? && q.agentName.Some? && q.recommendation.Some? && q.rationale.Some?
  }

  /** The request is complete, admitted, and leaves a valid case. */
  ghost predicate Stageable(c: Case, q: Request, env: Environment) {
    Complete(q) && Step(c, StageAdvice(Advice(q)), Pushed(c, StageAdvice(Advice(q)), env.h), env.h, env.reading)
  }

  /** Spelled out: one recommendation more, with the texts of the request, on a candidate that exists. */
  ghost predicate AdviceAdded(c: Case, d: Case, q: Request, env: Environment)
    requires Complete(q)
  {
    && d == c.(staged := d.staged) && |d.staged| == |c.staged| + 1 && c.staged <= d.staged
    && (exists x :: x in c.candidates && x.candidateId == q.candidate.value)
    && (exists k :: k in q.agentName.value && !env.reading.white(k))
    && (exists k :: k in q.rationale.value && !env.reading.white(k))
    && var s := d.staged[|c.staged|];
       && s.candidateId == q.candidate.value && s.agentName == q.agentName.value
       && s.recommendation == q.recommendation.value && s.rationale == q.rationale.value && s.createdAt == q.now
       && (s.recommendation == "validated" || s.recommendation == "rejected" || s.recommendation == "abstained")
       && s.stageId == "sf_stage_" + First32(env.h.ofText(s.candidateId + "|" + s.agentName + "|" + s.createdAt))
  }

  lemma StageableAdds(c: Case, q: Request, env: Environment)
    requires Stageable(c, q, env)
    ensures AdviceAdded(c, Pushed(c, StageAdvice(Advice(q)), env.h), q, env)
  {
  }

  /** The checks and the copy, before anything is written. */
  method PrepareStage(c: Case, q: Request, env: Environment) returns (staged: Option<Case>)
    requires q.StageRecommendation?
    ensures staged.Some? ==> Complete(q) && AdviceAdded(c, staged.value, q, env)
    ensures staged.Some? <==> Stageable(c, q, env)
    ensures staged.Some? ==> staged.value == Pushed(c, StageAdvice(Advice(q)), env.h)
  {
    if q.candidate.None? {
      return None;
    }
    var found := FindCandidate(c, q.candidate.value);
    if !found || q.agentName.None? || Blank(q.agentName.value, env.reading.white) {
      return None;
    }
    if q.recommendation.None? || q.recommendation.value !in {"validated", "rejected", "abstained"} {
      return None;
    }
    if q.rationale.None? || Blank(q.rationale.value, env.reading.white) {
      return None;
    }
    var copy := c.(staged := c.staged + [StagedRecord(Advice(q), env.h)]);
    var valid := Validate(copy, env.reading);
    staged := if valid.Ok? then Some(copy) else None;
    if staged.Some? {
      StageableAdds(c, q, env);
    }
  }

  class Session {
    const machine: Machine
    const output: Path
    const env: Environment
    const initial: Case
    ghost const before: Fs
    var case_: Case
    ghost var accepted: nat

    /** Memory and disk agree: either nothing was staged and nothing was written, or exactly one stage was
        accepted and the output holds the serialization of the case in memory. */
    ghost predicate Agree()
      reads this, machine
    {
      && output != [] && machine.fs.Valid() && Preserves(before, machine.fs)
      && case_.decisions == initial.decisions
      && (accepted == 0 ==> case_ == initial && (output in machine.fs.entries <==> output in before.entries))
      && (accepted > 0 ==> accepted == 1 && output !in before.entries && CaseOk(case_, env.reading)
                           && machine.fs.Holds(output, env.serialize(case_)))
    }

    constructor (machine: Machine, output: Path, initial: Case, env: Environment)
      requires output != [] && machine.fs.Valid()
      ensures Agree() && accepted == 0
      ensures this.machine == machine && this.output == output && this.initial == initial && this.env == env
      ensures before == machine.fs
    {
      this.machine, this.output, this.env, this.initial := machine, output, env, initial;
      this.before, this.case_, this.accepted := machine.fs, initial, 0;
    }

    /** `stage_case_recommendation`: work on a copy, validate it, write it, and only then replace the case. */
    method Stage(q: Request) returns (ok: bool)
      requires Agree() && q.StageRecommendation?
      modifies this`case_, this`accepted, machine
      ensures Agree()
      ensures ok ==>
                && Complete(q) && old(accepted) == 0 && accepted == 1
                && Step(old(case_), StageAdvice(Advice(q)), case_, env.h, env.reading)
                && AdviceAdded(old(case_), case_, q, env)
      ensures !ok ==> case_ == old(case_) && accepted == old(accepted)
                      && (output in machine.fs.entries <==> output in old(machine.fs).entries)
      ensures machine.reliable ==>
                (ok <==> && Stageable(old(case_), q, env) && Writable(old(machine.fs)))
    {
      var staged := PrepareStage(case_, q, env);
      if staged.None? {
        return false;
      }
      ghost var disk := machine.fs;
      var written := WriteAtomicNew(machine, output, env.serialize(staged.value), env.stamp);
      PreservesTransitive(before, disk, machine.fs);
      if !written {
        return false;
      }
      case_ := staged.value;
      accepted := accepted + 1;
      ok := true;
    }

    /** A stage can be written only to a name that is still free. */
    ghost predicate Writable(fs: Fs)
      reads this
    {
      output != [] && output !in fs.entries && FolderOrRoot(fs, Parent(output)) && CopyFree(fs, output, env.stamp)
    }

    /** One request. A refusal changes nothing; reading returns the case in memory, which after a stage is what
        the output holds. */
    method Handle(q: Request) returns (answer: Answer)
      requires Agree()
      modifies this`case_, this`accepted, machine
      ensures Agree() && accepted >= old(accepted)
      ensures case_.decisions == old(case_).decisions
      ensures !answer.Staged? ==>
                case_ == old(case_) && accepted == old(accepted)
                && (output in machine.fs.entries <==> output in old(machine.fs).entries)
      ensures answer.Staged? ==>
                Complete(q) && accepted == old(accepted) + 1
                && Step(old(case_), StageAdvice(Advice(q)), case_, env.h, env.reading)
                && AdviceAdded(old(case_), case_, q, env)
                && answer.stageId == case_.staged[|case_.staged| - 1].stageId
      ensures q.ReadCase? ==> answer == CaseText(env.serialize(case_))
                              && (accepted > 0 ==> machine.fs.Holds(output, answer.text))
      ensures q.Investigate? ==> Investigated(case_, q.candidateId, answer)
      ensures answer.CandidateText? ==> q.Investigate?
      ensures q.Unparsable? || q.UnknownMethodOrTool? ==> answer.Refused?
    {
      match q {
        case Unparsable => answer := Refused;
        case Initialize => answer := Description;
        case ListTools => answer := Description;
        case ReadCase => answer := CaseText(env.serialize(case_));
        case Investigate(id) =>
          answer := InvestigateCandidate(case_, id);
        case StageRecommendation(_, _, _, _, _) =>
          var ok := Stage(q);
          answer := if ok then Staged(StagedRecord(Advice(q), env.h).stageId) else Refused;
        case UnknownMethodOrTool => answer := Refused;
      }
    }

    /** Any request sequence: memory and disk agree after every request, no decision is ever recorded, and
        at most one stage is accepted, none at all when the output already existed. */
    method Serve(requests: seq<Request>) returns (answers: seq<Answer>)
      requires Agree()
      modifies this`case_, this`accepted, machine
      ensures Agree() && |answers| == |requests|
      ensures case_.decisions == initial.decisions
      ensures StagedAnswers(answers) == accepted - old(accepted) && accepted <= 1
      ensures output in before.entries ==> accepted == 0
    {
      answers := [];
      for i := 0 to |requests|
        invariant Agree() && |answers| == i
        invariant StagedAnswers(answers) == accepted - old(accepted)
      {
        var answer := Handle(requests[i]);
        StagedAnswersNext(answers, answer);
        answers := answers + [answer];
      }
    }
  }

  /** The candidate asked for, exactly when there is one, with its evidence and who decides about it. */
  method InvestigateCandidate(c: Case, id: Option<string>) returns (answer: Answer)
    ensures Investigated(c, id, answer)
  {
    if id.None? {
      return Refused;
    }
    var found := FirstCandidate(c, id.value);
    answer := if found.Some? then CandidateText(found.value, found.value.evidenceIds, HUMAN_ONLY) else Refused;
  }

  ghost predicate Investigated(c: Case, id: Option<string>, answer: Answer) {
    if id.Some? && Lists(c.candidates, CandidateIdOf, id.value) then
      && answer.CandidateText? && answer.candidate in c.candidates && answer.candidate.candidateId == id.value
      && answer.evidence == answer.candidate.evidenceIds && answer.finalAuthority == HUMAN_ONLY
    else
      answer == Refused
  }

  /** In a valid case every piece of evidence offered is there. */
  lemma OfferedEvidenceExists(c: Case, id: Option<string>, answer: Answer, r: Reading)
    requires CaseOk(c, r) && Investigated(c, id, answer) && answer.CandidateText?
    ensures forall e :: e in answer.evidence ==> Lists(c.evidence, EvidenceIdOf, e)
  {
    assert CandidateLinked(answer.candidate, c);
  }

  /** The first candidate with an identifier. */
  method FirstCandidate(c: Case, id: string) returns (found: Option<Candidate>)
    ensures found.Some? ==> found.value in c.candidates && found.value.candidateId == id
    ensures found.Some? <==> Lists(c.candidates, CandidateIdOf, id)
  {
    for i := 0 to |c.candidates|
      invariant forall x :: x in c.candidates[..i] ==> x.candidateId != id
    {
      if c.candidates[i].candidateId == id {
        assert CandidateIdOf(c.candidates[i]) == id;
        return Some(c.candidates[i]);
      }
    }
    found := None;
  }

  /** How many requests were answered by staging. */
  function StagedAnswers(answers: seq<Answer>): nat {
    if answers == [] then 0
    else StagedAnswers(answers[..|answers| - 1]) + if answers[|answers| - 1].Staged? then 1 else 0
  }

  lemma StagedAnswersNext(answers: seq<Answer>, answer: Answer)
    ensures StagedAnswers(answers + [answer]) == StagedAnswers(answers) + if answer.Staged? then 1 else 0
  {
    assert (answers + [answer])[..|answers|] == answers;
  }
}
