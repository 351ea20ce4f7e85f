/** The operations that grow a Security Case, and what every run of them keeps. */
module CaseOperations {
  import opened Bytes
  import opened CaseValidator
  import opened Characters
  import opened Json
  import opened Sarif
  import opened SecurityCase
  import opened Sequences
  import opened Wrappers

  // ---------------------------------------------------------------- inputs of the operations

  datatype Finding = Finding(
    id: string, title: string, severity: Option<string>, confidence: string, limitations: seq<string>)

  /** The fields of a run manifest that a case is created from. */
  datatype Run = Run(
    createdAt: string, target: Target, engineName: string, engineVersion: string, reportSha256: string,
    findings: seq<Finding>, bytes: seq<byte>)

  /** The fields of a Secure Skill review envelope; `bytes` is its serialization. */
  datatype Envelope = Envelope(
    targetSha256: string, importId: string, sourceName: string, sourceVersion: string, payloadSha256: string,
    reviewSchema: string, findings: seq<Finding>, bytes: seq<byte>)

  const RUN_METHODOLOGY := "existing validated secureflow run manifest"
  const RUN_EVIDENCE := "validated retained SecureFlow run manifest"
  const REVIEW_EVIDENCE := "validated Secure Skill contextual-review envelope"
  const REVIEW_LIMITATION := "Contextual Secure Skill signal; it is not a Secure Engine rule or a validated finding."

  function RunCandidate(run: Run, finding: Finding, h: Hashing): Candidate {
    var sourceId := IdOfText("sf_source_", run.reportSha256, h);
    Candidate(IdOfText("sf_candidate_", sourceId + "|" + finding.id, h), sourceId, EngineCandidate, finding.title,
              finding.severity, finding.confidence, [IdOfBytes("sf_evidence_", run.bytes, h)], finding.limitations)
  }

  /** `case_from_run`, before its validation. The status is always recorded as authorized. */
  function Created(run: Run, h: Hashing): Case {
    var sourceId := IdOfText("sf_source_", run.reportSha256, h);
    var evidenceId := IdOfBytes("sf_evidence_", run.bytes, h);
    Case(CONTRACT_VERSION, IdOfText("sf_case_", run.target.rootSha256, h), run.createdAt,
         run.target.(authorization := run.target.authorization.(status := "authorized")),
         [Source(sourceId, SecureEngine, run.engineName, run.engineVersion, run.reportSha256, Some(RUN_METHODOLOGY))],
         [Evidence(evidenceId, sourceId, h.ofBytes(run.bytes), RUN_EVIDENCE, None)],
         seq(|run.findings|, i requires 0 <= i < |run.findings| => RunCandidate(run, run.findings[i], h)), [], [])
  }

  function ReviewSource(e: Envelope, h: Hashing): Source {
    Source(IdOfText("sf_source_", e.importId, h), SecureSkillContextual, e.sourceName, e.sourceVersion, e.payloadSha256,
           Some("Secure Skill review contract " + e.reviewSchema + "; contextual only"))
  }

  function ReviewEvidence(e: Envelope, h: Hashing): Evidence {
    Evidence(IdOfBytes("sf_evidence_", e.bytes, h), IdOfText("sf_source_", e.importId, h), h.ofBytes(e.bytes),
             REVIEW_EVIDENCE, None)
  }

  function ReviewCandidate(e: Envelope, finding: Finding, h: Hashing): Candidate {
    var sourceId := IdOfText("sf_source_", e.importId, h);
    Candidate(IdOfText("sf_candidate_", sourceId + "|" + finding.id, h), sourceId, ContextualCandidate, finding.title,
              finding.severity, finding.confidence, [IdOfBytes("sf_evidence_", e.bytes, h)], [REVIEW_LIMITATION])
  }

  function ReviewCandidates(e: Envelope, h: Hashing): seq<Candidate> {
    seq(|e.findings|, i requires 0 <= i < |e.findings| => ReviewCandidate(e, e.findings[i], h))
  }

  datatype StageRequest = StageRequest(
    candidateId: string, agentName: string, recommendation: string, rationale: string, createdAt: string)

  function StagedRecord(q: StageRequest, h: Hashing): Stage {
    Stage(IdOfText("sf_stage_", q.candidateId + "|" + q.agentName + "|" + q.createdAt, h),
          q.candidateId, q.agentName, q.recommendation, q.rationale, q.createdAt)
  }

  datatype DecideRequest = DecideRequest(
    candidateId: string, verdict: Verdict, reviewer: string, rationale: string, reference: Option<string>,
    decidedAt: string)

  function DecisionRecord(q: DecideRequest, h: Hashing): Decision {
    Decision(IdOfText("sf_decision_", q.candidateId + "|" + q.reviewer + "|" + q.decidedAt, h),
             q.candidateId, q.verdict, q.reviewer, q.rationale, q.decidedAt, q.reference)
  }

  /** The command's fields after trimming; a blank reference is none. */
  function Trimmed(q: DecideRequest, white: char -> bool): DecideRequest {
    q.(reviewer := Trim(q.reviewer, white), rationale := Trim(q.rationale, white),
       reference := if q.reference.None? || Trim(q.reference.value, white) == [] then None
                    else Some(Trim(q.reference.value, white)))
  }

  /** `checked_review_field`, which counts characters. */
  predicate FieldsChecked(q: DecideRequest) {
    && 1 <= |q.reviewer| <= 200 && 1 <= |q.rationale| <= 3000
    && (q.reference.Some? ==> 1 <= |q.reference.value| <= 300)
  }

  /** What validation accepts in bytes has passed in characters. */
  lemma CheckedIsImplied(c: Case, q: DecideRequest, h: Hashing, r: Reading)
    ensures CaseOk(Pushed(c, Decide(q), h), r) ==> FieldsChecked(q)
  {
    var d := Pushed(c, Decide(q), h);
    var record := DecisionRecord(q, h);
    assert d.decisions[|c.decisions|] == record && record in d.decisions;
    Utf8Bound(q.reviewer);
    Utf8Bound(q.rationale);
    if q.reference.Some? {
      Utf8Bound(q.reference.value);
    }
  }

  // ---------------------------------------------------------------- operations on values

  datatype Operation =
    | ImportReview(envelope: Envelope)
    | ImportDocument(bytes: seq<byte>, doc: Json, name: string, version: string)
    | StageAdvice(stage: StageRequest)
    | Decide(decide: DecideRequest)

  /** What each operation insists on before it touches the case. */
  ghost predicate Admits(c: Case, op: Operation, white: char -> bool) {
    match op
    case ImportReview(e) => e.targetSha256 == c.target.rootSha256
    case ImportDocument(_, doc, _, _) => IsSarif(doc)
    case StageAdvice(q) =>
      && Lists(c.candidates, CandidateIdOf, q.candidateId)
      && !Blank(q.agentName, white) && !Blank(q.rationale, white)
      && q.recommendation in {"validated", "rejected", "abstained"}
    case Decide(q) =>
      Lists(c.candidates, CandidateIdOf, q.candidateId) && !Lists(c.decisions, DecidedCandidateOf, q.candidateId)
  }

  /** The case with the operation's records pushed. */
  function Pushed(c: Case, op: Operation, h: Hashing): Case {
    match op
    case ImportReview(e) =>
      c.(sources := c.sources + [ReviewSource(e, h)], evidence := c.evidence + [ReviewEvidence(e, h)],
         candidates := c.candidates + ReviewCandidates(e, h))
    case ImportDocument(bytes, doc, name, version) => Imported(c, bytes, doc, name, version, h)
    case StageAdvice(q) => c.(staged := c.staged + [StagedRecord(q, h)])
    case Decide(q) => c.(decisions := c.decisions + [DecisionRecord(q, h)])
  }

  /** A successful operation: admitted, pushed, and valid afterwards. */
  ghost predicate Step(c: Case, op: Operation, d: Case, h: Hashing, r: Reading) {
    Admits(c, op, r.white) && d == Pushed(c, op, h) && CaseOk(d, r)
  }

  // ---------------------------------------------------------------- operations in place

  /** The case a command works on. A failed validation leaves the pushed records behind, so a caller
      may keep the case only after success. */
  class CaseCell {
    var value: Case

    constructor (value: Case)
      ensures this.value == value
    {
      this.value := value;
    }

    method AddHumanDecision(q: DecideRequest, h: Hashing, r: Reading) returns (res: Result<(), CaseError>)
      modifies this
      ensures Lists(old(value).decisions, DecidedCandidateOf, q.candidateId) ==>
                res == Err(InvalidState) && value == old(value)
      ensures !Lists(old(value).decisions, DecidedCandidateOf, q.candidateId) ==>
                value == Pushed(old(value), Decide(q), h) && (res.Ok? <==> CaseOk(value, r))
      // Spelled out: one decision more, the one asked for, and nothing else.
      ensures res.Ok? ==>
                && |value.decisions| == |old(value).decisions| + 1
                && value == old(value).(decisions := value.decisions)
                && value.decisions[..|old(value).decisions|] == old(value).decisions
                && var d := value.decisions[|old(value).decisions|];
                   && d.candidateId == q.candidateId && d.verdict == q.verdict && d.decidedAt == q.decidedAt
                   && d.reviewer == q.reviewer && d.rationale == q.rationale && d.evidenceReference == q.reference
                   && d.decisionId == "sf_decision_"
                                      + First32(h.ofText(q.candidateId + "|" + q.reviewer + "|" + q.decidedAt))
    {
      for i := 0 to |value.decisions|
        invariant forall d :: d in value.decisions[..i] ==> d.candidateId != q.candidateId
      {
        if value.decisions[i].candidateId == q.candidateId {
          assert DecidedCandidateOf(value.decisions[i]) == q.candidateId;
          return Err(InvalidState);
        }
      }
      value := value.(decisions := value.decisions + [DecisionRecord(q, h)]);
      res := Validate(value, r);
    }

    /** The `decide` command: the candidate must exist and the trimmed fields must be short enough, then the
        decision is added. Validation bounds the same fields more tightly, so the first test never decides alone. */
    method DecideCommand(raw: DecideRequest, h: Hashing, r: Reading) returns (res: Result<(), CaseError>)
      modifies this
      ensures var op := Decide(Trimmed(raw, r.white));
              && (res.Ok? <==> Step(old(value), op, Pushed(old(value), op, h), h, r))
              && (res.Ok? ==> value == Pushed(old(value), op, h))
      // Spelled out: one decision more, with the verdict and the texts asked for, white space around them dropped.
      ensures res.Ok? ==>
                && |value.decisions| == |old(value).decisions| + 1
                && value == old(value).(decisions := value.decisions)
                && value.decisions[..|old(value).decisions|] == old(value).decisions
                && var d := value.decisions[|old(value).decisions|];
                   && d.candidateId == raw.candidateId && d.verdict == raw.verdict && d.decidedAt == raw.decidedAt
                   && Core(raw.reviewer, d.reviewer, r.white) && Core(raw.rationale, d.rationale, r.white)
                   && (d.evidenceReference.None? <==>
                         raw.reference.None? || forall c :: c in raw.reference.value ==> r.white(c))
                   && (d.evidenceReference.Some? ==>
                         raw.reference.Some? && Core(raw.reference.value, d.evidenceReference.value, r.white))
    {
      TrimIsCore(raw.reviewer, r.white);
      TrimIsCore(raw.rationale, r.white);
      if raw.reference.Some? {
        TrimIsCore(raw.reference.value, r.white);
      }
      ghost var start := value;
      var found := FindCandidate(value, raw.candidateId);
      if !found {
        return Err(MissingReference);
      }
      var q := Trimmed(raw, r.white);
      CheckedIsImplied(start, q, h, r);
      if !FieldsChecked(q) {
        return Err(InvalidField);
      }
      res := AddHumanDecision(q, h, r);
    }

    method ImportSarif(bytes: seq<byte>, doc: Json, name: string, version: string, h: Hashing, r: Reading)
      returns (res: Result<nat, CaseError>)
      modifies this
      ensures var op := ImportDocument(bytes, doc, name, version);
              && (res.Ok? <==> Step(old(value), op, Pushed(old(value), op, h), h, r))
              && (res.Ok? ==> value == Pushed(old(value), op, h) && res.value == |Results(doc)|)
              && (!IsSarif(doc) ==> value == old(value))
      ensures res.Ok? ==> doc.Object? && "version" in doc.members && doc.members["version"] == Text("2.1.0")
      ensures res.Ok? ==> DocumentAdded(old(value), value, bytes, doc, name, version, h)
      // On a valid case the class claimed is never the reason for a refusal.
      ensures CaseOk(old(value), r) ==> res != Err(InvalidState)
    {
      if !IsSarif(doc) {
        return Err(InvalidField);
      }
      var source, evidence := ImportedSource(bytes, name, version, h), ImportedEvidence(bytes, h);
      value := value.(sources := value.sources + [source], evidence := value.evidence + [evidence]);
      var count := PushResults(bytes, Results(doc), h);
      var valid := Validate(value, r);
      res := if valid.Ok? then Ok(count) else Err(valid.error);
      PushedDocument(old(value), bytes, doc, name, version, h);
      DocumentState(old(value), bytes, doc, name, version, h, r);
    }

    /** The loop of the import: one candidate per result, numbered from zero. */
    method PushResults(bytes: seq<byte>, results: seq<Json>, h: Hashing) returns (count: nat)
      modifies this
      ensures value == old(value).(candidates := old(value).candidates + ImportedCandidates(bytes, results, h))
      ensures count == |results|
    {
      ghost var added := ImportedCandidates(bytes, results, h);
      ghost var start := value.candidates;
      count := 0;
      while count < |results|
        invariant 0 <= count <= |results|
        invariant value == old(value).(candidates := start + added[..count])
      {
        var next := ImportedCandidate(bytes, results[count], count, h);
        TakeNext(start, added, count, next);
        value := value.(candidates := value.candidates + [next]);
        count := count + 1;
      }
      assert added[..count] == added;
    }

    method ImportSecureReview(e: Envelope, h: Hashing, r: Reading) returns (res: Result<(), CaseError>)
      modifies this
      ensures res.Ok? <==> Step(old(value), ImportReview(e), Pushed(old(value), ImportReview(e), h), h, r)
      ensures res.Ok? ==> value == Pushed(old(value), ImportReview(e), h)
      ensures e.targetSha256 != old(value).target.rootSha256 ==> value == old(value)
      ensures res.Ok? ==> e.targetSha256 == old(value).target.rootSha256 && ReviewAdded(old(value), value, e, h)
      // On a valid case the class claimed is never the reason for a refusal.
      ensures CaseOk(old(value), r) ==> res != Err(InvalidState)
    {
      if e.targetSha256 != value.target.rootSha256 {
        return Err(MissingReference);
      }
      value := value.(sources := value.sources + [ReviewSource(e, h)],
                      evidence := value.evidence + [ReviewEvidence(e, h)]);
      PushFindings(e, h);
      res := Validate(value, r);
      ReviewState(old(value), e, h, r);
      PushedReview(old(value), e, h);
    }

    /** The loop of the review import: one candidate per finding. */
    method PushFindings(e: Envelope, h: Hashing)
      modifies this
      ensures value == old(value).(candidates := old(value).candidates + ReviewCandidates(e, h))
    {
      ghost var added := ReviewCandidates(e, h);
      for i := 0 to |e.findings|
        invariant value == old(value).(candidates := old(value).candidates + added[..i])
      {
        var next := ReviewCandidate(e, e.findings[i], h);
        TakeNext(old(value).candidates, added, i, next);
        value := value.(candidates := value.candidates + [next]);
      }
      assert added[..|e.findings|] == added;
    }
  }

  /** One external source, the document as evidence and, in order, a candidate for each result; nothing else. */
  ghost predicate DocumentAdded(c: Case, d: Case, bytes: seq<byte>, doc: Json, name: string, version: string,
                                h: Hashing) {
    var results := Results(doc);
    && d == c.(sources := d.sources, evidence := d.evidence, candidates := d.candidates)
    && |d.sources| == |c.sources| + 1 && c.sources <= d.sources
    && |d.evidence| == |c.evidence| + 1 && c.evidence <= d.evidence
    && |d.candidates| == |c.candidates| + |results| && c.candidates <= d.candidates
    && var s, v := d.sources[|c.sources|], d.evidence[|c.evidence|];
       && s.kind == ExternalSarif && s.name == name && s.version == version && s.artifactSha256 == h.ofBytes(bytes)
       && s.sourceId == "sf_source_" + First32(h.ofBytes(bytes))
       && v.evidenceId == "sf_evidence_" + First32(h.ofBytes(bytes))
       && v.sourceId == s.sourceId && v.sha256 == h.ofBytes(bytes) && v.relativePath.None?
       && forall i :: 0 <= i < |results| ==> FromResult(d.candidates[|c.candidates| + i], results[i], s, v)
  }

  ghost predicate FromResult(x: Candidate, result: Json, s: Source, v: Evidence) {
    && Describes(x, result) && x.class_ == ExternalToolCandidate && x.confidence == "unknown"
    && x.sourceId == s.sourceId && x.evidenceIds == [v.evidenceId] && x.limitations == [LIMITATION]
  }

  lemma ImportedFromResult(bytes: seq<byte>, result: Json, count: nat, name: string, version: string, h: Hashing)
    ensures FromResult(ImportedCandidate(bytes, result, count, h), result, ImportedSource(bytes, name, version, h),
                       ImportedEvidence(bytes, h))
  {
    ImportedDescribes(bytes, result, count, h);
  }

  lemma PushedDocument(c: Case, bytes: seq<byte>, doc: Json, name: string, version: string, h: Hashing)
    ensures DocumentAdded(c, Imported(c, bytes, doc, name, version, h), bytes, doc, name, version, h)
  {
    var results, added := Results(doc), ImportedCandidates(bytes, Results(doc), h);
    var d := Imported(c, bytes, doc, name, version, h);
    var s, v := ImportedSource(bytes, name, version, h), ImportedEvidence(bytes, h);
    assert d.sources[|c.sources|] == s && d.evidence[|c.evidence|] == v;
    forall i | 0 <= i < |results|
      ensures FromResult(d.candidates[|c.candidates| + i], results[i], s, v)
    {
      ImportedFromResult(bytes, results[i], i, name, version, h);
      assert d.candidates[|c.candidates| + i] == added[i] == ImportedCandidate(bytes, results[i], i, h);
    }
  }

  lemma DocumentState(c: Case, bytes: seq<byte>, doc: Json, name: string, version: string, h: Hashing, r: Reading)
    ensures var d := Imported(c, bytes, doc, name, version, h);
            CaseOk(c, r) && Unique(d.sources, SourceIdOf) ==> StateOk(d)
  {
    var d, source := Imported(c, bytes, doc, name, version, h), ImportedSource(bytes, name, version, h);
    if CaseOk(c, r) && Unique(d.sources, SourceIdOf) {
      NewSourceState(c, d, source, ExternalToolCandidate);
    }
  }

  /** One contextual source, one piece of evidence and, in order, a candidate for each finding; nothing else. */
  ghost predicate ReviewAdded(c: Case, d: Case, e: Envelope, h: Hashing) {
    && d == c.(sources := d.sources, evidence := d.evidence, candidates := d.candidates)
    && |d.sources| == |c.sources| + 1 && c.sources <= d.sources
    && |d.evidence| == |c.evidence| + 1 && c.evidence <= d.evidence
    && |d.candidates| == |c.candidates| + |e.findings| && c.candidates <= d.candidates
    && var s, v := d.sources[|c.sources|], d.evidence[|c.evidence|];
       && s.kind == SecureSkillContextual && s.name == e.sourceName && s.version == e.sourceVersion
       && s.artifactSha256 == e.payloadSha256
       && s.sourceId == "sf_source_" + First32(h.ofText(e.importId))
       && v.evidenceId == "sf_evidence_" + First32(h.ofBytes(e.bytes))
       && v.sourceId == s.sourceId && v.sha256 == h.ofBytes(e.bytes) && v.relativePath.None?
       && forall i :: 0 <= i < |e.findings| ==>
            var x, f := d.candidates[|c.candidates| + i], e.findings[i];
            && x.title == f.title && x.severity == f.severity && x.confidence == f.confidence
            && x.limitations == [REVIEW_LIMITATION] && x.class_ == ContextualCandidate
            && x.sourceId == s.sourceId && x.evidenceIds == [v.evidenceId]
            && x.candidateId == "sf_candidate_" + First32(h.ofText(x.sourceId + "|" + f.id))
  }

  lemma PushedReview(c: Case, e: Envelope, h: Hashing)
    ensures ReviewAdded(c, Pushed(c, ImportReview(e), h), e, h)
  {
  }

  /** A review whose source is new claims nothing that its source may not. */
  lemma ReviewState(c: Case, e: Envelope, h: Hashing, r: Reading)
    ensures CaseOk(c, r) && Unique(Pushed(c, ImportReview(e), h).sources, SourceIdOf) ==>
              StateOk(Pushed(c, ImportReview(e), h))
  {
    var d, source := Pushed(c, ImportReview(e), h), ReviewSource(e, h);
    if CaseOk(c, r) && Unique(d.sources, SourceIdOf) {
      NewSourceState(c, d, source, ContextualCandidate);
    }
  }

  lemma NewSourceState(c: Case, d: Case, source: Source, class_: CandidateClass)
    requires NoDangling(c) && StateOk(c) && d.sources == c.sources + [source] && d.target == c.target
    requires Unique(d.sources, SourceIdOf) && ClassMatches(source.kind, class_)
    requires c.candidates <= d.candidates
    requires forall x :: x in d.candidates[|c.candidates|..] ==> x.sourceId == source.sourceId && x.class_ == class_
    ensures StateOk(d)
  {
    var n := |c.sources|;
    assert d.sources[n] == source;
    forall s | s in c.sources
      ensures s.sourceId != source.sourceId
    {
      var k :| 0 <= k < n && c.sources[k] == s;
      assert d.sources[k] == s && SourceIdOf(d.sources[k]) != SourceIdOf(d.sources[n]);
    }
    forall x, s | x in d.candidates && s in d.sources && s.sourceId == x.sourceId
      ensures ClassMatches(s.kind, x.class_)
    {
      assert s in c.sources || s == source;
      assert x in c.candidates || x in d.candidates[|c.candidates|..];
      if x in c.candidates {
        assert CandidateLinked(x, c);
      }
    }
  }

  method FindCandidate(c: Case, candidateId: string) returns (found: bool)
    ensures found <==> Lists(c.candidates, CandidateIdOf, candidateId)
  {
    for i := 0 to |c.candidates|
      invariant forall x :: x in c.candidates[..i] ==> x.candidateId != candidateId
    {
      if c.candidates[i].candidateId == candidateId {
        assert CandidateIdOf(c.candidates[i]) == candidateId;
        return true;
      }
    }
    found := false;
  }

  method CaseFromRun(run: Run, h: Hashing, r: Reading) returns (res: Result<Case, CaseError>)
    ensures res.Ok? <==> CaseOk(Created(run, h), r)
    ensures res.Ok? ==> res.value == Created(run, h)
    // Spelled out: an authorized case about the run's target, resting on the engine alone, finding by finding.
    ensures res.Ok? ==>
              var c := res.value;
              && c.createdAt == run.createdAt && c.staged == [] && c.decisions == []
              && c.caseId == "sf_case_" + First32(h.ofText(run.target.rootSha256))
              && c.target == run.target.(authorization := run.target.authorization.(status := "authorized"))
              && |c.sources| == 1 && c.sources[0].kind == SecureEngine && c.sources[0].name == run.engineName
              && c.sources[0].version == run.engineVersion && c.sources[0].artifactSha256 == run.reportSha256
              && |c.evidence| == 1 && c.evidence[0].sourceId == c.sources[0].sourceId
              && c.evidence[0].sha256 == h.ofBytes(run.bytes)
              && c.sources[0].sourceId == "sf_source_" + First32(h.ofText(run.reportSha256))
              && c.evidence[0].evidenceId == "sf_evidence_" + First32(h.ofBytes(run.bytes))
              && |c.candidates| == |run.findings|
              && forall i :: 0 <= i < |run.findings| ==>
                   var x, f := c.candidates[i], run.findings[i];
                   && x.title == f.title && x.severity == f.severity && x.confidence == f.confidence
                   && x.limitations == f.limitations && x.class_ == EngineCandidate
                   && x.sourceId == c.sources[0].sourceId && x.evidenceIds == [c.evidence[0].evidenceId]
                   && x.candidateId == "sf_candidate_" + First32(h.ofText(x.sourceId + "|" + f.id))
    // The class a run's candidates claim is never the reason for a refusal.
    ensures res != Err(InvalidState)
  {
    var c := Created(run, h);
    assert StateOk(c);
    var valid := Validate(c, r);
    res := if valid.Ok? then Ok(c) else Err(valid.error);
  }

  // ---------------------------------------------------------------- every run

  /** A case and everything that successful operations made of it. */
  ghost predicate IsHistory(cases: seq<Case>, ops: seq<Operation>, h: Hashing, r: Reading) {
    && |cases| == |ops| + 1 && CaseOk(cases[0], r)
    && forall i :: 0 <= i < |ops| ==> StepsAt(cases, ops, h, r, i)
  }

  ghost predicate StepsAt(cases: seq<Case>, ops: seq<Operation>, h: Hashing, r: Reading, i: nat)
    requires |cases| == |ops| + 1 && i < |ops|
  {
    Step(cases[i], ops[i], cases[i + 1], h, r)
  }

  /** Records are only ever appended, and what identifies the case never changes. */
  ghost predicate Grows(c: Case, d: Case) {
    && d.contractVersion == c.contractVersion && d.caseId == c.caseId && d.createdAt == c.createdAt
    && d.target == c.target
    && c.sources <= d.sources && c.evidence <= d.evidence && c.candidates <= d.candidates
    && c.staged <= d.staged && c.decisions <= d.decisions
  }

  lemma PushGrows(c: Case, op: Operation, h: Hashing)
    ensures Grows(c, Pushed(c, op, h))
    ensures |Pushed(c, op, h).decisions| == |c.decisions| + if op.Decide? then 1 else 0
  {
  }

  lemma GrowsTransitive(a: Case, b: Case, c: Case)
    requires Grows(a, b) && Grows(b, c)
    ensures Grows(a, c)
  {
  }

  lemma GrowsAt(cases: seq<Case>, ops: seq<Operation>, h: Hashing, r: Reading, i: nat)
    requires IsHistory(cases, ops, h, r) && i < |ops|
    ensures CaseOk(cases[i + 1], r) && Grows(cases[i], cases[i + 1])
    ensures |cases[i + 1].decisions| == |cases[i].decisions| + if ops[i].Decide? then 1 else 0
  {
    StepAt(cases, ops, h, r, i);
    PushGrows(cases[i], ops[i], h);
  }

  lemma StepAt(cases: seq<Case>, ops: seq<Operation>, h: Hashing, r: Reading, i: nat)
    requires IsHistory(cases, ops, h, r) && i < |ops|
    ensures Step(cases[i], ops[i], cases[i + 1], h, r)
  {
    assert StepsAt(cases, ops, h, r, i);
  }

  lemma {:induction false} HistoryGrows(cases: seq<Case>, ops: seq<Operation>, h: Hashing, r: Reading, i: nat, j: nat)
    requires IsHistory(cases, ops, h, r) && i <= j <= |ops|
    ensures CaseOk(cases[j], r) && Grows(cases[i], cases[j])
    decreases j - i
  {
    if j > 0 {
      GrowsAt(cases, ops, h, r, j - 1);
    }
    if i < j {
      HistoryGrows(cases, ops, h, r, i, j - 1);
      GrowsTransitive(cases[i], cases[j - 1], cases[j]);
    }
  }

  /** A decision, once taken, stays, and stays the only one on its candidate. */
  lemma DecisionsAreFinal(cases: seq<Case>, ops: seq<Operation>, h: Hashing, r: Reading, i: nat, j: nat, d: Decision)
    requires IsHistory(cases, ops, h, r) && i <= j <= |ops| && d in cases[i].decisions
    ensures d in cases[j].decisions
    ensures forall e :: e in cases[j].decisions && e.candidateId == d.candidateId ==> e == d
  {
    HistoryGrows(cases, ops, h, r, i, j);
    PrefixMember(cases[i].decisions, cases[j].decisions, d);
    forall e | e in cases[j].decisions && e.candidateId == d.candidateId
      ensures e == d
    {
      UniqueMember(cases[j].decisions, d, e);
    }
  }

  lemma UniqueMember(decisions: seq<Decision>, d: Decision, e: Decision)
    requires Unique(decisions, DecidedCandidateOf)
    requires d in decisions && e in decisions && d.candidateId == e.candidateId
    ensures d == e
  {
    var k :| 0 <= k < |decisions| && decisions[k] == d;
    var m :| 0 <= m < |decisions| && decisions[m] == e;
    assert DecidedCandidateOf(decisions[k]) == DecidedCandidateOf(decisions[m]);
  }

  function DecideCount(ops: seq<Operation>): nat {
    if ops == [] then 0 else (if ops[|ops| - 1].Decide? then 1 else 0) + DecideCount(ops[..|ops| - 1])
  }

  lemma DecideCountNext(ops: seq<Operation>, i: nat)
    requires i < |ops|
    ensures DecideCount(ops[..i + 1]) == DecideCount(ops[..i]) + if ops[i].Decide? then 1 else 0
  {
    assert ops[..i + 1][..i] == ops[..i];
  }

  /** Only the human operation decides: imports and staged advice never add, drop or change a decision. */
  lemma {:induction false} OnlyDecideDecides(cases: seq<Case>, ops: seq<Operation>, h: Hashing, r: Reading, j: nat)
    requires IsHistory(cases, ops, h, r) && j <= |ops|
    ensures |cases[j].decisions| == |cases[0].decisions| + DecideCount(ops[..j])
  {
    if j > 0 {
      OnlyDecideDecides(cases, ops, h, r, j - 1);
      GrowsAt(cases, ops, h, r, j - 1);
      DecideCountNext(ops, j - 1);
    }
  }

  /** At every point of every history a candidate rests on an existing source of exactly its own kind, and on
      no other, so never on an agent. */
  lemma AuthorityAlwaysHolds(cases: seq<Case>, ops: seq<Operation>, h: Hashing, r: Reading, j: nat, x: Candidate)
    requires IsHistory(cases, ops, h, r) && j <= |ops| && x in cases[j].candidates
    ensures exists s :: s in cases[j].sources && s.sourceId == x.sourceId
    ensures forall s :: s in cases[j].sources && s.sourceId == x.sourceId ==>
              && s.kind != Agent
              && (x.class_ == EngineCandidate <==> s.kind == SecureEngine)
              && (x.class_ == ContextualCandidate <==> s.kind == SecureSkillContextual)
              && (x.class_ == ExternalToolCandidate <==> s.kind == ExternalSarif)
  {
    HistoryGrows(cases, ops, h, r, j, j);
    CaseAuthority(cases[j], x, r);
  }

  lemma CaseAuthority(c: Case, x: Candidate, r: Reading)
    requires CaseOk(c, r) && x in c.candidates
    ensures exists s :: s in c.sources && s.sourceId == x.sourceId
    ensures forall s :: s in c.sources && s.sourceId == x.sourceId ==> ClassMatches(s.kind, x.class_)
  {
    assert CandidateLinked(x, c);
    var s :| s in c.sources && SourceIdOf(s) == x.sourceId;
  }

  lemma DocumentAt(cases: seq<Case>, ops: seq<Operation>, h: Hashing, r: Reading, i: nat)
    requires IsHistory(cases, ops, h, r) && i < |ops| && ops[i].ImportDocument?
    ensures cases[i + 1].sources == cases[i].sources + [ImportedSource(ops[i].bytes, ops[i].name, ops[i].version, h)]
    ensures Unique(cases[i + 1].sources, SourceIdOf)
  {
    StepAt(cases, ops, h, r, i);
  }

  /** The identifier of the source appended last is not among the earlier ones. */
  lemma LastIsNew(sources: seq<Source>, k: nat)
    requires Unique(sources, SourceIdOf) && k + 1 < |sources|
    ensures SourceIdOf(sources[k]) != SourceIdOf(sources[|sources| - 1])
  {
  }

  /** A document's bytes name its source, so while that source is there the bytes are never imported again. */
  lemma ReimportAlwaysFails(cases: seq<Case>, ops: seq<Operation>, h: Hashing, r: Reading, i: nat, j: nat)
    requires IsHistory(cases, ops, h, r) && i < j < |ops|
    requires ops[i].ImportDocument? && ops[j].ImportDocument?
    ensures ops[i].bytes != ops[j].bytes
  {
    HistoryGrows(cases, ops, h, r, i + 1, j);
    DocumentAt(cases, ops, h, r, i);
    DocumentAt(cases, ops, h, r, j);
    var k := |cases[i].sources|;
    assert cases[j + 1].sources[k] == cases[j].sources[k] == cases[i + 1].sources[k];
    LastIsNew(cases[j + 1].sources, k);
  }
}
