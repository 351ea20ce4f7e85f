/** The Security Case contract once more, spelled out record by record with its literal bounds, and the proof that
    both validators accept exactly that. */
module CasePromise {
  import opened Characters
  import opened SecurityCase
  import opened Wrappers

  // ---------------------------------------------------------------- fields

  predicate IsId(s: string, prefix: string) {
    && prefix <= s && 16 <= |s| - |prefix| && |s| <= 100
    && forall i :: 0 <= i < |s| ==> 97 <= s[i] as int <= 122 || 48 <= s[i] as int <= 57 || s[i] == '_'
  }

  predicate IsSha(s: string) {
    |s| == 64 && forall i :: 0 <= i < |s| ==> 48 <= s[i] as int <= 57 || 97 <= s[i] as int <= 102
  }

  /** Something visible, in at most so many bytes. */
  ghost predicate IsText(s: string, limit: nat, white: char -> bool) {
    (exists i :: 0 <= i < |s| && !white(s[i])) && Utf8Length(s) <= limit
  }

  ghost predicate MayBeText(s: Option<string>, limit: nat, white: char -> bool) {
    s == None || IsText(s.value, limit, white)
  }

  lemma FieldMeanings(s: string, prefix: string, limit: nat, r: Reading)
    ensures IdOk(s, prefix) <==> IsId(s, prefix)
    ensures ShaOk(s) <==> IsSha(s)
    ensures TextOk(s, limit, r) <==> IsText(s, limit, r.white)
  {
    forall i | 0 <= i < |s|
      ensures s[i] in s
    {
    }
    if !Blank(s, r.white) {
      var c :| c in s && !r.white(c);
      var i :| 0 <= i < |s| && s[i] == c;
    }
  }

  // ---------------------------------------------------------------- records

  ghost predicate Header(c: Case, r: Reading) {
    && c.contractVersion == "secureflow-security-case-v1" && IsId(c.caseId, "sf_case_") && r.timestamp(c.createdAt)
    && IsText(c.target.targetLabel, 200, r.white) && IsSha(c.target.rootSha256)
    && c.target.authorization.status == "authorized"
    && IsText(c.target.authorization.basis, 100, r.white) && IsText(c.target.authorization.reviewer, 200, r.white)
    && MayBeText(c.target.authorization.reference, 300, r.white)
    && (c.target.authorization.expiresAt == None || r.timestamp(c.target.authorization.expiresAt.value))
    && (c.target.revision == None || (IsText(c.target.revision.value.kind, 40, r.white)
                                      && IsText(c.target.revision.value.value, 200, r.white)))
  }

  lemma HeaderMeaning(c: Case, r: Reading)
    ensures Header(c, r) <==> HeaderPart(c, r)
  {
    var authorization := c.target.authorization;
    FieldMeanings(c.caseId, "sf_case_", 0, r);
    FieldMeanings(c.target.targetLabel, "", 200, r);
    FieldMeanings(c.target.rootSha256, "", 0, r);
    FieldMeanings(authorization.basis, "", 100, r);
    FieldMeanings(authorization.reviewer, "", 200, r);
    if authorization.reference.Some? {
      FieldMeanings(authorization.reference.value, "", 300, r);
    }
    if c.target.revision.Some? {
      FieldMeanings(c.target.revision.value.kind, "", 40, r);
      FieldMeanings(c.target.revision.value.value, "", 200, r);
    }
  }

  ghost predicate Sources(c: Case, r: Reading) {
    && (forall i :: 0 <= i < |c.sources| ==>
          var s := c.sources[i];
          && IsId(s.sourceId, "sf_source_") && IsText(s.name, 200, r.white) && IsText(s.version, 200, r.white)
          && IsSha(s.artifactSha256) && MayBeText(s.methodology, 2000, r.white))
    && (forall i, j :: 0 <= i < j < |c.sources| ==> c.sources[i].sourceId != c.sources[j].sourceId)
  }

  ghost predicate HasSource(c: Case, id: string) {
    exists k :: 0 <= k < |c.sources| && c.sources[k].sourceId == id
  }

  ghost predicate EvidenceList(c: Case, r: Reading) {
    && (forall i :: 0 <= i < |c.evidence| ==>
          var e := c.evidence[i];
          && IsId(e.evidenceId, "sf_evidence_") && IsSha(e.sha256) && IsText(e.description, 4000, r.white)
          && (e.relativePath == None || r.path(e.relativePath.value)) && HasSource(c, e.sourceId))
    && (forall i, j :: 0 <= i < j < |c.evidence| ==> c.evidence[i].evidenceId != c.evidence[j].evidenceId)
  }

  ghost predicate HasEvidence(c: Case, id: string) {
    exists k :: 0 <= k < |c.evidence| && c.evidence[k].evidenceId == id
  }

  ghost predicate CandidateAlone(x: Candidate, c: Case, r: Reading) {
    && IsId(x.candidateId, "sf_candidate_") && IsText(x.title, 500, r.white)
    && IsText(x.confidence, 40, r.white) && MayBeText(x.severity, 40, r.white)
    && (forall k :: 0 <= k < |x.limitations| ==> IsText(x.limitations[k], 4000, r.white))
    && (forall k :: 0 <= k < |x.evidenceIds| ==> HasEvidence(c, x.evidenceIds[k]))
    && HasSource(c, x.sourceId)
  }

  ghost predicate Candidates(c: Case, r: Reading) {
    && (forall i :: 0 <= i < |c.candidates| ==> CandidateAlone(c.candidates[i], c, r))
    && (forall i, j :: 0 <= i < j < |c.candidates| ==> c.candidates[i].candidateId != c.candidates[j].candidateId)
    && (forall i, k :: 0 <= i < |c.candidates| && 0 <= k < |c.sources|
                       && c.sources[k].sourceId == c.candidates[i].sourceId ==>
          && (c.candidates[i].class_ == EngineCandidate <==> c.sources[k].kind == SecureEngine)
          && (c.candidates[i].class_ == ContextualCandidate <==> c.sources[k].kind == SecureSkillContextual)
          && (c.candidates[i].class_ == ExternalToolCandidate <==> c.sources[k].kind == ExternalSarif))
  }

  ghost predicate HasCandidate(c: Case, id: string) {
    exists k :: 0 <= k < |c.candidates| && c.candidates[k].candidateId == id
  }

  ghost predicate Stages(c: Case, r: Reading) {
    && (forall i :: 0 <= i < |c.staged| ==>
          var s := c.staged[i];
          && IsId(s.stageId, "sf_stage_") && IsText(s.agentName, 200, r.white)
          && IsText(s.recommendation, 40, r.white) && IsText(s.rationale, 3000, r.white) && r.timestamp(s.createdAt)
          && HasCandidate(c, s.candidateId))
    && (forall i, j :: 0 <= i < j < |c.staged| ==> c.staged[i].stageId != c.staged[j].stageId)
  }

  ghost predicate Decisions(c: Case, r: Reading) {
    && (forall i :: 0 <= i < |c.decisions| ==>
          var d := c.decisions[i];
          && IsId(d.decisionId, "sf_decision_") && IsText(d.reviewer, 200, r.white)
          && IsText(d.rationale, 3000, r.white) && r.timestamp(d.decidedAt)
          && MayBeText(d.evidenceReference, 300, r.white) && HasCandidate(c, d.candidateId))
    && (forall i, j :: 0 <= i < j < |c.decisions| ==>
          c.decisions[i].decisionId != c.decisions[j].decisionId
          && c.decisions[i].candidateId != c.decisions[j].candidateId)
  }

  // ---------------------------------------------------------------- the two statements agree

  // The other statement, list by list.

  ghost predicate HeaderPart(c: Case, r: Reading) {
    c.contractVersion == CONTRACT_VERSION && HeaderFieldsOk(c, r) && c.target.authorization.status == "authorized"
  }

  ghost predicate SourcePart(c: Case, r: Reading) {
    (forall s :: s in c.sources ==> SourceFieldsOk(s, r)) && Unique(c.sources, SourceIdOf)
  }

  ghost predicate EvidencePart(c: Case, r: Reading) {
    && (forall e :: e in c.evidence ==> EvidenceFieldsOk(e, r)) && Unique(c.evidence, EvidenceIdOf)
    && (forall e :: e in c.evidence ==> Lists(c.sources, SourceIdOf, e.sourceId))
  }

  ghost predicate CandidatePart(c: Case, r: Reading) {
    && (forall x :: x in c.candidates ==> CandidateFieldsOk(x, r) && CandidateLinked(x, c))
    && Unique(c.candidates, CandidateIdOf) && ClassPart(c)
  }

  ghost predicate ClassPart(c: Case) {
    forall x, s :: x in c.candidates && s in c.sources && s.sourceId == x.sourceId ==> ClassMatches(s.kind, x.class_)
  }

  ghost predicate StagePart(c: Case, r: Reading) {
    && (forall s :: s in c.staged ==> StageFieldsOk(s, r)) && Unique(c.staged, StageIdOf)
    && (forall s :: s in c.staged ==> Lists(c.candidates, CandidateIdOf, s.candidateId))
  }

  ghost predicate DecisionPart(c: Case, r: Reading) {
    && (forall d :: d in c.decisions ==> DecisionFieldsOk(d, r))
    && Unique(c.decisions, DecisionIdOf) && Unique(c.decisions, DecidedCandidateOf)
    && (forall d :: d in c.decisions ==> Lists(c.candidates, CandidateIdOf, d.candidateId))
  }

  lemma CaseParts(c: Case, r: Reading)
    ensures CaseOk(c, r) <==>
              && HeaderPart(c, r) && SourcePart(c, r) && EvidencePart(c, r) && CandidatePart(c, r) && StagePart(c, r)
              && DecisionPart(c, r)
  {
  }

  lemma ListsMeaning<T(!new)>(items: seq<T>, id: T -> string, value: string)
    ensures Lists(items, id, value) <==> exists k :: 0 <= k < |items| && id(items[k]) == value
  {
    if x :| x in items && id(x) == value {
      var k :| 0 <= k < |items| && items[k] == x;
    }
    if k :| 0 <= k < |items| && id(items[k]) == value {
      assert items[k] in items;
    }
  }

  lemma HasMeanings(c: Case, id: string)
    ensures Lists(c.sources, SourceIdOf, id) <==> HasSource(c, id)
    ensures Lists(c.evidence, EvidenceIdOf, id) <==> HasEvidence(c, id)
    ensures Lists(c.candidates, CandidateIdOf, id) <==> HasCandidate(c, id)
  {
    ListsMeaning(c.sources, SourceIdOf, id);
    ListsMeaning(c.evidence, EvidenceIdOf, id);
    ListsMeaning(c.candidates, CandidateIdOf, id);
    assert HasSource(c, id) <==> exists k :: 0 <= k < |c.sources| && SourceIdOf(c.sources[k]) == id;
    assert HasEvidence(c, id) <==> exists k :: 0 <= k < |c.evidence| && EvidenceIdOf(c.evidence[k]) == id;
    assert HasCandidate(c, id) <==> exists k :: 0 <= k < |c.candidates| && CandidateIdOf(c.candidates[k]) == id;
  }

  lemma SourcesMeaning(c: Case, r: Reading)
    ensures Sources(c, r) <==> SourcePart(c, r)
  {
    forall i | 0 <= i < |c.sources|
      ensures c.sources[i] in c.sources
      ensures SourceFieldsOk(c.sources[i], r) <==>
                var s := c.sources[i];
                && IsId(s.sourceId, "sf_source_") && IsText(s.name, 200, r.white) && IsText(s.version, 200, r.white)
                && IsSha(s.artifactSha256) && MayBeText(s.methodology, 2000, r.white)
    {
      var s := c.sources[i];
      FieldMeanings(s.sourceId, "sf_source_", 0, r);
      FieldMeanings(s.name, "", 200, r);
      FieldMeanings(s.version, "", 200, r);
      FieldMeanings(s.artifactSha256, "", 0, r);
      if s.methodology.Some? {
        FieldMeanings(s.methodology.value, "", 2000, r);
      }
    }
    assert Unique(c.sources, SourceIdOf) <==>
             forall i, j :: 0 <= i < j < |c.sources| ==> SourceIdOf(c.sources[i]) != SourceIdOf(c.sources[j]);
  }

  lemma EvidenceMeaning(c: Case, r: Reading)
    ensures EvidenceList(c, r) <==> EvidencePart(c, r)
  {
    forall i | 0 <= i < |c.evidence|
      ensures c.evidence[i] in c.evidence
      ensures Lists(c.sources, SourceIdOf, c.evidence[i].sourceId) <==> HasSource(c, c.evidence[i].sourceId)
      ensures EvidenceFieldsOk(c.evidence[i], r) <==>
                var e := c.evidence[i];
                && IsId(e.evidenceId, "sf_evidence_") && IsSha(e.sha256) && IsText(e.description, 4000, r.white)
                && (e.relativePath == None || r.path(e.relativePath.value))
    {
      var e := c.evidence[i];
      HasMeanings(c, e.sourceId);
      FieldMeanings(e.evidenceId, "sf_evidence_", 0, r);
      FieldMeanings(e.sha256, "", 0, r);
      FieldMeanings(e.description, "", 4000, r);
    }
    assert Unique(c.evidence, EvidenceIdOf) <==>
             forall i, j :: 0 <= i < j < |c.evidence| ==> EvidenceIdOf(c.evidence[i]) != EvidenceIdOf(c.evidence[j]);
  }

  lemma CandidateMeaning(x: Candidate, c: Case, r: Reading)
    ensures CandidateAlone(x, c, r) <==> CandidateFieldsOk(x, r) && CandidateLinked(x, c)
  {
    FieldMeanings(x.candidateId, "sf_candidate_", 0, r);
    FieldMeanings(x.title, "", 500, r);
    FieldMeanings(x.confidence, "", 40, r);
    if x.severity.Some? {
      FieldMeanings(x.severity.value, "", 40, r);
    }
    HasMeanings(c, x.sourceId);
    forall k | 0 <= k < |x.limitations|
      ensures x.limitations[k] in x.limitations
      ensures TextOk(x.limitations[k], 4000, r) <==> IsText(x.limitations[k], 4000, r.white)
    {
      FieldMeanings(x.limitations[k], "", 4000, r);
    }
    forall k | 0 <= k < |x.evidenceIds|
      ensures x.evidenceIds[k] in x.evidenceIds
      ensures Lists(c.evidence, EvidenceIdOf, x.evidenceIds[k]) <==> HasEvidence(c, x.evidenceIds[k])
    {
      HasMeanings(c, x.evidenceIds[k]);
    }
  }

  lemma CandidatesMeaning(c: Case, r: Reading)
    ensures Candidates(c, r) <==> CandidatePart(c, r)
  {
    forall i | 0 <= i < |c.candidates|
      ensures c.candidates[i] in c.candidates
      ensures CandidateAlone(c.candidates[i], c, r) <==>
                CandidateFieldsOk(c.candidates[i], r) && CandidateLinked(c.candidates[i], c)
    {
      CandidateMeaning(c.candidates[i], c, r);
    }
    assert (forall i :: 0 <= i < |c.candidates| ==> CandidateAlone(c.candidates[i], c, r)) <==>
             forall x :: x in c.candidates ==> CandidateFieldsOk(x, r) && CandidateLinked(x, c);
    UniqueCandidates(c);
    ClassesMeaning(c);
  }

  lemma UniqueCandidates(c: Case)
    ensures Unique(c.candidates, CandidateIdOf) <==>
              forall i, j :: 0 <= i < j < |c.candidates| ==> c.candidates[i].candidateId != c.candidates[j].candidateId
  {
    assert Unique(c.candidates, CandidateIdOf) <==>
             forall i, j :: 0 <= i < j < |c.candidates| ==>
               CandidateIdOf(c.candidates[i]) != CandidateIdOf(c.candidates[j]);
  }

  lemma ClassesMeaning(c: Case)
    ensures (forall i, k :: 0 <= i < |c.candidates| && 0 <= k < |c.sources|
                            && c.sources[k].sourceId == c.candidates[i].sourceId ==>
               && (c.candidates[i].class_ == EngineCandidate <==> c.sources[k].kind == SecureEngine)
               && (c.candidates[i].class_ == ContextualCandidate <==> c.sources[k].kind == SecureSkillContextual)
               && (c.candidates[i].class_ == ExternalToolCandidate <==> c.sources[k].kind == ExternalSarif)) <==>
            ClassPart(c)
  {
    if forall i, k :: 0 <= i < |c.candidates| && 0 <= k < |c.sources|
                      && c.sources[k].sourceId == c.candidates[i].sourceId ==>
         ClassMatches(c.sources[k].kind, c.candidates[i].class_) {
      forall x, s | x in c.candidates && s in c.sources && s.sourceId == x.sourceId
        ensures ClassMatches(s.kind, x.class_)
      {
        var i :| 0 <= i < |c.candidates| && c.candidates[i] == x;
        var k :| 0 <= k < |c.sources| && c.sources[k] == s;
      }
    }
  }

  lemma StagesMeaning(c: Case, r: Reading)
    ensures Stages(c, r) <==> StagePart(c, r)
  {
    forall i | 0 <= i < |c.staged|
      ensures c.staged[i] in c.staged
      ensures Lists(c.candidates, CandidateIdOf, c.staged[i].candidateId) <==> HasCandidate(c, c.staged[i].candidateId)
      ensures StageFieldsOk(c.staged[i], r) <==>
                var s := c.staged[i];
                && IsId(s.stageId, "sf_stage_") && IsText(s.agentName, 200, r.white)
                && IsText(s.recommendation, 40, r.white) && IsText(s.rationale, 3000, r.white)
                && r.timestamp(s.createdAt)
    {
      var s := c.staged[i];
      HasMeanings(c, s.candidateId);
      FieldMeanings(s.stageId, "sf_stage_", 0, r);
      FieldMeanings(s.agentName, "", 200, r);
      FieldMeanings(s.recommendation, "", 40, r);
      FieldMeanings(s.rationale, "", 3000, r);
    }
    assert Unique(c.staged, StageIdOf) <==>
             forall i, j :: 0 <= i < j < |c.staged| ==> StageIdOf(c.staged[i]) != StageIdOf(c.staged[j]);
  }

  lemma DecisionsMeaning(c: Case, r: Reading)
    ensures Decisions(c, r) <==> DecisionPart(c, r)
  {
    forall i | 0 <= i < |c.decisions|
      ensures c.decisions[i] in c.decisions
      ensures Lists(c.candidates, CandidateIdOf, c.decisions[i].candidateId)
              <==> HasCandidate(c, c.decisions[i].candidateId)
      ensures DecisionFieldsOk(c.decisions[i], r) <==>
                var d := c.decisions[i];
                && IsId(d.decisionId, "sf_decision_") && IsText(d.reviewer, 200, r.white)
                && IsText(d.rationale, 3000, r.white) && r.timestamp(d.decidedAt)
                && MayBeText(d.evidenceReference, 300, r.white)
    {
      var d := c.decisions[i];
      HasMeanings(c, d.candidateId);
      FieldMeanings(d.decisionId, "sf_decision_", 0, r);
      FieldMeanings(d.reviewer, "", 200, r);
      FieldMeanings(d.rationale, "", 3000, r);
      if d.evidenceReference.Some? {
        FieldMeanings(d.evidenceReference.value, "", 300, r);
      }
    }
    assert Unique(c.decisions, DecisionIdOf) <==>
             forall i, j :: 0 <= i < j < |c.decisions| ==> DecisionIdOf(c.decisions[i]) != DecisionIdOf(c.decisions[j]);
    assert Unique(c.decisions, DecidedCandidateOf) <==>
             forall i, j :: 0 <= i < j < |c.decisions| ==>
               DecidedCandidateOf(c.decisions[i]) != DecidedCandidateOf(c.decisions[j]);
  }

  /** The contract that both validators are proved against is exactly this. */
  lemma CaseMeaning(c: Case, r: Reading)
    ensures CaseOk(c, r) <==>
              && Header(c, r) && Sources(c, r) && EvidenceList(c, r) && Candidates(c, r) && Stages(c, r)
              && Decisions(c, r)
  {
    CaseParts(c, r);
    HeaderMeaning(c, r);
    SourcesMeaning(c, r);
    EvidenceMeaning(c, r);
    CandidatesMeaning(c, r);
    StagesMeaning(c, r);
    DecisionsMeaning(c, r);
  }
}
