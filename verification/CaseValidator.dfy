/** The case crate's validator: one pass over each list, filling maps and sets as it goes. */
module CaseValidator {
  import opened Characters
  import opened SecurityCase
  import opened Wrappers

  datatype CaseError = UnsupportedContract | InvalidField | Duplicate | MissingReference | InvalidState

  /** The Rust side's own path rule is `PathText`. */
  function RustReading(white: char -> bool, timestamp: string -> bool): Reading {
    Reading(white, timestamp, PathText)
  }

  // ---------------------------------------------------------------- field predicates on bytes

  /** `id`: lengths are byte lengths, and every byte is in the identifier alphabet. */
  predicate RustId(s: string, prefix: string) {
    && prefix <= s && Utf8Length(s) >= Utf8Length(prefix) + 16 && Utf8Length(s) <= 100
    && forall c :: c in s ==> IdCharacter(c)
  }

  predicate RustSha(s: string) {
    Utf8Length(s) == 64 && forall c :: c in s ==> HexCharacter(c)
  }

  lemma AsciiLength(s: string)
    requires forall c :: c in s ==> c as int < 0x80
    ensures Utf8Length(s) == |s|
  {
    assert forall i :: 0 <= i < |s| ==> s[i] in s;
    assert Above(s, 0x80) == {} && Above(s, 0x800) == {} && Above(s, 0x1_0000) == {};
  }

  lemma RustIdMeaning(s: string, prefix: string)
    ensures RustId(s, prefix) <==> IdOk(s, prefix)
  {
    if prefix <= s && forall c :: c in s ==> IdCharacter(c) {
      AsciiLength(s);
      assert forall c :: c in prefix ==> c in s;
      AsciiLength(prefix);
    }
  }

  lemma RustShaMeaning(s: string)
    ensures RustSha(s) <==> ShaOk(s)
  {
    if forall c :: c in s ==> HexCharacter(c) {
      AsciiLength(s);
    }
  }

  // ---------------------------------------------------------------- the five loops

  ghost predicate IdSet<T(!new)>(ids: set<string>, items: seq<T>, id: T -> string) {
    forall value :: value in ids <==> Lists(items, id, value)
  }

  lemma IdSetNext<T(!new)>(ids: set<string>, items: seq<T>, i: nat, id: T -> string)
    requires i < |items| && IdSet(ids, items[..i], id)
    ensures IdSet(ids + {id(items[i])}, items[..i + 1], id)
    ensures Unique(items[..i + 1], id) <==> Unique(items[..i], id) && id(items[i]) !in ids
    ensures Unique(items, id) ==> Unique(items[..i + 1], id)
  {
    UniqueSnoc(items, i, id);
    assert items[..i + 1] == items[..i] + [items[i]];
    forall value
      ensures value in ids + {id(items[i])} <==> Lists(items[..i + 1], id, value)
    {
      if Lists(items[..i], id, value) {
        var x :| x in items[..i] && id(x) == value;
        assert x in items[..i + 1];
      }
      if id(items[i]) == value {
        assert items[i] in items[..i + 1];
      }
    }
  }

  ghost predicate KindMap(kinds: map<string, SourceKind>, sources: seq<Source>) {
    && IdSet(kinds.Keys, sources, SourceIdOf)
    && forall s :: s in sources ==> s.sourceId in kinds && kinds[s.sourceId] == s.kind
  }

  lemma KindMapAdds(kinds: map<string, SourceKind>, before: seq<Source>, s: Source)
    requires KindMap(kinds, before) && s.sourceId !in kinds
    requires IdSet(kinds.Keys + {SourceIdOf(s)}, before + [s], SourceIdOf)
    ensures KindMap(kinds[s.sourceId := s.kind], before + [s])
  {
    assert kinds[s.sourceId := s.kind].Keys == kinds.Keys + {SourceIdOf(s)};
  }

  lemma KindMapNext(kinds: map<string, SourceKind>, sources: seq<Source>, i: nat)
    requires i < |sources| && KindMap(kinds, sources[..i])
    ensures Unique(sources[..i + 1], SourceIdOf) <==> Unique(sources[..i], SourceIdOf) && sources[i].sourceId !in kinds
    ensures Unique(sources, SourceIdOf) ==> Unique(sources[..i + 1], SourceIdOf)
    ensures sources[i].sourceId !in kinds ==>
              KindMap(kinds[sources[i].sourceId := sources[i].kind], sources[..i + 1])
  {
    IdSetNext(kinds.Keys, sources, i, SourceIdOf);
    if sources[i].sourceId !in kinds {
      KindMapAppend(kinds, sources, i);
    }
  }

  lemma KindMapAppend(kinds: map<string, SourceKind>, sources: seq<Source>, i: nat)
    requires i < |sources| && KindMap(kinds, sources[..i]) && sources[i].sourceId !in kinds
    requires IdSet(kinds.Keys + {SourceIdOf(sources[i])}, sources[..i + 1], SourceIdOf)
    ensures KindMap(kinds[sources[i].sourceId := sources[i].kind], sources[..i + 1])
  {
    assert sources[..i + 1] == sources[..i] + [sources[i]];
    KindMapAdds(kinds, sources[..i], sources[i]);
  }

  method ValidateSources(sources: seq<Source>, r: Reading) returns (res: Result<map<string, SourceKind>, CaseError>)
    ensures res.Ok? <==> (forall s :: s in sources ==> SourceFieldsOk(s, r)) && Unique(sources, SourceIdOf)
    ensures res.Ok? ==> KindMap(res.value, sources)
    ensures res == Err(Duplicate) ==> !Unique(sources, SourceIdOf)
    ensures res.Err? && res.error != Duplicate ==>
              res.error == InvalidField && exists s :: s in sources && !SourceFieldsOk(s, r)
  {
    var kinds: map<string, SourceKind> := map[];
    for i := 0 to |sources|
      invariant forall s :: s in sources[..i] ==> SourceFieldsOk(s, r)
      invariant Unique(sources[..i], SourceIdOf)
      invariant KindMap(kinds, sources[..i])
    {
      var s := sources[i];
      assert s in sources && sources[..i + 1] == sources[..i] + [s];
      RustIdMeaning(s.sourceId, "sf_source_");
      RustShaMeaning(s.artifactSha256);
      KindMapNext(kinds, sources, i);
      if !RustId(s.sourceId, "sf_source_") {
        return Err(InvalidField);
      }
      if s.sourceId in kinds {
        return Err(Duplicate);
      }
      kinds := kinds[s.sourceId := s.kind];
      if !TextOk(s.name, 200, r) || !TextOk(s.version, 200, r) || !RustSha(s.artifactSha256)
         || !OptionalTextOk(s.methodology, 2000, r) {
        return Err(InvalidField);
      }
    }
    assert sources[..|sources|] == sources;
    res := Ok(kinds);
  }

  method ValidateEvidence(c: Case, kinds: map<string, SourceKind>, r: Reading)
    returns (res: Result<set<string>, CaseError>)
    requires KindMap(kinds, c.sources)
    ensures res.Ok? <==> (forall e :: e in c.evidence ==> EvidenceFieldsOk(e, r)) && Unique(c.evidence, EvidenceIdOf)
                         && forall e :: e in c.evidence ==> Lists(c.sources, SourceIdOf, e.sourceId)
    ensures res.Ok? ==> IdSet(res.value, c.evidence, EvidenceIdOf)
    ensures res == Err(Duplicate) ==> !Unique(c.evidence, EvidenceIdOf)
    ensures res == Err(MissingReference) ==>
              exists e :: e in c.evidence && !Lists(c.sources, SourceIdOf, e.sourceId)
    ensures res.Err? && res.error != Duplicate && res.error != MissingReference ==>
              res.error == InvalidField && exists e :: e in c.evidence && !EvidenceFieldsOk(e, r)
  {
    var evidence := c.evidence;
    var ids: set<string> := {};
    for i := 0 to |evidence|
      invariant forall e :: e in evidence[..i] ==> EvidenceFieldsOk(e, r) && Lists(c.sources, SourceIdOf, e.sourceId)
      invariant Unique(evidence[..i], EvidenceIdOf)
      invariant IdSet(ids, evidence[..i], EvidenceIdOf)
    {
      var e := evidence[i];
      assert e in evidence && evidence[..i + 1] == evidence[..i] + [e];
      RustIdMeaning(e.evidenceId, "sf_evidence_");
      RustShaMeaning(e.sha256);
      IdSetNext(ids, evidence, i, EvidenceIdOf);
      if !RustId(e.evidenceId, "sf_evidence_") {
        return Err(InvalidField);
      }
      if e.evidenceId in ids {
        return Err(Duplicate);
      }
      ids := ids + {e.evidenceId};
      if e.sourceId !in kinds {
        return Err(MissingReference);
      }
      if !RustSha(e.sha256) || !TextOk(e.description, 4000, r)
         || (e.relativePath.Some? && !r.path(e.relativePath.value)) {
        return Err(InvalidField);
      }
    }
    assert evidence[..|evidence|] == evidence;
    res := Ok(ids);
  }

  ghost predicate CandidateStateOk(x: Candidate, sources: seq<Source>) {
    forall s :: s in sources && s.sourceId == x.sourceId ==> ClassMatches(s.kind, x.class_)
  }

  /** The pairs of the `matches!`. */
  predicate Authorized(kind: SourceKind, class_: CandidateClass) {
    match (kind, class_)
    case (SecureEngine, EngineCandidate) => true
    case (SecureSkillContextual, ContextualCandidate) => true
    case (ExternalSarif, ExternalToolCandidate) => true
    case _ => false
  }

  lemma AuthorizedMeaning(kind: SourceKind, class_: CandidateClass)
    ensures Authorized(kind, class_) <==> ClassMatches(kind, class_)
  {
  }

  method ValidateCandidates(c: Case, kinds: map<string, SourceKind>, evidenceIds: set<string>, r: Reading)
    returns (res: Result<set<string>, CaseError>)
    requires KindMap(kinds, c.sources) && IdSet(evidenceIds, c.evidence, EvidenceIdOf)
    ensures res.Ok? <==> (forall x :: x in c.candidates ==> CandidateFieldsOk(x, r))
                         && Unique(c.candidates, CandidateIdOf)
                         && (forall x :: x in c.candidates ==> CandidateLinked(x, c))
                         && (forall x :: x in c.candidates ==> CandidateStateOk(x, c.sources))
    ensures res.Ok? ==> IdSet(res.value, c.candidates, CandidateIdOf)
    ensures res == Err(Duplicate) ==> !Unique(c.candidates, CandidateIdOf)
    ensures res == Err(MissingReference) ==> exists x :: x in c.candidates && !CandidateLinked(x, c)
    ensures res == Err(InvalidState) ==> exists x :: x in c.candidates && !CandidateStateOk(x, c.sources)
    ensures res.Err? && res.error !in {Duplicate, MissingReference, InvalidState} ==>
              res.error == InvalidField && exists x :: x in c.candidates && !CandidateFieldsOk(x, r)
  {
    var candidates := c.candidates;
    var ids: set<string> := {};
    for i := 0 to |candidates|
      invariant forall x :: x in candidates[..i] ==>
                  CandidateFieldsOk(x, r) && CandidateLinked(x, c) && CandidateStateOk(x, c.sources)
      invariant Unique(candidates[..i], CandidateIdOf)
      invariant IdSet(ids, candidates[..i], CandidateIdOf)
    {
      var x := candidates[i];
      assert x in candidates && candidates[..i + 1] == candidates[..i] + [x];
      RustIdMeaning(x.candidateId, "sf_candidate_");
      IdSetNext(ids, candidates, i, CandidateIdOf);
      if !RustId(x.candidateId, "sf_candidate_") {
        return Err(InvalidField);
      }
      if x.candidateId in ids {
        return Err(Duplicate);
      }
      ids := ids + {x.candidateId};
      var linked := ValidateCandidate(x, c, kinds, evidenceIds, r);
      if linked.Err? {
        return Err(linked.error);
      }
    }
    assert candidates[..|candidates|] == candidates;
    res := Ok(ids);
  }

  /** One candidate after its identifier: source, authority, texts, then evidence links and limitations. */
  method ValidateCandidate(x: Candidate, c: Case, kinds: map<string, SourceKind>, evidenceIds: set<string>, r: Reading)
    returns (res: Result<(), CaseError>)
    requires KindMap(kinds, c.sources) && IdSet(evidenceIds, c.evidence, EvidenceIdOf)
    requires IdOk(x.candidateId, "sf_candidate_")
    ensures res.Ok? <==> CandidateFieldsOk(x, r) && CandidateLinked(x, c) && CandidateStateOk(x, c.sources)
    ensures res == Err(MissingReference) ==> !CandidateLinked(x, c)
    ensures res == Err(InvalidState) ==> !CandidateStateOk(x, c.sources)
    ensures res.Err? && res.error !in {MissingReference, InvalidState} ==>
              res.error == InvalidField && !CandidateFieldsOk(x, r)
  {
    if x.sourceId !in kinds {
      return Err(MissingReference);
    }
    AuthorizedMeaning(kinds[x.sourceId], x.class_);
    if !Authorized(kinds[x.sourceId], x.class_) {
      return Err(InvalidState);
    }
    if !TextOk(x.title, 500, r) || !TextOk(x.confidence, 40, r) || !OptionalTextOk(x.severity, 40, r) {
      return Err(InvalidField);
    }
    for i := 0 to |x.evidenceIds|
      invariant forall id :: id in x.evidenceIds[..i] ==> Lists(c.evidence, EvidenceIdOf, id)
    {
      if x.evidenceIds[i] !in evidenceIds {
        return Err(MissingReference);
      }
    }
    for i := 0 to |x.limitations|
      invariant forall limitation :: limitation in x.limitations[..i] ==> TextOk(limitation, 4000, r)
    {
      if !TextOk(x.limitations[i], 4000, r) {
        return Err(InvalidField);
      }
    }
    res := Ok(());
  }

  method ValidateStages(c: Case, candidateIds: set<string>, r: Reading) returns (res: Result<(), CaseError>)
    requires IdSet(candidateIds, c.candidates, CandidateIdOf)
    ensures res.Ok? <==> (forall s :: s in c.staged ==> StageFieldsOk(s, r)) && Unique(c.staged, StageIdOf)
                         && forall s :: s in c.staged ==> Lists(c.candidates, CandidateIdOf, s.candidateId)
    ensures res == Err(Duplicate) ==> !Unique(c.staged, StageIdOf)
    ensures res == Err(MissingReference) ==>
              exists s :: s in c.staged && !Lists(c.candidates, CandidateIdOf, s.candidateId)
    ensures res.Err? && res.error !in {Duplicate, MissingReference} ==>
              res.error == InvalidField && exists s :: s in c.staged && !StageFieldsOk(s, r)
  {
    var staged := c.staged;
    var ids: set<string> := {};
    for i := 0 to |staged|
      invariant forall s :: s in staged[..i] ==>
                  StageFieldsOk(s, r) && Lists(c.candidates, CandidateIdOf, s.candidateId)
      invariant Unique(staged[..i], StageIdOf)
      invariant IdSet(ids, staged[..i], StageIdOf)
    {
      var s := staged[i];
      assert s in staged && staged[..i + 1] == staged[..i] + [s];
      RustIdMeaning(s.stageId, "sf_stage_");
      IdSetNext(ids, staged, i, StageIdOf);
      if !RustId(s.stageId, "sf_stage_") {
        return Err(InvalidField);
      }
      if s.stageId in ids {
        return Err(Duplicate);
      }
      ids := ids + {s.stageId};
      if s.candidateId !in candidateIds {
        return Err(MissingReference);
      }
      if !TextOk(s.agentName, 200, r) || !TextOk(s.recommendation, 40, r) || !TextOk(s.rationale, 3000, r)
         || !r.timestamp(s.createdAt) {
        return Err(InvalidField);
      }
    }
    assert staged[..|staged|] == staged;
    res := Ok(());
  }

  method ValidateDecisions(c: Case, candidateIds: set<string>, r: Reading) returns (res: Result<(), CaseError>)
    requires IdSet(candidateIds, c.candidates, CandidateIdOf)
    ensures res.Ok? <==> (forall d :: d in c.decisions ==> DecisionFieldsOk(d, r))
                         && Unique(c.decisions, DecisionIdOf) && Unique(c.decisions, DecidedCandidateOf)
                         && forall d :: d in c.decisions ==> Lists(c.candidates, CandidateIdOf, d.candidateId)
    ensures res == Err(Duplicate) ==> !(Unique(c.decisions, DecisionIdOf) && Unique(c.decisions, DecidedCandidateOf))
    ensures res == Err(MissingReference) ==>
              exists d :: d in c.decisions && !Lists(c.candidates, CandidateIdOf, d.candidateId)
    ensures res.Err? && res.error !in {Duplicate, MissingReference} ==>
              res.error == InvalidField && exists d :: d in c.decisions && !DecisionFieldsOk(d, r)
  {
    var decisions := c.decisions;
    var ids: set<string>, decided: set<string> := {}, {};
    for i := 0 to |decisions|
      invariant forall d :: d in decisions[..i] ==>
                  DecisionFieldsOk(d, r) && Lists(c.candidates, CandidateIdOf, d.candidateId)
      invariant Unique(decisions[..i], DecisionIdOf) && Unique(decisions[..i], DecidedCandidateOf)
      invariant IdSet(ids, decisions[..i], DecisionIdOf) && IdSet(decided, decisions[..i], DecidedCandidateOf)
    {
      var d := decisions[i];
      assert d in decisions && decisions[..i + 1] == decisions[..i] + [d];
      RustIdMeaning(d.decisionId, "sf_decision_");
      IdSetNext(ids, decisions, i, DecisionIdOf);
      IdSetNext(decided, decisions, i, DecidedCandidateOf);
      if !RustId(d.decisionId, "sf_decision_") {
        return Err(InvalidField);
      }
      if d.decisionId in ids {
        return Err(Duplicate);
      }
      ids := ids + {d.decisionId};
      if d.candidateId in decided {
        return Err(Duplicate);
      }
      decided := decided + {d.candidateId};
      if d.candidateId !in candidateIds {
        return Err(MissingReference);
      }
      if !TextOk(d.reviewer, 200, r) || !TextOk(d.rationale, 3000, r) || !r.timestamp(d.decidedAt)
         || !OptionalTextOk(d.evidenceReference, 300, r) {
        return Err(InvalidField);
      }
    }
    assert decisions[..|decisions|] == decisions;
    res := Ok(());
  }

  method ValidateHeader(c: Case, r: Reading) returns (res: Result<(), CaseError>)
    ensures res.Ok? <==> c.contractVersion == CONTRACT_VERSION && HeaderFieldsOk(c, r)
                         && c.target.authorization.status == "authorized"
    ensures res == Err(UnsupportedContract) <==> c.contractVersion != CONTRACT_VERSION
    ensures res == Err(InvalidState) ==> c.target.authorization.status != "authorized"
    ensures res == Err(InvalidField) ==> !HeaderFieldsOk(c, r)
    ensures res.Err? ==> res.error in {UnsupportedContract, InvalidState, InvalidField}
  {
    RustIdMeaning(c.caseId, "sf_case_");
    RustShaMeaning(c.target.rootSha256);
    if c.contractVersion != CONTRACT_VERSION {
      return Err(UnsupportedContract);
    }
    if !RustId(c.caseId, "sf_case_") || !r.timestamp(c.createdAt) || !TextOk(c.target.targetLabel, 200, r)
       || !RustSha(c.target.rootSha256) {
      return Err(InvalidField);
    }
    var authorization := c.target.authorization;
    if authorization.status != "authorized" {
      return Err(InvalidState);
    }
    if !TextOk(authorization.basis, 100, r) || !TextOk(authorization.reviewer, 200, r)
       || !OptionalTextOk(authorization.reference, 300, r)
       || (authorization.expiresAt.Some? && !r.timestamp(authorization.expiresAt.value)) {
      return Err(InvalidField);
    }
    if c.target.revision.Some? {
      var revision := c.target.revision.value;
      if !TextOk(revision.kind, 40, r) || !TextOk(revision.value, 200, r) {
        return Err(InvalidField);
      }
    }
    res := Ok(());
  }

  lemma StateByCandidate(c: Case)
    ensures StateOk(c) <==> c.target.authorization.status == "authorized"
                            && forall x :: x in c.candidates ==> CandidateStateOk(x, c.sources)
  {
  }

  /** `SecurityCase::validate`: acceptance is the declarative contract, and each error names a real fault. */
  method Validate(c: Case, r: Reading) returns (res: Result<(), CaseError>)
    ensures res.Ok? <==> CaseOk(c, r)
    // Spelled out: each class rests on exactly its own kind of source.
    ensures res.Ok? ==>
              forall x, s :: x in c.candidates && s in c.sources && s.sourceId == x.sourceId ==>
                && (x.class_ == EngineCandidate <==> s.kind == SecureEngine)
                && (x.class_ == ContextualCandidate <==> s.kind == SecureSkillContextual)
                && (x.class_ == ExternalToolCandidate <==> s.kind == ExternalSarif)
    ensures res == Err(InvalidState) && c.target.authorization.status == "authorized" ==>
              Unique(c.sources, SourceIdOf)
    ensures res == Err(UnsupportedContract) <==> c.contractVersion != CONTRACT_VERSION
    ensures res == Err(InvalidField) ==> !FieldsOk(c, r)
    ensures res == Err(Duplicate) ==> !IdsUnique(c)
    ensures res == Err(MissingReference) ==> !NoDangling(c)
    ensures res == Err(InvalidState) ==> !StateOk(c)
  {
    res := ValidateHeader(c, r);
    if res.Err? {
      return;
    }
    var kinds := ValidateSources(c.sources, r);
    if kinds.Err? {
      return Err(kinds.error);
    }
    var evidenceIds := ValidateEvidence(c, kinds.value, r);
    if evidenceIds.Err? {
      return Err(evidenceIds.error);
    }
    var candidateIds := ValidateCandidates(c, kinds.value, evidenceIds.value, r);
    StateByCandidate(c);
    if candidateIds.Err? {
      return Err(candidateIds.error);
    }
    res := ValidateStages(c, candidateIds.value, r);
    if res.Err? {
      return;
    }
    res := ValidateDecisions(c, candidateIds.value, r);
  }
}
