/** The review room's own parser of the same contract, and how far the two implementations agree. */
module ReviewRoomParser {
  import opened CaseValidator
  import opened Characters
  import opened SecurityCase
  import opened Wrappers

  const MAX_SAFE_INTEGER: nat := 9007199254740991

  /** `optionalString` with no real limit, then the normalized-path test. */
  function JsPath(white: char -> bool): string -> bool {
    (s: string) => !Blank(s, white) && Utf8Length(s) <= MAX_SAFE_INTEGER && PathText(s)
  }

  /** Every string is first checked for blankness, timestamps too. */
  function JsReading(white: char -> bool, timestamp: string -> bool): Reading {
    Reading(white, (s: string) => !Blank(s, white) && timestamp(s), JsPath(white))
  }

  /** No identifier character counts as white space. */
  ghost predicate Sane(white: char -> bool) {
    forall c :: IdCharacter(c) ==> !white(c)
  }

  // ---------------------------------------------------------------- identifiers by regular expression

  /** `length` of a JavaScript string: UTF-16 code units. */
  function Utf16Length(s: string): nat {
    |s| + |Above(s, 0x1_0000)|
  }

  /** The alternatives of the identifier pattern. */
  datatype Kind = OfCase | OfSource | OfEvidence | OfCandidate | OfStage | OfDecision

  function Word(kind: Kind): string {
    match kind
    case OfCase => "case"
    case OfSource => "source"
    case OfEvidence => "evidence"
    case OfCandidate => "candidate"
    case OfStage => "stage"
    case OfDecision => "decision"
  }

  function KindPrefix(kind: Kind): string {
    match kind
    case OfCase => "sf_case_"
    case OfSource => "sf_source_"
    case OfEvidence => "sf_evidence_"
    case OfCandidate => "sf_candidate_"
    case OfStage => "sf_stage_"
    case OfDecision => "sf_decision_"
  }

  /** The identifier pattern: some kind, then at least sixteen characters of the alphabet, and nothing else. */
  predicate IdPattern(s: string) {
    || MatchesKind(s, OfCase) || MatchesKind(s, OfSource) || MatchesKind(s, OfEvidence)
    || MatchesKind(s, OfCandidate) || MatchesKind(s, OfStage) || MatchesKind(s, OfDecision)
  }

  predicate MatchesKind(s: string, kind: Kind) {
    var prefix := KindPrefix(kind);
    prefix <= s && |s| >= |prefix| + 16 && forall c :: c in s[|prefix|..] ==> IdCharacter(c)
  }

  predicate JsId(s: string, prefix: string, white: char -> bool) {
    !Blank(s, white) && Utf16Length(s) <= 100 && prefix <= s && IdPattern(s)
  }

  predicate JsSha(s: string, white: char -> bool) {
    !Blank(s, white) && ShaOk(s)
  }

  lemma AsciiUtf16Length(s: string)
    requires forall c :: c in s ==> IdCharacter(c)
    ensures Utf16Length(s) == |s|
  {
    assert forall i :: 0 <= i < |s| ==> s[i] in s;
    assert Above(s, 0x1_0000) == {};
  }

  lemma FirstUnderscore(s: string, a: string, b: string)
    requires '_' !in a && '_' !in b && a + "_" <= s && b + "_" <= s
    ensures a == b
  {
    assert forall i :: 0 <= i < |a| ==> s[i] == (a + "_")[i] == a[i] && a[i] in a;
    assert forall i :: 0 <= i < |b| ==> s[i] == (b + "_")[i] == b[i] && b[i] in b;
    assert s[|a|] == (a + "_")[|a|] == '_' && s[|b|] == (b + "_")[|b|] == '_';
    assert |a| == |b|;
  }

  lemma PrefixShape(kind: Kind)
    ensures KindPrefix(kind) == "sf_" + Word(kind) + "_" && '_' !in Word(kind)
  {
  }

  lemma PrefixCharacters(kind: Kind)
    ensures forall c :: c in KindPrefix(kind) ==> IdCharacter(c)
  {
  }

  /** No kind prefix is a prefix of another, so the alternation adds nothing to `startsWith`. */
  lemma KindDecided(s: string, kind: Kind, other: Kind)
    requires KindPrefix(kind) <= s && KindPrefix(other) <= s
    ensures kind == other
  {
    PrefixShape(kind);
    PrefixShape(other);
    assert KindPrefix(kind)[3..] == Word(kind) + "_" && KindPrefix(other)[3..] == Word(other) + "_";
    FirstUnderscore(s[3..], Word(kind), Word(other));
  }

  lemma MatchPrefix(s: string, kind: Kind)
    requires MatchesKind(s, kind)
    ensures KindPrefix(kind) <= s
  {
  }

  lemma JsIdMeaning(s: string, kind: Kind, white: char -> bool)
    requires Sane(white)
    ensures JsId(s, KindPrefix(kind), white) <==> IdOk(s, KindPrefix(kind))
  {
    var prefix := KindPrefix(kind);
    PrefixCharacters(kind);
    if prefix <= s {
      assert s == prefix + s[|prefix|..];
      if JsId(s, prefix, white) {
        var other :| MatchesKind(s, other);
        MatchPrefix(s, other);
        KindDecided(s, kind, other);
      }
      if IdOk(s, prefix) {
        AsciiUtf16Length(s);
        assert MatchesKind(s, kind);
        assert s[0] in s;
      }
    }
  }

  lemma JsShaMeaning(s: string, white: char -> bool)
    requires Sane(white)
    ensures JsSha(s, white) <==> ShaOk(s)
  {
    if ShaOk(s) {
      assert s[0] in s && IdCharacter(s[0]);
    }
  }

  /** A referenced identifier that exists is visible and short: the extra string checks never decide. */
  lemma IdIsText(s: string, prefix: string, white: char -> bool)
    requires Sane(white) && IdOk(s, prefix)
    ensures !Blank(s, white) && Utf8Length(s) <= 100
  {
    AsciiLength(s);
    assert s[0] in s;
  }

  // ---------------------------------------------------------------- the parser

  method IdAt(s: string, kind: Kind, white: char -> bool) returns (ok: bool)
    requires Sane(white)
    ensures ok <==> IdOk(s, KindPrefix(kind))
  {
    JsIdMeaning(s, kind, white);
    ok := JsId(s, KindPrefix(kind), white);
  }

  method ShaAt(s: string, white: char -> bool) returns (ok: bool)
    requires Sane(white)
    ensures ok <==> ShaOk(s)
  {
    JsShaMeaning(s, white);
    ok := JsSha(s, white);
  }

  method ParseSources(sources: seq<Source>, white: char -> bool, r: Reading)
    returns (ok: bool, kinds: map<string, SourceKind>)
    requires Sane(white) && r.white == white
    ensures ok <==> (forall s :: s in sources ==> SourceFieldsOk(s, r)) && Unique(sources, SourceIdOf)
    ensures ok ==> KindMap(kinds, sources)
  {
    kinds := map[];
    var sourceIds: set<string> := {};
    for i := 0 to |sources|
      invariant forall s :: s in sources[..i] ==> SourceFieldsOk(s, r)
      invariant Unique(sources[..i], SourceIdOf)
      invariant KindMap(kinds, sources[..i]) && sourceIds == kinds.Keys
    {
      var s := sources[i];
      assert s in sources && sources[..i + 1] == sources[..i] + [s];
      var idOk := IdAt(s.sourceId, OfSource, white);
      var shaOk := ShaAt(s.artifactSha256, white);
      KindMapNext(kinds, sources, i);
      if !idOk || s.sourceId in sourceIds {
        return false, kinds;
      }
      sourceIds := sourceIds + {s.sourceId};
      kinds := kinds[s.sourceId := s.kind];
      if !TextOk(s.name, 200, r) || !TextOk(s.version, 200, r) || !shaOk
         || !OptionalTextOk(s.methodology, 2000, r) {
        return false, kinds;
      }
    }
    assert sources[..|sources|] == sources;
    ok := true;
  }

  method ParseEvidenceItem(e: Evidence, c: Case, kinds: map<string, SourceKind>, white: char -> bool, r: Reading)
    returns (ok: bool)
    requires Sane(white) && r.white == white && r.path == JsPath(white) && IdOk(e.evidenceId, "sf_evidence_")
    requires KindMap(kinds, c.sources) && forall s :: s in c.sources ==> SourceFieldsOk(s, r)
    ensures ok <==> EvidenceFieldsOk(e, r) && Lists(c.sources, SourceIdOf, e.sourceId)
  {
    VisibleSource(e.sourceId, c.sources, white, r);
    var shaOk := ShaAt(e.sha256, white);
    if Blank(e.sourceId, white) || e.sourceId !in kinds || !shaOk || !TextOk(e.description, 4000, r) {
      return false;
    }
    ok := e.relativePath.Some? ==>
      TextOk(e.relativePath.value, MAX_SAFE_INTEGER, r) && PathText(e.relativePath.value);
  }

  method ParseEvidence(c: Case, kinds: map<string, SourceKind>, white: char -> bool, r: Reading)
    returns (ok: bool, ids: set<string>)
    requires Sane(white) && r.white == white && r.path == JsPath(white)
    requires KindMap(kinds, c.sources) && forall s :: s in c.sources ==> SourceFieldsOk(s, r)
    ensures ok <==> (forall e :: e in c.evidence ==> EvidenceFieldsOk(e, r)) && Unique(c.evidence, EvidenceIdOf)
                    && forall e :: e in c.evidence ==> Lists(c.sources, SourceIdOf, e.sourceId)
    ensures ok ==> IdSet(ids, c.evidence, EvidenceIdOf)
  {
    var evidence := c.evidence;
    ids := {};
    for i := 0 to |evidence|
      invariant forall e :: e in evidence[..i] ==> EvidenceFieldsOk(e, r) && Lists(c.sources, SourceIdOf, e.sourceId)
      invariant Unique(evidence[..i], EvidenceIdOf)
      invariant IdSet(ids, evidence[..i], EvidenceIdOf)
    {
      var e := evidence[i];
      assert e in evidence && evidence[..i + 1] == evidence[..i] + [e];
      var idOk := IdAt(e.evidenceId, OfEvidence, white);
      IdSetNext(ids, evidence, i, EvidenceIdOf);
      if !idOk || e.evidenceId in ids {
        return false, ids;
      }
      ids := ids + {e.evidenceId};
      var parsed := ParseEvidenceItem(e, c, kinds, white, r);
      if !parsed {
        return false, ids;
      }
    }
    assert evidence[..|evidence|] == evidence;
    ok := true;
  }

  lemma VisibleSource(id: string, sources: seq<Source>, white: char -> bool, r: Reading)
    requires Sane(white) && forall s :: s in sources ==> SourceFieldsOk(s, r)
    ensures Lists(sources, SourceIdOf, id) ==> !Blank(id, white)
  {
    if s :| s in sources && SourceIdOf(s) == id {
      IdIsText(id, "sf_source_", white);
    }
  }

  lemma VisibleEvidence(id: string, evidence: seq<Evidence>, white: char -> bool, r: Reading)
    requires Sane(white) && forall e :: e in evidence ==> EvidenceFieldsOk(e, r)
    ensures Lists(evidence, EvidenceIdOf, id) ==> !Blank(id, white) && Utf8Length(id) <= 100
  {
    if e :| e in evidence && EvidenceIdOf(e) == id {
      IdIsText(id, "sf_evidence_", white);
    }
  }

  lemma VisibleCandidate(id: string, candidates: seq<Candidate>, white: char -> bool, r: Reading)
    requires Sane(white) && forall x :: x in candidates ==> CandidateFieldsOk(x, r)
    ensures Lists(candidates, CandidateIdOf, id) ==> !Blank(id, white)
  {
    if x :| x in candidates && CandidateIdOf(x) == id {
      IdIsText(id, "sf_candidate_", white);
    }
  }

  /** The strings first, the references second; an existing reference always passes as a string. */
  method ParseEvidenceIds(ids: seq<string>, c: Case, evidenceIds: set<string>, white: char -> bool, r: Reading)
    returns (ok: bool)
    requires Sane(white) && r.white == white && IdSet(evidenceIds, c.evidence, EvidenceIdOf)
    requires forall e :: e in c.evidence ==> EvidenceFieldsOk(e, r)
    ensures ok <==> forall id :: id in ids ==> Lists(c.evidence, EvidenceIdOf, id)
  {
    for i := 0 to |ids|
    {
      VisibleEvidence(ids[i], c.evidence, white, r);
      assert ids[i] in ids;
      if !TextOk(ids[i], 100, r) {
        return false;
      }
    }
    for i := 0 to |ids|
      invariant forall id :: id in ids[..i] ==> Lists(c.evidence, EvidenceIdOf, id)
    {
      if ids[i] !in evidenceIds {
        return false;
      }
    }
    ok := true;
  }

  /** `classForSource`, which has no entry for agents. */
  function ClassForSource(kind: SourceKind): CandidateClass
    requires !kind.Agent?
  {
    match kind
    case SecureEngine => EngineCandidate
    case SecureSkillContextual => ContextualCandidate
    case ExternalSarif => ExternalToolCandidate
  }

  method ParseCandidate(x: Candidate, c: Case, kinds: map<string, SourceKind>, evidenceIds: set<string>,
                        white: char -> bool, r: Reading)
    returns (ok: bool)
    requires Sane(white) && r.white == white && IdOk(x.candidateId, "sf_candidate_")
    requires KindMap(kinds, c.sources) && IdSet(evidenceIds, c.evidence, EvidenceIdOf)
    requires forall s :: s in c.sources ==> SourceFieldsOk(s, r)
    requires forall e :: e in c.evidence ==> EvidenceFieldsOk(e, r)
    ensures ok <==> CandidateFieldsOk(x, r) && CandidateLinked(x, c) && CandidateStateOk(x, c.sources)
  {
    VisibleSource(x.sourceId, c.sources, white, r);
    if Blank(x.sourceId, white) || x.sourceId !in kinds {
      return false;
    }
    if kinds[x.sourceId].Agent? || ClassForSource(kinds[x.sourceId]) != x.class_ {
      return false;
    }
    var linked := ParseEvidenceIds(x.evidenceIds, c, evidenceIds, white, r);
    if !linked {
      return false;
    }
    if !TextOk(x.title, 500, r) || !TextOk(x.confidence, 40, r) {
      return false;
    }
    var limited := ParseLimitations(x.limitations, r);
    ok := limited && OptionalTextOk(x.severity, 40, r);
  }

  method ParseLimitations(limitations: seq<string>, r: Reading) returns (ok: bool)
    ensures ok <==> forall limitation :: limitation in limitations ==> TextOk(limitation, 4000, r)
  {
    for i := 0 to |limitations|
      invariant forall limitation :: limitation in limitations[..i] ==> TextOk(limitation, 4000, r)
    {
      if !TextOk(limitations[i], 4000, r) {
        return false;
      }
    }
    ok := true;
  }

  method ParseCandidates(c: Case, kinds: map<string, SourceKind>, evidenceIds: set<string>, white: char -> bool,
                         r: Reading)
    returns (ok: bool, ids: set<string>)
    requires Sane(white) && r.white == white
    requires KindMap(kinds, c.sources) && IdSet(evidenceIds, c.evidence, EvidenceIdOf)
    requires forall s :: s in c.sources ==> SourceFieldsOk(s, r)
    requires forall e :: e in c.evidence ==> EvidenceFieldsOk(e, r)
    ensures ok <==> (forall x :: x in c.candidates ==> CandidateFieldsOk(x, r)) && Unique(c.candidates, CandidateIdOf)
                    && (forall x :: x in c.candidates ==> CandidateLinked(x, c))
                    && (forall x :: x in c.candidates ==> CandidateStateOk(x, c.sources))
    ensures ok ==> IdSet(ids, c.candidates, CandidateIdOf)
  {
    var candidates := c.candidates;
    ids := {};
    for i := 0 to |candidates|
      invariant forall x :: x in candidates[..i] ==>
                  CandidateFieldsOk(x, r) && CandidateLinked(x, c) && CandidateStateOk(x, c.sources)
      invariant Unique(candidates[..i], CandidateIdOf)
      invariant IdSet(ids, candidates[..i], CandidateIdOf)
    {
      var x := candidates[i];
      assert x in candidates && candidates[..i + 1] == candidates[..i] + [x];
      var idOk := IdAt(x.candidateId, OfCandidate, white);
      IdSetNext(ids, candidates, i, CandidateIdOf);
      if !idOk || x.candidateId in ids {
        return false, ids;
      }
      ids := ids + {x.candidateId};
      var parsed := ParseCandidate(x, c, kinds, evidenceIds, white, r);
      if !parsed {
        return false, ids;
      }
    }
    assert candidates[..|candidates|] == candidates;
    ok := true;
  }

  method ParseStages(c: Case, candidateIds: set<string>, white: char -> bool, r: Reading) returns (ok: bool)
    requires Sane(white) && r.white == white && IdSet(candidateIds, c.candidates, CandidateIdOf)
    requires forall x :: x in c.candidates ==> CandidateFieldsOk(x, r)
    ensures ok <==> (forall s :: s in c.staged ==> StageFieldsOk(s, r)) && Unique(c.staged, StageIdOf)
                    && forall s :: s in c.staged ==> Lists(c.candidates, CandidateIdOf, s.candidateId)
  {
    var staged := c.staged;
    var ids: set<string> := {};
    for i := 0 to |staged|
      invariant forall s :: s in staged[..i] ==>
                  StageFieldsOk(s, r) && Lists(c.candidates, CandidateIdOf, s.candidateId)
      invariant Unique(staged[..i], StageIdOf)
      invariant IdSet(ids, staged[..i], StageIdOf)
    {
      var s := staged[i];
      assert s in staged && staged[..i + 1] == staged[..i] + [s];
      var idOk := IdAt(s.stageId, OfStage, white);
      IdSetNext(ids, staged, i, StageIdOf);
      if !idOk || s.stageId in ids {
        return false;
      }
      ids := ids + {s.stageId};
      VisibleCandidate(s.candidateId, c.candidates, white, r);
      if Blank(s.candidateId, white) || s.candidateId !in candidateIds {
        return false;
      }
      if !TextOk(s.agentName, 200, r) || !TextOk(s.recommendation, 40, r) || !TextOk(s.rationale, 3000, r)
         || !r.timestamp(s.createdAt) {
        return false;
      }
    }
    assert staged[..|staged|] == staged;
    ok := true;
  }

  predicate DecisionTextsOk(d: Decision, r: Reading) {
    && TextOk(d.reviewer, 200, r) && TextOk(d.rationale, 3000, r) && r.timestamp(d.decidedAt)
    && OptionalTextOk(d.evidenceReference, 300, r)
  }

  method ParseDecisions(c: Case, candidateIds: set<string>, white: char -> bool, r: Reading) returns (ok: bool)
    requires Sane(white) && r.white == white && IdSet(candidateIds, c.candidates, CandidateIdOf)
    requires forall x :: x in c.candidates ==> CandidateFieldsOk(x, r)
    ensures ok <==> (forall d :: d in c.decisions ==> DecisionFieldsOk(d, r))
                    && Unique(c.decisions, DecisionIdOf) && Unique(c.decisions, DecidedCandidateOf)
                    && forall d :: d in c.decisions ==> Lists(c.candidates, CandidateIdOf, d.candidateId)
  {
    var decisions := c.decisions;
    var ids: set<string>, decided: set<string> := {}, {};
    for i := 0 to |decisions|
      invariant forall d :: d in decisions[..i] ==>
                  DecisionFieldsOk(d, r) && Lists(c.candidates, CandidateIdOf, d.candidateId)
      invariant Unique(decisions[..i], DecisionIdOf) && Unique(decisions[..i], DecidedCandidateOf)
      invariant IdSet(ids, decisions[..i], DecisionIdOf) && IdSet(decided, decisions[..i], DecidedCandidateOf)
    {
      var d := decisions[i];
      assert d in decisions && decisions[..i + 1] == decisions[..i] + [d];
      var idOk := IdAt(d.decisionId, OfDecision, white);
      IdSetNext(ids, decisions, i, DecisionIdOf);
      IdSetNext(decided, decisions, i, DecidedCandidateOf);
      if !idOk || d.decisionId in ids {
        return false;
      }
      ids := ids + {d.decisionId};
      VisibleCandidate(d.candidateId, c.candidates, white, r);
      if Blank(d.candidateId, white) || d.candidateId !in candidateIds || d.candidateId in decided {
        return false;
      }
      decided := decided + {d.candidateId};
      if !DecisionTextsOk(d, r) {
        return false;
      }
    }
    assert decisions[..|decisions|] == decisions;
    ok := true;
  }

  /** Everything of the header but the label and the root hash. */
  predicate EarlyHeaderOk(c: Case, r: Reading) {
    && IdOk(c.caseId, "sf_case_") && r.timestamp(c.createdAt)
    && TextOk(c.target.authorization.basis, 100, r) && TextOk(c.target.authorization.reviewer, 200, r)
    && OptionalTextOk(c.target.authorization.reference, 300, r)
    && (c.target.authorization.expiresAt.Some? ==> r.timestamp(c.target.authorization.expiresAt.value))
    && (c.target.revision.Some? ==>
          TextOk(c.target.revision.value.kind, 40, r) && TextOk(c.target.revision.value.value, 200, r))
  }

  method ParseHeader(c: Case, white: char -> bool, r: Reading) returns (ok: bool)
    requires Sane(white) && r.white == white
    ensures ok <==> c.contractVersion == CONTRACT_VERSION && c.target.authorization.status == "authorized"
                    && EarlyHeaderOk(c, r)
  {
    var idOk := IdAt(c.caseId, OfCase, white);
    var authorization := c.target.authorization;
    if c.contractVersion != CONTRACT_VERSION || !idOk || !r.timestamp(c.createdAt)
       || authorization.status != "authorized" || !TextOk(authorization.basis, 100, r)
       || !TextOk(authorization.reviewer, 200, r) || !OptionalTextOk(authorization.reference, 300, r)
       || (authorization.expiresAt.Some? && !r.timestamp(authorization.expiresAt.value)) {
      return false;
    }
    if c.target.revision.Some? {
      var revision := c.target.revision.value;
      if !TextOk(revision.kind, 40, r) || !TextOk(revision.value, 200, r) {
        return false;
      }
    }
    ok := true;
  }

  /** `parseSecurityCase` on a well-typed value: label and root hash are looked at last. */
  method ParseSecurityCase(c: Case, white: char -> bool, timestamp: string -> bool) returns (ok: bool)
    requires Sane(white)
    ensures ok <==> CaseOk(c, JsReading(white, timestamp))
    // Spelled out: each class rests on exactly its own kind of source.
    ensures ok ==>
              forall x, s :: x in c.candidates && s in c.sources && s.sourceId == x.sourceId ==>
                && (x.class_ == EngineCandidate <==> s.kind == SecureEngine)
                && (x.class_ == ContextualCandidate <==> s.kind == SecureSkillContextual)
                && (x.class_ == ExternalToolCandidate <==> s.kind == ExternalSarif)
  {
    ok := ParseAs(c, white, JsReading(white, timestamp));
  }

  method ParseAs(c: Case, white: char -> bool, r: Reading) returns (ok: bool)
    requires Sane(white) && r.white == white && r.path == JsPath(white)
    ensures ok <==> CaseOk(c, r)
  {
    var shaOk := ShaAt(c.target.rootSha256, white);
    HeaderAndLists(c, r);
    var headerOk := ParseHeader(c, white, r);
    if !headerOk {
      return false;
    }
    var listsOk := ParseLists(c, white, r);
    ok := listsOk && TextOk(c.target.targetLabel, 200, r) && shaOk;
  }

  /** The contract minus the header. */
  ghost predicate ListsOk(c: Case, r: Reading) {
    && (forall s :: s in c.sources ==> SourceFieldsOk(s, r))
    && (forall e :: e in c.evidence ==> EvidenceFieldsOk(e, r))
    && (forall x :: x in c.candidates ==> CandidateFieldsOk(x, r) && CandidateStateOk(x, c.sources))
    && (forall s :: s in c.staged ==> StageFieldsOk(s, r))
    && (forall d :: d in c.decisions ==> DecisionFieldsOk(d, r))
    && IdsUnique(c) && NoDangling(c)
  }

  lemma HeaderAndLists(c: Case, r: Reading)
    ensures CaseOk(c, r) <==>
              && c.contractVersion == CONTRACT_VERSION && c.target.authorization.status == "authorized"
              && EarlyHeaderOk(c, r) && TextOk(c.target.targetLabel, 200, r) && ShaOk(c.target.rootSha256)
              && ListsOk(c, r)
  {
    StateByCandidate(c);
  }

  method ParseLists(c: Case, white: char -> bool, r: Reading) returns (ok: bool)
    requires Sane(white) && r.white == white && r.path == JsPath(white)
    ensures ok <==> ListsOk(c, r)
  {
    var sourcesOk, kinds := ParseSources(c.sources, white, r);
    if !sourcesOk {
      return false;
    }
    var evidenceOk, evidenceIds := ParseEvidence(c, kinds, white, r);
    if !evidenceOk {
      return false;
    }
    var candidatesOk, candidateIds := ParseCandidates(c, kinds, evidenceIds, white, r);
    if !candidatesOk {
      return false;
    }
    var stagesOk := ParseStages(c, candidateIds, white, r);
    if !stagesOk {
      return false;
    }
    ok := ParseDecisions(c, candidateIds, white, r);
  }

  // ---------------------------------------------------------------- agreement

  /** Relative paths that the browser side accepts on top of the shared path rule. */
  ghost predicate PathsVisible(c: Case, white: char -> bool) {
    forall e :: e in c.evidence && e.relativePath.Some? ==>
      !Blank(e.relativePath.value, white) && Utf8Length(e.relativePath.value) <= 9007199254740991
  }

  lemma SameTexts(c: Case, a: Reading, b: Reading)
    requires a.white == b.white && forall s :: a.timestamp(s) <==> b.timestamp(s)
    ensures HeaderFieldsOk(c, a) <==> HeaderFieldsOk(c, b)
    ensures forall s :: SourceFieldsOk(s, a) <==> SourceFieldsOk(s, b)
    ensures forall x :: CandidateFieldsOk(x, a) <==> CandidateFieldsOk(x, b)
    ensures forall s :: StageFieldsOk(s, a) <==> StageFieldsOk(s, b)
    ensures forall d :: DecisionFieldsOk(d, a) <==> DecisionFieldsOk(d, b)
  {
  }

  /** The browser's reading with the shared path rule in place of its own. */
  function SharedPaths(white: char -> bool, timestamp: string -> bool): Reading {
    Reading(white, (s: string) => !Blank(s, white) && timestamp(s), PathText)
  }

  lemma EvidenceDiffers(e: Evidence, white: char -> bool, timestamp: string -> bool)
    ensures EvidenceFieldsOk(e, JsReading(white, timestamp)) <==>
              EvidenceFieldsOk(e, SharedPaths(white, timestamp))
              && (e.relativePath.Some? ==>
                    !Blank(e.relativePath.value, white) && Utf8Length(e.relativePath.value) <= MAX_SAFE_INTEGER)
  {
  }

  lemma PathsDiffer(c: Case, white: char -> bool, timestamp: string -> bool)
    ensures FieldsOk(c, JsReading(white, timestamp)) <==>
              FieldsOk(c, SharedPaths(white, timestamp)) && PathsVisible(c, white)
  {
    SameTexts(c, JsReading(white, timestamp), SharedPaths(white, timestamp));
    forall e | e in c.evidence {
      EvidenceDiffers(e, white, timestamp);
    }
  }

  /** A timestamp parser that refuses blank strings reads as it would after the browser's blankness test. */
  lemma BlankStamps(c: Case, white: char -> bool, timestamp: string -> bool)
    requires forall s :: timestamp(s) ==> !Blank(s, white)
    ensures FieldsOk(c, SharedPaths(white, timestamp)) <==> FieldsOk(c, RustReading(white, timestamp))
  {
    SameTexts(c, SharedPaths(white, timestamp), RustReading(white, timestamp));
    forall e
      ensures EvidenceFieldsOk(e, SharedPaths(white, timestamp)) <==> EvidenceFieldsOk(e, RustReading(white, timestamp))
    {
    }
  }

  /** With the same white space and the same timestamps the two implementations differ on one thing only:
      a relative path that is all white space, or longer than the largest safe integer. */
  lemma ValidatorsAgree(c: Case, white: char -> bool, timestamp: string -> bool)
    requires forall s :: timestamp(s) ==> !Blank(s, white)
    ensures CaseOk(c, JsReading(white, timestamp)) <==>
              CaseOk(c, RustReading(white, timestamp)) && PathsVisible(c, white)
  {
    PathsDiffer(c, white, timestamp);
    BlankStamps(c, white, timestamp);
  }

  // ---------------------------------------------------------------- the two platforms' own white space

  predicate OptionalVisible(s: Option<string>, white: char -> bool) {
    s.Some? ==> !Blank(s.value, white)
  }

  ghost predicate HeaderVisible(c: Case, white: char -> bool) {
    && !Blank(c.target.targetLabel, white)
    && !Blank(c.target.authorization.basis, white) && !Blank(c.target.authorization.reviewer, white)
    && OptionalVisible(c.target.authorization.reference, white)
    && (c.target.revision.Some? ==>
          !Blank(c.target.revision.value.kind, white) && !Blank(c.target.revision.value.value, white))
  }

  ghost predicate CandidateVisible(x: Candidate, white: char -> bool) {
    && !Blank(x.title, white) && !Blank(x.confidence, white) && OptionalVisible(x.severity, white)
    && forall limitation :: limitation in x.limitations ==> !Blank(limitation, white)
  }

  /** No text field is blank for the given white space. */
  ghost predicate TextsVisible(c: Case, white: char -> bool) {
    && HeaderVisible(c, white)
    && (forall s :: s in c.sources ==>
          !Blank(s.name, white) && !Blank(s.version, white) && OptionalVisible(s.methodology, white))
    && (forall e :: e in c.evidence ==> !Blank(e.description, white))
    && (forall x :: x in c.candidates ==> CandidateVisible(x, white))
    && (forall s :: s in c.staged ==>
          !Blank(s.agentName, white) && !Blank(s.recommendation, white) && !Blank(s.rationale, white))
    && (forall d :: d in c.decisions ==>
          !Blank(d.reviewer, white) && !Blank(d.rationale, white) && OptionalVisible(d.evidenceReference, white))
  }

  /** Every timestamp of the case passes. */
  ghost predicate StampsOk(c: Case, timestamp: string -> bool) {
    && timestamp(c.createdAt)
    && (c.target.authorization.expiresAt.Some? ==> timestamp(c.target.authorization.expiresAt.value))
    && (forall s :: s in c.staged ==> timestamp(s.createdAt))
    && (forall d :: d in c.decisions ==> timestamp(d.decidedAt))
  }

  lemma CandidateVisibleInBoth(x: Candidate, a: Reading, b: Reading)
    requires CandidateFieldsOk(x, a) && CandidateVisible(x, b.white)
    ensures CandidateFieldsOk(x, b)
  {
  }

  lemma HeaderVisibleInBoth(c: Case, a: Reading, b: Reading)
    requires HeaderFieldsOk(c, a) && HeaderVisible(c, b.white) && StampsOk(c, b.timestamp)
    ensures HeaderFieldsOk(c, b)
  {
  }

  /** What one reading accepts, another one does as soon as texts and stamps pass there too. */
  lemma ReadOtherwise(c: Case, a: Reading, b: Reading)
    requires a.path == b.path
    requires FieldsOk(c, a) && TextsVisible(c, b.white) && StampsOk(c, b.timestamp)
    ensures FieldsOk(c, b)
  {
    HeaderVisibleInBoth(c, a, b);
    forall x | x in c.candidates
      ensures CandidateFieldsOk(x, b)
    {
      CandidateVisibleInBoth(x, a, b);
    }
  }

  lemma FieldsVisible(c: Case, r: Reading)
    requires FieldsOk(c, r)
    ensures TextsVisible(c, r.white) && StampsOk(c, r.timestamp)
  {
  }

  /** The exact difference on the real platforms, each with its own white space and its own timestamp parser.
      Whichever side accepts, the other one does too exactly when it also finds every text visible and every
      timestamp well formed, and, for the browser, every relative path visible and countable. */
  lemma PlatformsAgreeExactly(c: Case, rustTime: string -> bool, jsTime: string -> bool)
    ensures var rust, js := RustReading(RustWhite, rustTime), JsReading(JsWhite, jsTime);
            && (CaseOk(c, rust) ==>
                  (CaseOk(c, js) <==>
                     TextsVisible(c, JsWhite) && PathsVisible(c, JsWhite) && StampsOk(c, js.timestamp)))
            && (CaseOk(c, js) ==> (CaseOk(c, rust) <==> TextsVisible(c, RustWhite) && StampsOk(c, rustTime)))
  {
    var rust, shared := RustReading(RustWhite, rustTime), SharedPaths(JsWhite, jsTime);
    PathsDiffer(c, JsWhite, jsTime);
    if FieldsOk(c, rust) {
      FieldsVisible(c, rust);
      if TextsVisible(c, JsWhite) && StampsOk(c, shared.timestamp) {
        ReadOtherwise(c, rust, shared);
      }
    }
    if FieldsOk(c, shared) {
      FieldsVisible(c, shared);
      if TextsVisible(c, RustWhite) && StampsOk(c, rustTime) {
        ReadOtherwise(c, shared, rust);
      }
    }
  }

  // ---------------------------------------------------------------- the browser's timestamps

  predicate DigitsAt(s: string, from: nat, count: nat) {
    from + count <= |s| && forall k :: from <= k < from + count ==> '0' <= s[k] <= '9'
  }

  function TwoDigits(s: string, from: nat): int
    requires from + 2 <= |s|
  {
    10 * (s[from] as int - 48) + (s[from + 1] as int - 48)
  }

  predicate Fraction(s: string) {
    s == [] || (|s| >= 2 && s[0] == '.' && DigitsAt(s, 1, |s| - 1))
  }

  /** `Z`, or a signed offset of hours and minutes in range. */
  predicate Zone(s: string) {
    || s == "Z"
    || (|s| == 6 && (s[0] == '+' || s[0] == '-') && DigitsAt(s, 1, 2) && s[3] == ':' && DigitsAt(s, 4, 2)
        && TwoDigits(s, 1) <= 23 && TwoDigits(s, 4) <= 59)
  }

  function DaysIn(year: int, month: int): int {
    if month == 2 then (if year % 4 == 0 && (year % 100 != 0 || year % 400 == 0) then 29 else 28)
    else if month in {4, 6, 9, 11} then 30
    else 31
  }

  lemma FourHundred(q: int)
    ensures (400 * q) % 4 == 0 && (400 * q) % 100 == 0
  {
    assert 400 * q == 4 * (100 * q) && 400 * q == 100 * (4 * q);
  }

  /** Spelled out: February has 29 days in years divisible by four but not by a hundred, or by four hundred. */
  lemma February(year: int)
    ensures DaysIn(year, 2) == if year % 400 == 0 || (year % 4 == 0 && year % 100 != 0) then 29 else 28
  {
    if year % 400 == 0 {
      FourHundred(year / 400);
      assert year == 400 * (year / 400);
    }
  }

  /** And the other months have 31 or 30 days. */
  lemma OtherMonths(year: int, month: int)
    requires 1 <= month <= 12 && month != 2
    ensures DaysIn(year, month) == if month in {1, 3, 5, 7, 8, 10, 12} then 31 else 30
  {
  }

  predicate DateAndTime(s: string) {
    && |s| == 19 && DigitsAt(s, 0, 4) && s[4] == '-' && DigitsAt(s, 5, 2) && s[7] == '-' && DigitsAt(s, 8, 2)
    && s[10] == 'T' && DigitsAt(s, 11, 2) && s[13] == ':' && DigitsAt(s, 14, 2) && s[16] == ':' && DigitsAt(s, 17, 2)
    && 1 <= TwoDigits(s, 5) <= 12
    && 1 <= TwoDigits(s, 8) <= DaysIn(100 * TwoDigits(s, 0) + TwoDigits(s, 2), TwoDigits(s, 5))
    && TwoDigits(s, 11) <= 23 && TwoDigits(s, 14) <= 59 && TwoDigits(s, 17) <= 59
  }

  predicate Stamp(s: string) {
    |s| >= 20 && DateAndTime(s[..19]) && exists k :: 19 <= k < |s| && Fraction(s[19..k]) && Zone(s[k..])
  }

  /** `timestampAt`; `dateParses` is the engine's own `Date.parse`. */
  function BrowserTime(dateParses: string -> bool): string -> bool {
    (s: string) => Stamp(s) && dateParses(s)
  }

  lemma ZoneEnd(z: string)
    requires Zone(z)
    ensures z != [] && (z[|z| - 1] == 'Z' || '0' <= z[|z| - 1] <= '9')
  {
    if z != "Z" {
      assert DigitsAt(z, 4, 2);
    }
  }

  /** The pattern ends in a capital `Z` or a digit. */
  lemma LastCharacter(s: string)
    requires Stamp(s)
    ensures s[|s| - 1] == 'Z' || '0' <= s[|s| - 1] <= '9'
  {
    var k :| 19 <= k < |s| && Fraction(s[19..k]) && Zone(s[k..]);
    ZoneEnd(s[k..]);
    assert s[|s| - 1] == s[k..][|s| - k - 1];
  }

  /** A case dated otherwise is read by each side as its own timestamp parser says. */
  lemma Redated(c: Case, stamp: string, r: Reading)
    requires CaseOk(c, r)
    ensures CaseOk(c.(createdAt := stamp), r) <==> r.timestamp(stamp)
  {
  }

  /** One of the timestamps of the case. */
  ghost predicate Dated(c: Case, stamp: string) {
    || c.createdAt == stamp
    || c.target.authorization.expiresAt == Some(stamp)
    || (exists s :: s in c.staged && s.createdAt == stamp)
    || (exists d :: d in c.decisions && d.decidedAt == stamp)
  }

  /** Wherever it stands, a stamp outside the pattern has the browser refuse the case, whoever else reads it. */
  lemma BrowserRefuses(c: Case, stamp: string, dateParses: string -> bool)
    requires Dated(c, stamp) && !Stamp(stamp)
    ensures !CaseOk(c, JsReading(JsWhite, BrowserTime(dateParses)))
  {
    var js := JsReading(JsWhite, BrowserTime(dateParses));
    assert !js.timestamp(stamp);
    if FieldsOk(c, js) {
      FieldsVisible(c, js);
    }
  }

  lemma LowerCaseZone(stamp: string)
    requires stamp != [] && stamp[|stamp| - 1] == 'z'
    ensures !Stamp(stamp)
  {
    if Stamp(stamp) {
      LastCharacter(stamp);
    }
  }

  lemma SecondSixty(stamp: string)
    requires |stamp| >= 19 && stamp[17..19] == "60"
    ensures !Stamp(stamp)
  {
    var front := stamp[..19];
    assert front[17] == stamp[17..19][0] == '6' && front[18] == stamp[17..19][1] == '0';
    assert TwoDigits(front, 17) == 60;
  }

  /** The browser refuses every case with a timestamp in lower-case zone, and every case with one in second
      sixty. */
  lemma BrowserRefusesThese(c: Case, stamp: string, dateParses: string -> bool)
    requires Dated(c, stamp)
    requires (stamp != [] && stamp[|stamp| - 1] == 'z') || (|stamp| >= 19 && stamp[17..19] == "60")
    ensures !CaseOk(c, JsReading(JsWhite, BrowserTime(dateParses)))
  {
    if stamp != [] && stamp[|stamp| - 1] == 'z' {
      LowerCaseZone(stamp);
    } else {
      SecondSixty(stamp);
    }
    BrowserRefuses(c, stamp, dateParses);
  }

  /** RFC 3339 allows a lower-case `z`. A parser that does so too accepts cases that the browser refuses. */
  lemma LowerCaseZoneSeparates(c: Case, stamp: string, rustTime: string -> bool, dateParses: string -> bool)
    requires CaseOk(c, RustReading(RustWhite, rustTime)) && rustTime(stamp) && stamp != [] && stamp[|stamp| - 1] == 'z'
    ensures CaseOk(c.(createdAt := stamp), RustReading(RustWhite, rustTime))
    ensures !CaseOk(c.(createdAt := stamp), JsReading(JsWhite, BrowserTime(dateParses)))
  {
    Redated(c, stamp, RustReading(RustWhite, rustTime));
    BrowserRefusesThese(c.(createdAt := stamp), stamp, dateParses);
  }

  /** The same for a leap second that the other parser reads. */
  lemma LeapSecondSeparates(c: Case, stamp: string, rustTime: string -> bool, dateParses: string -> bool)
    requires CaseOk(c, RustReading(RustWhite, rustTime)) && rustTime(stamp)
    requires |stamp| >= 19 && stamp[17..19] == "60"
    ensures CaseOk(c.(createdAt := stamp), RustReading(RustWhite, rustTime))
    ensures !CaseOk(c.(createdAt := stamp), JsReading(JsWhite, BrowserTime(dateParses)))
  {
    Redated(c, stamp, RustReading(RustWhite, rustTime));
    BrowserRefusesThese(c.(createdAt := stamp), stamp, dateParses);
  }

  // ---------------------------------------------------------------- cases that separate the two sides

  function Padding(): string {
    "aaaaaaaaaaaaaaaa"
  }

  /** One target, one source and one piece of evidence under a given path. */
  function SampleCase(stamp: string, shown: string, path: string): Case {
    var sha := seq(64, _ => 'a');
    Case(CONTRACT_VERSION, "sf_case_" + Padding(), stamp,
         Target(shown, sha, None, Authorization("authorized", "b", "r", None, None)),
         [Source("sf_source_" + Padding(), SecureEngine, "n", "v", sha, None)],
         [Evidence("sf_evidence_" + Padding(), "sf_source_" + Padding(), sha, "d", Some(path))], [], [], [])
  }

  lemma PaddedId(kind: Kind)
    ensures IdOk(KindPrefix(kind) + Padding(), KindPrefix(kind))
  {
    PrefixCharacters(kind);
  }

  /** Visible to both sides: neither counts a letter as white space. */
  lemma LetterText(c: char, limit: nat, r: Reading)
    requires 'a' <= c <= 'z' && limit >= 4 && (r.white == RustWhite || r.white == JsWhite)
    ensures TextOk([c], limit, r)
  {
    assert [c][0] in [c];
    Utf8Bound([c]);
  }

  lemma SampleLinks(stamp: string, shown: string, path: string)
    ensures Integrity(SampleCase(stamp, shown, path))
  {
    var c := SampleCase(stamp, shown, path);
    assert c.sources[0] in c.sources && SourceIdOf(c.sources[0]) == c.evidence[0].sourceId;
  }

  /** The sample is accepted exactly when its stamp, label and path are. */
  lemma SampleOk(stamp: string, shown: string, path: string, r: Reading)
    requires r.white == RustWhite || r.white == JsWhite
    ensures CaseOk(SampleCase(stamp, shown, path), r) <==>
              r.timestamp(stamp) && TextOk(shown, 200, r) && r.path(path)
  {
    var c := SampleCase(stamp, shown, path);
    PaddedId(OfCase);
    PaddedId(OfSource);
    PaddedId(OfEvidence);
    LetterText('b', 100, r);
    LetterText('r', 200, r);
    LetterText('n', 200, r);
    LetterText('v', 200, r);
    LetterText('d', 4000, r);
    SampleLinks(stamp, shown, path);
    assert c.sources[0] in c.sources && c.evidence[0] in c.evidence;
  }

  lemma OnePart(c: char)
    requires c != '/'
    ensures PathText([c])
  {
    assert [c][1..] == [];
    assert Split([]) == [""] && [""][1..] == [] && [c] + "" == [c];
    assert Split([c]) == [[c]];
  }

  lemma OneCharacterLabel(x: char, r: Reading)
    ensures TextOk([x], 200, r) <==> !r.white(x)
  {
    assert [x][0] in [x];
    Utf8Bound([x]);
  }

  lemma WhiteDiffers(x: char)
    ensures RustWhite(x) != JsWhite(x) <==> x == '\U{85}' || x == '\U{FEFF}'
  {
  }

  /** A case relabelled with one character is accepted exactly when that character is visible. */
  lemma Relabelled(c: Case, x: char, r: Reading)
    requires CaseOk(c, r)
    ensures CaseOk(c.(target := c.target.(targetLabel := [x])), r) <==> !r.white(x)
  {
    OneCharacterLabel(x, r);
  }

  /** Any case that both sides accept turns into one that only one side accepts by its label alone. */
  lemma LabelSeparates(c: Case, rustTime: string -> bool, jsTime: string -> bool)
    requires CaseOk(c, RustReading(RustWhite, rustTime)) && CaseOk(c, JsReading(JsWhite, jsTime))
    ensures var nextLine := c.(target := c.target.(targetLabel := "\U{85}"));
            !CaseOk(nextLine, RustReading(RustWhite, rustTime)) && CaseOk(nextLine, JsReading(JsWhite, jsTime))
    ensures var byteOrderMark := c.(target := c.target.(targetLabel := "\U{FEFF}"));
            CaseOk(byteOrderMark, RustReading(RustWhite, rustTime))
            && !CaseOk(byteOrderMark, JsReading(JsWhite, jsTime))
  {
    var rust, js := RustReading(RustWhite, rustTime), JsReading(JsWhite, jsTime);
    Relabelled(c, '\U{85}', rust);
    Relabelled(c, '\U{85}', js);
    Relabelled(c, '\U{FEFF}', rust);
    Relabelled(c, '\U{FEFF}', js);
  }

  /** A stamp that both sides read: then there is a case that both accept, one with a blank path that only
      Rust accepts, and for each of the two characters in question a label that only one side accepts. */
  lemma SidesSeparate(stamp: string, rustTime: string -> bool, jsTime: string -> bool)
    requires rustTime(stamp) && jsTime(stamp) && !Blank(stamp, JsWhite)
    ensures var rust, js := RustReading(RustWhite, rustTime), JsReading(JsWhite, jsTime);
            var both, blankPath := SampleCase(stamp, "x", "x"), SampleCase(stamp, "x", " ");
            var nextLine, byteOrderMark := SampleCase(stamp, "\U{85}", "x"), SampleCase(stamp, "\U{FEFF}", "x");
            && CaseOk(both, rust) && CaseOk(both, js)
            && CaseOk(blankPath, rust) && !CaseOk(blankPath, js)
            && !CaseOk(nextLine, rust) && CaseOk(nextLine, js)
            && CaseOk(byteOrderMark, rust) && !CaseOk(byteOrderMark, js)
    ensures forall x :: RustWhite(x) != JsWhite(x) <==> x == '\U{85}' || x == '\U{FEFF}'
  {
    var rust, js := RustReading(RustWhite, rustTime), JsReading(JsWhite, jsTime);
    SampleOk(stamp, "x", "x", rust);
    SampleOk(stamp, "x", "x", js);
    SampleOk(stamp, "x", " ", rust);
    SampleOk(stamp, "x", " ", js);
    SampleOk(stamp, "\U{85}", "x", rust);
    SampleOk(stamp, "\U{85}", "x", js);
    SampleOk(stamp, "\U{FEFF}", "x", rust);
    SampleOk(stamp, "\U{FEFF}", "x", js);
    SeparatingTexts(rust, js);
    forall x
      ensures RustWhite(x) != JsWhite(x) <==> x == '\U{85}' || x == '\U{FEFF}'
    {
      WhiteDiffers(x);
    }
  }

  lemma SeparatingTexts(rust: Reading, js: Reading)
    requires rust.white == RustWhite && rust.path == PathText && js.white == JsWhite && js.path == JsPath(JsWhite)
    ensures TextOk("x", 200, rust) && TextOk("x", 200, js) && rust.path("x") && js.path("x")
    ensures rust.path(" ") && !js.path(" ")
    ensures !TextOk("\U{85}", 200, rust) && TextOk("\U{85}", 200, js)
    ensures TextOk("\U{FEFF}", 200, rust) && !TextOk("\U{FEFF}", 200, js)
  {
    OnePart('x');
    OnePart(' ');
    OneCharacterLabel('x', rust);
    OneCharacterLabel('x', js);
    OneCharacterLabel('\U{85}', rust);
    OneCharacterLabel('\U{85}', js);
    OneCharacterLabel('\U{FEFF}', rust);
    OneCharacterLabel('\U{FEFF}', js);
    assert " "[0] in " ";
  }

  lemma SampleDate()
    ensures DateAndTime("2026-09-17T12:00:00")
  {
  }

  /** An ordinary stamp passes the browser's parser, so the separation is not about nothing. */
  lemma SampleStamp(dateParses: string -> bool)
    requires dateParses("2026-09-17T12:00:00Z")
    ensures BrowserTime(dateParses)("2026-09-17T12:00:00Z") && !Blank("2026-09-17T12:00:00Z", JsWhite)
  {
    var s := "2026-09-17T12:00:00Z";
    assert s[0] in s;
    SampleDate();
    assert s[..19] == "2026-09-17T12:00:00";
    assert s[19..19] == [] && s[19..] == "Z";
    assert Fraction(s[19..19]) && Zone(s[19..]);
  }
}
