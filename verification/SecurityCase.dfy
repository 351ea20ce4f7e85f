/** The Security Case contract: its data, and what an acceptable case is, stated without any order of checks. */
module SecurityCase {
  import opened Characters
  import opened Wrappers

  datatype SourceKind = SecureEngine | SecureSkillContextual | ExternalSarif | Agent
  datatype CandidateClass = EngineCandidate | ContextualCandidate | ExternalToolCandidate
  datatype Verdict = Validated | Rejected | Abstained

  datatype Revision = Revision(kind: string, value: string)
  datatype Authorization = Authorization(
    status: string, basis: string, reviewer: string, reference: Option<string>, expiresAt: Option<string>)
  datatype Target = Target(
    targetLabel: string, rootSha256: string, revision: Option<Revision>, authorization: Authorization)
  datatype Source = Source(
    sourceId: string, kind: SourceKind, name: string, version: string, artifactSha256: string,
    methodology: Option<string>)
  datatype Evidence = Evidence(
    evidenceId: string, sourceId: string, sha256: string, description: string, relativePath: Option<string>)
  datatype Candidate = Candidate(
    candidateId: string, sourceId: string, class_: CandidateClass, title: string, severity: Option<string>,
    confidence: string, evidenceIds: seq<string>, limitations: seq<string>)
  datatype Stage = Stage(
    stageId: string, candidateId: string, agentName: string, recommendation: string, rationale: string,
    createdAt: string)
  datatype Decision = Decision(
    decisionId: string, candidateId: string, verdict: Verdict, reviewer: string, rationale: string, decidedAt: string,
    evidenceReference: Option<string>)

  datatype Case = Case(
    contractVersion: string, caseId: string, createdAt: string, target: Target, sources: seq<Source>,
    evidence: seq<Evidence>, candidates: seq<Candidate>, staged: seq<Stage>, decisions: seq<Decision>)

  const CONTRACT_VERSION := "secureflow-security-case-v1"

  /** What the two implementations take from their platforms: which characters `trim` removes, which
      strings are RFC 3339 timestamps, and which relative paths they admit. */
  datatype Reading = Reading(white: char -> bool, timestamp: string -> bool, path: string -> bool)

  // ---------------------------------------------------------------- text

  predicate TextOk(s: string, limit: nat, r: Reading) {
    !Blank(s, r.white) && Utf8Length(s) <= limit
  }

  predicate OptionalTextOk(s: Option<string>, limit: nat, r: Reading) {
    s.Some? ==> TextOk(s.value, limit, r)
  }

  predicate IdCharacter(c: char) {
    'a' <= c <= 'z' || '0' <= c <= '9' || c == '_'
  }

  predicate IdOk(s: string, prefix: string) {
    prefix <= s && |prefix| + 16 <= |s| <= 100 && forall c :: c in s ==> IdCharacter(c)
  }

  // ---------------------------------------------------------------- fields

  predicate HeaderFieldsOk(c: Case, r: Reading) {
    && IdOk(c.caseId, "sf_case_") && r.timestamp(c.createdAt)
    && TextOk(c.target.targetLabel, 200, r) && ShaOk(c.target.rootSha256)
    && TextOk(c.target.authorization.basis, 100, r)
    && TextOk(c.target.authorization.reviewer, 200, r)
    && OptionalTextOk(c.target.authorization.reference, 300, r)
    && (c.target.authorization.expiresAt.Some? ==> r.timestamp(c.target.authorization.expiresAt.value))
    && (c.target.revision.Some? ==>
          TextOk(c.target.revision.value.kind, 40, r) && TextOk(c.target.revision.value.value, 200, r))
  }

  predicate SourceFieldsOk(s: Source, r: Reading) {
    && IdOk(s.sourceId, "sf_source_") && TextOk(s.name, 200, r) && TextOk(s.version, 200, r)
    && ShaOk(s.artifactSha256) && OptionalTextOk(s.methodology, 2000, r)
  }

  predicate EvidenceFieldsOk(e: Evidence, r: Reading) {
    && IdOk(e.evidenceId, "sf_evidence_") && ShaOk(e.sha256) && TextOk(e.description, 4000, r)
    && (e.relativePath.Some? ==> r.path(e.relativePath.value))
  }

  predicate CandidateFieldsOk(c: Candidate, r: Reading) {
    && IdOk(c.candidateId, "sf_candidate_") && TextOk(c.title, 500, r) && TextOk(c.confidence, 40, r)
    && OptionalTextOk(c.severity, 40, r)
    && forall limitation :: limitation in c.limitations ==> TextOk(limitation, 4000, r)
  }

  predicate StageFieldsOk(s: Stage, r: Reading) {
    && IdOk(s.stageId, "sf_stage_") && TextOk(s.agentName, 200, r) && TextOk(s.recommendation, 40, r)
    && TextOk(s.rationale, 3000, r) && r.timestamp(s.createdAt)
  }

  predicate DecisionFieldsOk(d: Decision, r: Reading) {
    && IdOk(d.decisionId, "sf_decision_") && TextOk(d.reviewer, 200, r) && TextOk(d.rationale, 3000, r)
    && r.timestamp(d.decidedAt) && OptionalTextOk(d.evidenceReference, 300, r)
  }

  ghost predicate FieldsOk(c: Case, r: Reading) {
    && HeaderFieldsOk(c, r)
    && (forall s :: s in c.sources ==> SourceFieldsOk(s, r))
    && (forall e :: e in c.evidence ==> EvidenceFieldsOk(e, r))
    && (forall x :: x in c.candidates ==> CandidateFieldsOk(x, r))
    && (forall s :: s in c.staged ==> StageFieldsOk(s, r))
    && (forall d :: d in c.decisions ==> DecisionFieldsOk(d, r))
  }

  // ---------------------------------------------------------------- integrity

  predicate Unique<T>(items: seq<T>, id: T -> string) {
    forall i, j :: 0 <= i < j < |items| ==> id(items[i]) != id(items[j])
  }

  ghost predicate Lists<T(!new)>(items: seq<T>, id: T -> string, value: string) {
    exists x :: x in items && id(x) == value
  }

  function SourceIdOf(s: Source): string { s.sourceId }
  function EvidenceIdOf(e: Evidence): string { e.evidenceId }
  function CandidateIdOf(c: Candidate): string { c.candidateId }
  function StageIdOf(s: Stage): string { s.stageId }
  function DecisionIdOf(d: Decision): string { d.decisionId }
  function DecidedCandidateOf(d: Decision): string { d.candidateId }

  /** Identifiers are unique, and a candidate is decided at most once. */
  ghost predicate IdsUnique(c: Case) {
    && Unique(c.sources, SourceIdOf)
    && Unique(c.evidence, EvidenceIdOf)
    && Unique(c.candidates, CandidateIdOf)
    && Unique(c.staged, StageIdOf)
    && Unique(c.decisions, DecisionIdOf)
    && Unique(c.decisions, DecidedCandidateOf)
  }

  ghost predicate CandidateLinked(x: Candidate, c: Case) {
    && Lists(c.sources, SourceIdOf, x.sourceId)
    && forall id :: id in x.evidenceIds ==> Lists(c.evidence, EvidenceIdOf, id)
  }

  ghost predicate NoDangling(c: Case) {
    && (forall e :: e in c.evidence ==> Lists(c.sources, SourceIdOf, e.sourceId))
    && (forall x :: x in c.candidates ==> CandidateLinked(x, c))
    && (forall s :: s in c.staged ==> Lists(c.candidates, CandidateIdOf, s.candidateId))
    && (forall d :: d in c.decisions ==> Lists(c.candidates, CandidateIdOf, d.candidateId))
  }

  /** Each class may claim one kind of source and no other; an agent supports none. */
  predicate ClassMatches(kind: SourceKind, class_: CandidateClass) {
    && (class_ == EngineCandidate <==> kind == SecureEngine)
    && (class_ == ContextualCandidate <==> kind == SecureSkillContextual)
    && (class_ == ExternalToolCandidate <==> kind == ExternalSarif)
  }

  /** The target is authorized and no candidate claims more than its source's authority. */
  ghost predicate StateOk(c: Case) {
    && c.target.authorization.status == "authorized"
    && forall x, s :: x in c.candidates && s in c.sources && s.sourceId == x.sourceId ==> ClassMatches(s.kind, x.class_)
  }

  ghost predicate Integrity(c: Case) {
    IdsUnique(c) && NoDangling(c) && StateOk(c)
  }

  ghost predicate CaseOk(c: Case, r: Reading) {
    c.contractVersion == CONTRACT_VERSION && FieldsOk(c, r) && Integrity(c)
  }

  // ---------------------------------------------------------------- relative paths

  /** `split('/')`: one part more than there are separators. */
  function Split(s: string): (parts: seq<string>)
    ensures |parts| > 0
  {
    if s == [] then [""]
    else
      var rest := Split(s[1..]);
      if s[0] == '/' then [""] + rest else [[s[0]] + rest[0]] + rest[1..]
  }

  predicate PathText(s: string) {
    s != [] && s[0] != '/' && forall part :: part in Split(s) ==> part != [] && part != ".."
  }

  /** The piece of `s` between two places is a whole component: separators or ends on both sides, none within. */
  ghost predicate Piece(s: string, i: nat, j: nat) {
    && i <= j <= |s| && (i == 0 || s[i - 1] == '/') && (j == |s| || s[j] == '/') && '/' !in s[i..j]
  }

  /** The components of a path are its pieces. */
  lemma {:induction false} SplitPieces(s: string, part: string)
    ensures part in Split(s) <==> exists i: nat, j: nat :: Piece(s, i, j) && part == s[i..j]
    decreases |s|, 1
  {
    FirstPart(s);
    LaterParts(s, part);
    var first := Split(s)[0];
    assert Split(s) == [first] + Split(s)[1..];
    if i: nat, j: nat :| Piece(s, i, j) && part == s[i..j] && i == 0 {
      SameEnd(s, j, |first|);
    }
  }

  /** The first part ends at the first separator. */
  lemma {:induction false} FirstPart(s: string)
    ensures |Split(s)[0]| <= |s| && Split(s)[0] == s[..|Split(s)[0]|] && Piece(s, 0, |Split(s)[0]|)
  {
    if s != [] && s[0] != '/' {
      FirstPart(s[1..]);
      var k := |Split(s[1..])[0]|;
      assert s[..k + 1] == [s[0]] + s[1..][..k];
      assert s[0..k + 1] == s[..k + 1];
    }
  }

  lemma TailSlice(s: string, i: nat, j: nat)
    requires 1 <= i <= j <= |s|
    ensures s[i..j] == s[1..][i - 1..j - 1]
  {
    forall k | 0 <= k < j - i
      ensures s[i..j][k] == s[1..][i - 1..j - 1][k]
    {
    }
  }

  lemma PieceForward(s: string, i: nat, j: nat)
    requires s != [] && Piece(s[1..], i, j) && (i > 0 || s[0] == '/')
    ensures Piece(s, i + 1, j + 1) && s[i + 1..j + 1] == s[1..][i..j]
  {
    TailSlice(s, i + 1, j + 1);
  }

  lemma PieceBack(s: string, i: nat, j: nat)
    requires s != [] && 0 < i && Piece(s, i, j)
    ensures Piece(s[1..], i - 1, j - 1) && s[i..j] == s[1..][i - 1..j - 1] && (i > 1 || s[0] == '/')
  {
    TailSlice(s, i, j);
  }

  /** The parts after the first are the pieces that start behind a separator. */
  lemma {:induction false} LaterParts(s: string, part: string)
    ensures part in Split(s)[1..] <==> exists i: nat, j: nat :: i > 0 && Piece(s, i, j) && part == s[i..j]
    decreases |s|, 0
  {
    if s != [] {
      var t := s[1..];
      assert Split(s)[1..] == if s[0] == '/' then Split(t) else Split(t)[1..];
      if s[0] == '/' {
        SplitPieces(t, part);
      } else {
        LaterParts(t, part);
      }
      if part in Split(s)[1..] {
        var i: nat, j: nat :| (i > 0 || s[0] == '/') && Piece(t, i, j) && part == t[i..j];
        PieceForward(s, i, j);
      }
      if i: nat, j: nat :| i > 0 && Piece(s, i, j) && part == s[i..j] {
        PieceBack(s, i, j);
      }
    }
  }

  lemma SlashWithin(s: string, i: nat, j: nat, m: nat)
    requires i <= m < j <= |s| && s[m] == '/'
    ensures '/' in s[i..j]
  {
    assert s[i..j][m - i] == '/';
  }

  /** Only one piece starts at the beginning. */
  lemma SameEnd(s: string, j: nat, k: nat)
    requires Piece(s, 0, j) && Piece(s, 0, k)
    ensures j == k
  {
    if j < k {
      SlashWithin(s, 0, k, j);
    } else if k < j {
      SlashWithin(s, 0, j, k);
    }
  }

  /** Spelled out: no component is empty and none is `..`. */
  lemma PathMeaning(s: string)
    ensures PathText(s) <==> forall i: nat, j: nat :: Piece(s, i, j) ==> s[i..j] != "" && s[i..j] != ".."
  {
    forall part
      ensures part in Split(s) <==> exists i: nat, j: nat :: Piece(s, i, j) && part == s[i..j]
    {
      SplitPieces(s, part);
    }
    if s == [] || s[0] == '/' {
      assert Piece(s, 0, 0) && s[0..0] == "";
    }
    if PathText(s) {
      forall i: nat, j: nat | Piece(s, i, j)
        ensures s[i..j] != "" && s[i..j] != ".."
      {
        assert s[i..j] in Split(s);
      }
    }
  }

  lemma {:induction false} UniqueSnoc<T(!new)>(items: seq<T>, i: nat, id: T -> string)
    requires i < |items|
    ensures Unique(items[..i + 1], id) <==> Unique(items[..i], id) && !Lists(items[..i], id, id(items[i]))
  {
    var longer := items[..i + 1];
    if Unique(items[..i], id) && !Lists(items[..i], id, id(items[i])) {
      forall a, b | 0 <= a < b < |longer|
        ensures id(longer[a]) != id(longer[b])
      {
        assert items[..i][a] == longer[a];
        assert items[..i][a] in items[..i];
        if b < i {
          assert items[..i][b] == longer[b];
        }
      }
    }
    if Unique(longer, id) {
      assert longer[i] == items[i] && forall a :: 0 <= a < i ==> longer[a] == items[..i][a];
      forall x | x in items[..i]
        ensures id(x) != id(items[i])
      {
        var a :| 0 <= a < i && items[..i][a] == x;
        assert longer[a] == x;
      }
    }
  }
}
