/** The prospective-study contract: a frozen dataset, a sealed protocol, and submissions bound to both. */
module ProspectiveStudy {
  import opened Bytes
  import opened Characters
  import opened Wrappers

  datatype Split = Development | Validation | Holdout
  datatype Mode = SyntheticContractTest | PreregisteredHoldout

  datatype CaseCommitment = CaseCommitment(
    caseId: string, relativePath: string, artifactSha: string, language: string, split: Split, lineage: string,
    principalInvariantCount: u64)

  datatype Accounting = Accounting(
    totalCases: u64, developmentCases: u64, validationCases: u64, holdoutCases: u64, vulnerableCases: u64,
    safeControls: u64, holdoutVulnerable: u64, holdoutSafe: u64, custodianDeclared: bool)

  datatype DatasetDraft = DatasetDraft(
    frozenAt: string, expiresAt: string, purpose: Mode, cases: seq<CaseCommitment>, accounting: Accounting,
    provenanceSha: string, licenseSha: string, groundTruthSha: string, overlapAuditSha: string)

  datatype Dataset = Dataset(datasetId: string, draft: DatasetDraft)

  datatype LaneKind = SecureflowAssistedHuman | HumanComparator
  datatype Treatment = SecureflowAvailable | SecureflowUnavailable
  datatype Network = Disabled | RecordedRequired

  datatype Lane = Lane(
    laneId: string, kind: LaneKind, treatment: Treatment, group: string, cohort: string, configurationSha: string,
    capabilitySha: string, environmentSha: string, timeLimit: u64, network: Network, reviewers: u64)

  /** What the authors declare about the two lanes; each declaration must be true to be accepted. */
  datatype Declared = Declared(
    sameCaseInputs: bool, sameTimeLimit: bool, sameNetworkPolicy: bool, sameEnvironmentClass: bool,
    sameNonTreatmentTools: bool, treatmentIsOnlyPlannedDifference: bool, lanesReportedSeparately: bool)

  datatype Equivalence = Equivalence(groupId: string, secureflowLaneId: string, humanLaneId: string, declared: Declared)

  datatype Binding = Binding(
    datasetId: string, datasetSha: string, totalCases: u64, holdoutCases: u64, holdoutVulnerable: u64,
    holdoutSafe: u64, groundTruthSha: string)

  datatype Protocol = Protocol(
    protocolId: string, sealedAt: string, mode: Mode, dataset: Binding, provenanceSha: string, licenseSha: string,
    overlapAuditSha: string, randomizationSha: string, lanes: seq<Lane>, equivalence: Equivalence)

  datatype Submission = Submission(
    submissionId: string, protocolId: string, datasetId: string, laneId: string, caseId: string,
    attemptOrdinal: u64, recordedAt: string)

  /** RFC 3339 parsing, digests and identifiers of whole documents, and the long lists of single-field
      tests (hash shapes, texts, declared booleans, metrics) of each document. */
  datatype Platform = Platform(
    instant: string -> Option<int>,
    caseFields: CaseCommitment -> bool,
    datasetFields: Dataset -> bool,
    protocolFields: Protocol -> bool,
    submissionFields: Submission -> bool,
    sha: seq<byte> -> string)

  const MAX_DATASET_BYTES: nat := 8 * 1024 * 1024
  const MAX_CONTROL_ARTIFACT_BYTES: nat := 8 * 1024 * 1024

  // ---------------------------------------------------------------- the dataset

  function IdOf(c: CaseCommitment): string { c.caseId }
  function PathOf(c: CaseCommitment): string { c.relativePath }
  function HashOf(c: CaseCommitment): string { c.artifactSha }

  predicate Distinct(cases: seq<CaseCommitment>, key: CaseCommitment -> string) {
    forall i, j :: 0 <= i < j < |cases| ==> key(cases[i]) != key(cases[j])
  }

  /** Cases that share a lineage are in the same split. */
  predicate LineageConsistent(cases: seq<CaseCommitment>) {
    forall i, j :: 0 <= i < j < |cases| && cases[i].lineage == cases[j].lineage ==> cases[i].split == cases[j].split
  }

  function CountIn(cases: seq<CaseCommitment>, split: Split): nat {
    if cases == [] then 0
    else CountIn(cases[..|cases| - 1], split) + if cases[|cases| - 1].split == split then 1 else 0
  }

  predicate CaseOk(c: CaseCommitment, p: Platform) {
    p.caseFields(c) && c.principalInvariantCount == 1
  }

  ghost predicate CasesOk(cases: seq<CaseCommitment>, p: Platform) {
    && (forall c :: c in cases ==> CaseOk(c, p))
    && Distinct(cases, IdOf) && Distinct(cases, PathOf) && Distinct(cases, HashOf)
    && LineageConsistent(cases)
  }

  predicate TimesOk(d: DatasetDraft, p: Platform) {
    && p.instant(d.frozenAt).Some? && p.instant(d.expiresAt).Some?
    && p.instant(d.frozenAt).value < p.instant(d.expiresAt).value
  }

  ghost predicate AccountingOk(d: DatasetDraft) {
    var a := d.accounting;
    && a.totalCases == |d.cases|
    && a.developmentCases == CountIn(d.cases, Development)
    && a.validationCases == CountIn(d.cases, Validation)
    && a.holdoutCases == CountIn(d.cases, Holdout)
    && a.vulnerableCases + a.safeControls == a.totalCases
    && a.holdoutVulnerable + a.holdoutSafe == a.holdoutCases
    && a.custodianDeclared
  }

  predicate HoldoutLargeEnough(d: DatasetDraft) {
    d.purpose.PreregisteredHoldout? ==>
      d.accounting.holdoutCases >= 20 && d.accounting.holdoutVulnerable >= 10 && d.accounting.holdoutSafe >= 10
  }

  ghost predicate DatasetOk(d: Dataset, p: Platform) {
    && p.datasetFields(d) && TimesOk(d.draft, p) && 1 <= |d.draft.cases| <= 10_000
    && CasesOk(d.draft.cases, p) && AccountingOk(d.draft) && HoldoutLargeEnough(d.draft)
  }

  /** `checked_add` compared with `Some(total)`. */
  predicate SumIs(a: u64, b: u64, total: u64) {
    a + b <= U64_MAX && a + b == total
  }

  ghost predicate KeySet(keys: set<string>, cases: seq<CaseCommitment>, key: CaseCommitment -> string) {
    forall k :: k in keys <==> exists c :: c in cases && key(c) == k
  }

  /** Each lineage seen so far, with its one split. */
  ghost predicate SplitMap(splits: map<string, Split>, cases: seq<CaseCommitment>) {
    && (forall c :: c in cases ==> c.lineage in splits && splits[c.lineage] == c.split)
    && forall l :: l in splits ==> exists c :: c in cases && c.lineage == l
  }

  lemma DistinctNext(cases: seq<CaseCommitment>, i: nat, key: CaseCommitment -> string, keys: set<string>)
    requires i < |cases| && KeySet(keys, cases[..i], key)
    ensures Distinct(cases[..i + 1], key) <==> Distinct(cases[..i], key) && key(cases[i]) !in keys
    ensures KeySet(keys + {key(cases[i])}, cases[..i + 1], key)
    ensures Distinct(cases, key) ==> Distinct(cases[..i + 1], key)
  {
    var before, after := cases[..i], cases[..i + 1];
    assert after == before + [cases[i]];
    assert forall c :: c in after <==> c in before || c == cases[i];
    if Distinct(after, key) {
      forall c | c in before
        ensures key(c) != key(cases[i])
      {
        var a :| 0 <= a < i && before[a] == c;
        assert after[a] == c && after[i] == cases[i];
      }
      assert forall a :: 0 <= a < i ==> after[a] == before[a];
    }
    if Distinct(before, key) && key(cases[i]) !in keys {
      forall a, b | 0 <= a < b < |after|
        ensures key(after[a]) != key(after[b])
      {
        assert after[a] == before[a] && before[a] in before;
        if b < i {
          assert after[b] == before[b];
        }
      }
    }
  }

  lemma LineageConflict(cases: seq<CaseCommitment>, i: nat, splits: map<string, Split>)
    requires i < |cases| && SplitMap(splits, cases[..i]) && cases[i].lineage in splits
    requires LineageConsistent(cases[..i + 1])
    ensures splits[cases[i].lineage] == cases[i].split
  {
    var before, after := cases[..i], cases[..i + 1];
    var x :| x in before && x.lineage == cases[i].lineage;
    var a :| 0 <= a < i && before[a] == x;
    assert after[a] == x && after[i] == cases[i];
  }

  lemma LineageExtends(cases: seq<CaseCommitment>, i: nat, splits: map<string, Split>)
    requires i < |cases| && SplitMap(splits, cases[..i]) && LineageConsistent(cases[..i])
    requires cases[i].lineage in splits ==> splits[cases[i].lineage] == cases[i].split
    ensures LineageConsistent(cases[..i + 1])
  {
    var before, after := cases[..i], cases[..i + 1];
    forall a, b | 0 <= a < b < |after| && after[a].lineage == after[b].lineage
      ensures after[a].split == after[b].split
    {
      assert after[a] == before[a] && before[a] in before;
      if b < i {
        assert after[b] == before[b];
      }
    }
  }

  lemma SplitMapNext(cases: seq<CaseCommitment>, i: nat, splits: map<string, Split>)
    requires i < |cases| && SplitMap(splits, cases[..i])
    requires cases[i].lineage in splits ==> splits[cases[i].lineage] == cases[i].split
    ensures SplitMap(splits[cases[i].lineage := cases[i].split], cases[..i + 1])
  {
    var before, after, c := cases[..i], cases[..i + 1], cases[i];
    assert after == before + [c];
    assert forall x :: x in after <==> x in before || x == c;
  }

  lemma CaseFieldsNext(cases: seq<CaseCommitment>, i: nat, p: Platform)
    requires i < |cases| && CaseOk(cases[i], p) && forall c :: c in cases[..i] ==> CaseOk(c, p)
    ensures forall c :: c in cases[..i + 1] ==> CaseOk(c, p)
  {
    assert cases[..i + 1] == cases[..i] + [cases[i]];
  }

  /** What the checker knows after its first cases. */
  ghost predicate Scanned(cases: seq<CaseCommitment>, p: Platform, ids: set<string>, paths: set<string>,
                          hashes: set<string>, splits: map<string, Split>) {
    && CasesOk(cases, p)
    && KeySet(ids, cases, IdOf) && KeySet(paths, cases, PathOf) && KeySet(hashes, cases, HashOf)
    && SplitMap(splits, cases)
  }

  /** The test the loop body makes on its next case. */
  predicate NextOk(c: CaseCommitment, p: Platform, ids: set<string>, paths: set<string>, hashes: set<string>,
                   splits: map<string, Split>) {
    && CaseOk(c, p) && c.caseId !in ids && c.relativePath !in paths && c.artifactSha !in hashes
    && (c.lineage in splits ==> splits[c.lineage] == c.split)
  }

  lemma ScanNext(cases: seq<CaseCommitment>, i: nat, p: Platform, ids: set<string>, paths: set<string>,
                 hashes: set<string>, splits: map<string, Split>)
    requires i < |cases| && Scanned(cases[..i], p, ids, paths, hashes, splits)
    requires NextOk(cases[i], p, ids, paths, hashes, splits)
    ensures Scanned(cases[..i + 1], p, ids + {cases[i].caseId}, paths + {cases[i].relativePath},
                    hashes + {cases[i].artifactSha}, splits[cases[i].lineage := cases[i].split])
  {
    DistinctNext(cases, i, IdOf, ids);
    DistinctNext(cases, i, PathOf, paths);
    DistinctNext(cases, i, HashOf, hashes);
    LineageExtends(cases, i, splits);
    SplitMapNext(cases, i, splits);
    CaseFieldsNext(cases, i, p);
  }

  lemma ScanRefuses(cases: seq<CaseCommitment>, i: nat, p: Platform, ids: set<string>, paths: set<string>,
                    hashes: set<string>, splits: map<string, Split>)
    requires i < |cases| && Scanned(cases[..i], p, ids, paths, hashes, splits)
    ensures CasesOk(cases, p) ==> NextOk(cases[i], p, ids, paths, hashes, splits)
  {
    assert cases[i] in cases;
    DistinctNext(cases, i, IdOf, ids);
    DistinctNext(cases, i, PathOf, paths);
    DistinctNext(cases, i, HashOf, hashes);
    if CasesOk(cases, p) && cases[i].lineage in splits {
      assert LineageConsistent(cases[..i + 1]);
      LineageConflict(cases, i, splits);
    }
  }

  /** The counts of the cases seen so far. */
  ghost predicate Counted(counts: map<Split, nat>, cases: seq<CaseCommitment>) {
    forall split: Split :: split in counts && counts[split] == CountIn(cases, split)
  }

  lemma CountNone(counts: map<Split, nat>)
    requires counts == map[Development := 0, Validation := 0, Holdout := 0]
    ensures Counted(counts, [])
  {
    forall split: Split
      ensures split in counts && counts[split] == 0
    {
      match split {
        case Development =>
        case Validation =>
        case Holdout =>
      }
    }
  }

  lemma CountNext(cases: seq<CaseCommitment>, i: nat, counts: map<Split, nat>)
    requires i < |cases| && Counted(counts, cases[..i])
    ensures Counted(counts[cases[i].split := counts[cases[i].split] + 1], cases[..i + 1])
  {
    assert cases[..i + 1][..i] == cases[..i];
  }

  /** One turn of the checker: refuse the case, or note its keys, its lineage and its split. */
  method CheckNext(cases: seq<CaseCommitment>, i: nat, p: Platform, ids: set<string>, paths: set<string>,
                   hashes: set<string>, splits: map<string, Split>)
    returns (ok: bool, newIds: set<string>, newPaths: set<string>, newHashes: set<string>,
             newSplits: map<string, Split>)
    requires i < |cases| && Scanned(cases[..i], p, ids, paths, hashes, splits)
    ensures ok ==> Scanned(cases[..i + 1], p, newIds, newPaths, newHashes, newSplits)
    ensures !ok ==> !CasesOk(cases, p)
  {
    var c := cases[i];
    ScanRefuses(cases, i, p, ids, paths, hashes, splits);
    newIds, newPaths, newHashes, newSplits := ids, paths, hashes, splits;
    ok := && CaseOk(c, p) && c.caseId !in ids && c.relativePath !in paths && c.artifactSha !in hashes
          && (c.lineage in splits ==> splits[c.lineage] == c.split);
    if ok {
      ScanNext(cases, i, p, ids, paths, hashes, splits);
      newIds, newPaths, newHashes := ids + {c.caseId}, paths + {c.relativePath}, hashes + {c.artifactSha};
      newSplits := splits[c.lineage := c.split];
    }
  }

  /** The one-pass checker over the cases: three sets, one map, one count per split. */
  method CheckCases(cases: seq<CaseCommitment>, p: Platform) returns (ok: bool, counts: map<Split, nat>)
    ensures ok <==> CasesOk(cases, p)
    ensures ok ==> Counted(counts, cases)
  {
    var ids: set<string>, paths: set<string>, hashes: set<string> := {}, {}, {};
    var splits: map<string, Split> := map[];
    counts := map[Development := 0, Validation := 0, Holdout := 0];
    CountNone(counts);
    for i := 0 to |cases|
      invariant Scanned(cases[..i], p, ids, paths, hashes, splits)
      invariant Counted(counts, cases[..i])
    {
      ok, ids, paths, hashes, splits := CheckNext(cases, i, p, ids, paths, hashes, splits);
      if !ok {
        return;
      }
      CountNext(cases, i, counts);
      counts := counts[cases[i].split := counts[cases[i].split] + 1];
    }
    assert cases[..|cases|] == cases;
    ok := true;
  }

  /** Spelled out: in time, not too large, no two cases with one identifier, path or hash, no lineage in two
      splits, every declared count the true one, and a holdout large enough to compare on. */
  ghost predicate SoundDataset(d: DatasetDraft, p: Platform) {
    var cases, a := d.cases, d.accounting;
    && p.instant(d.frozenAt).Some? && p.instant(d.expiresAt).Some?
    && p.instant(d.frozenAt).value < p.instant(d.expiresAt).value
    && 1 <= |cases| <= 10_000
    && (forall i :: 0 <= i < |cases| ==> p.caseFields(cases[i]) && cases[i].principalInvariantCount == 1)
    && (forall i, j :: 0 <= i < j < |cases| ==>
          && cases[i].caseId != cases[j].caseId && cases[i].relativePath != cases[j].relativePath
          && cases[i].artifactSha != cases[j].artifactSha
          && (cases[i].lineage == cases[j].lineage ==> cases[i].split == cases[j].split))
    && a.totalCases == |cases|
    && a.developmentCases == |Positions(cases, Development)|
    && a.validationCases == |Positions(cases, Validation)|
    && a.holdoutCases == |Positions(cases, Holdout)|
    && a.vulnerableCases + a.safeControls == a.totalCases && a.holdoutVulnerable + a.holdoutSafe == a.holdoutCases
    && a.custodianDeclared
    && (d.purpose == PreregisteredHoldout ==>
          a.holdoutCases >= 20 && a.holdoutVulnerable >= 10 && a.holdoutSafe >= 10)
  }

  /** Where the cases of a split stand. */
  ghost function Positions(cases: seq<CaseCommitment>, split: Split): set<int> {
    set i | 0 <= i < |cases| && cases[i].split == split
  }

  lemma {:induction false} CountIsPositions(cases: seq<CaseCommitment>, split: Split)
    ensures CountIn(cases, split) == |Positions(cases, split)|
  {
    if cases != [] {
      var n := |cases| - 1;
      CountIsPositions(cases[..n], split);
      assert Positions(cases, split) == Positions(cases[..n], split) + if cases[n].split == split then {n} else {};
    }
  }

  lemma DatasetMeaning(d: Dataset, p: Platform)
    ensures DatasetOk(d, p) <==> p.datasetFields(d) && SoundDataset(d.draft, p)
  {
    var cases := d.draft.cases;
    CountIsPositions(cases, Development);
    CountIsPositions(cases, Validation);
    CountIsPositions(cases, Holdout);
    assert CasesOk(cases, p) <==>
             && (forall i :: 0 <= i < |cases| ==> p.caseFields(cases[i]) && cases[i].principalInvariantCount == 1)
             && (forall i, j :: 0 <= i < j < |cases| ==>
                   && cases[i].caseId != cases[j].caseId && cases[i].relativePath != cases[j].relativePath
                   && cases[i].artifactSha != cases[j].artifactSha
                   && (cases[i].lineage == cases[j].lineage ==> cases[i].split == cases[j].split)) by {
      CasesMeaning(cases, p);
    }
  }

  lemma CasesMeaning(cases: seq<CaseCommitment>, p: Platform)
    ensures CasesOk(cases, p) <==>
              && (forall i :: 0 <= i < |cases| ==> p.caseFields(cases[i]) && cases[i].principalInvariantCount == 1)
              && (forall i, j :: 0 <= i < j < |cases| ==>
                    && cases[i].caseId != cases[j].caseId && cases[i].relativePath != cases[j].relativePath
                    && cases[i].artifactSha != cases[j].artifactSha
                    && (cases[i].lineage == cases[j].lineage ==> cases[i].split == cases[j].split))
  {
    if CasesOk(cases, p) {
      forall i, j | 0 <= i < j < |cases|
        ensures cases[i].caseId != cases[j].caseId && cases[i].relativePath != cases[j].relativePath
                && cases[i].artifactSha != cases[j].artifactSha
      {
        assert IdOf(cases[i]) != IdOf(cases[j]) && PathOf(cases[i]) != PathOf(cases[j])
               && HashOf(cases[i]) != HashOf(cases[j]);
      }
      forall i | 0 <= i < |cases|
        ensures p.caseFields(cases[i]) && cases[i].principalInvariantCount == 1
      {
        assert cases[i] in cases;
      }
    } else if forall i :: 0 <= i < |cases| ==> p.caseFields(cases[i]) && cases[i].principalInvariantCount == 1 {
      forall c | c in cases
        ensures CaseOk(c, p)
      {
        var i :| 0 <= i < |cases| && cases[i] == c;
      }
    }
  }

  /** `FrozenDataset::validate`. */
  method ValidateDataset(d: Dataset, p: Platform) returns (ok: bool)
    ensures ok <==> DatasetOk(d, p)
    ensures ok <==> p.datasetFields(d) && SoundDataset(d.draft, p)
  {
    DatasetMeaning(d, p);
    if !p.datasetFields(d) || !TimesOk(d.draft, p) || |d.draft.cases| == 0 || |d.draft.cases| > 10_000 {
      return false;
    }
    var casesOk, counts := CheckCases(d.draft.cases, p);
    if !casesOk {
      return false;
    }
    var a := d.draft.accounting;
    ok := && a.totalCases == |d.draft.cases|
          && a.developmentCases == counts[Development]
          && a.validationCases == counts[Validation]
          && a.holdoutCases == counts[Holdout]
          && SumIs(a.vulnerableCases, a.safeControls, a.totalCases)
          && SumIs(a.holdoutVulnerable, a.holdoutSafe, a.holdoutCases)
          && a.custodianDeclared
          && HoldoutLargeEnough(d.draft);
  }

  // ---------------------------------------------------------------- the lanes

  predicate TreatmentMatches(l: Lane) {
    match l.kind
    case SecureflowAssistedHuman => l.treatment == SecureflowAvailable
    case HumanComparator => l.treatment == SecureflowUnavailable
  }

  /** `valid_text`: trimmed, not empty, bounded in bytes, and without control characters. */
  predicate ValidText(s: string, maximum: nat) {
    var trimmed := Trim(s, RustWhite);
    trimmed != [] && s == trimmed && Utf8Length(s) <= maximum && forall c :: c in s ==> !Control(c)
  }

  /** Spelled out: something visible at either end, short enough, and no character below a blank or from 127 to 159. */
  lemma ValidTextMeaning(s: string, maximum: nat)
    ensures ValidText(s, maximum) <==>
              && s != [] && !RustWhite(s[0]) && !RustWhite(s[|s| - 1]) && Utf8Length(s) <= maximum
              && forall c :: c in s ==> 32 <= c as int < 127 || 160 <= c as int
  {
    TrimIsCore(s, RustWhite);
    if s != [] && !RustWhite(s[0]) && !RustWhite(s[|s| - 1]) {
      assert TrimStart(s, RustWhite) == s && TrimEnd(s, RustWhite) == s;
    }
  }

  predicate LaneFieldsOk(l: Lane) {
    && ValidText(l.laneId, 100) && ValidText(l.group, 100) && ValidText(l.cohort, 300)
    && ShaOk(l.configurationSha) && ShaOk(l.capabilitySha) && ShaOk(l.environmentSha)
    && 1 <= l.timeLimit <= 86_400 && l.reviewers >= 3
  }

  predicate LaneOk(l: Lane) {
    LaneFieldsOk(l) && TreatmentMatches(l)
  }

  predicate EquivalenceOk(e: Equivalence) {
    && ValidText(e.groupId, 100) && ValidText(e.secureflowLaneId, 100) && ValidText(e.humanLaneId, 100)
    && e.declared.sameCaseInputs && e.declared.sameTimeLimit && e.declared.sameNetworkPolicy
    && e.declared.sameEnvironmentClass && e.declared.sameNonTreatmentTools
    && e.declared.treatmentIsOnlyPlannedDifference && e.declared.lanesReportedSeparately
  }

  predicate Comparable(a: Lane, b: Lane, e: Equivalence) {
    && a.group == e.groupId && b.group == e.groupId
    && a.capabilitySha == b.capabilitySha && a.environmentSha == b.environmentSha
    && a.timeLimit == b.timeLimit && a.network == b.network
  }

  function FindById(lanes: seq<Lane>, id: string): Option<Lane> {
    if lanes == [] then None
    else if lanes[0].laneId == id then Some(lanes[0])
    else FindById(lanes[1..], id)
  }

  function FindByKind(lanes: seq<Lane>, kind: LaneKind): Option<Lane> {
    if lanes == [] then None
    else if lanes[0].kind == kind then Some(lanes[0])
    else FindByKind(lanes[1..], kind)
  }

  /** `find` by identifier, then `filter` by kind. */
  function FindNamed(lanes: seq<Lane>, id: string, kind: LaneKind): Option<Lane> {
    var found := FindById(lanes, id);
    if found.Some? && found.value.kind == kind then found else None
  }

  /** What acceptable lanes are: a pair, one a kind, named by the equivalence, equal in the compared fields. */
  ghost predicate LanesOk(lanes: seq<Lane>, e: Equivalence) {
    && EquivalenceOk(e) && |lanes| == 2 && LaneOk(lanes[0]) && LaneOk(lanes[1])
    && exists s, u :: IsPair(lanes, s, u, e)
  }

  ghost predicate IsPair(lanes: seq<Lane>, s: Lane, u: Lane, e: Equivalence) {
    && (lanes == [s, u] || lanes == [u, s])
    && s.kind == SecureflowAssistedHuman && u.kind == HumanComparator
    && s.laneId == e.secureflowLaneId && u.laneId == e.humanLaneId && s.laneId != u.laneId
    && Comparable(s, u, e)
  }

  /** The loop over the lanes: each sound by itself, no identifier twice. */
  method CheckLanes(lanes: seq<Lane>) returns (ok: bool)
    requires |lanes| == 2
    ensures ok <==> LaneOk(lanes[0]) && LaneOk(lanes[1]) && lanes[0].laneId != lanes[1].laneId
  {
    var ids: set<string> := {};
    for i := 0 to |lanes|
      invariant i >= 1 ==> LaneOk(lanes[0])
      invariant ids == if i == 0 then {} else if i == 1 then {lanes[0].laneId} else {lanes[0].laneId, lanes[1].laneId}
      invariant i == 2 ==> LaneOk(lanes[1]) && lanes[0].laneId != lanes[1].laneId
    {
      if lanes[i].laneId in ids || !LaneFieldsOk(lanes[i]) {
        return false;
      }
      ids := ids + {lanes[i].laneId};
      if !TreatmentMatches(lanes[i]) {
        return false;
      }
    }
    ok := true;
  }

  /** Spelled out: one lane with the treatment and one without, each named by the declaration, sound by itself
      and equal to the other in everything that is compared. */
  ghost predicate SoundPair(s: Lane, u: Lane, e: Equivalence) {
    && s.kind == SecureflowAssistedHuman && s.treatment == SecureflowAvailable
    && u.kind == HumanComparator && u.treatment == SecureflowUnavailable
    && s.laneId == e.secureflowLaneId && u.laneId == e.humanLaneId && s.laneId != u.laneId
    && s.group == u.group == e.groupId && s.capabilitySha == u.capabilitySha
    && s.environmentSha == u.environmentSha && s.timeLimit == u.timeLimit && s.network == u.network
    && 1 <= s.timeLimit <= 86_400 && s.reviewers >= 3 && u.reviewers >= 3
    && (forall text :: text in {s.laneId, u.laneId, s.group} ==> ValidText(text, 100))
    && ValidText(s.cohort, 300) && ValidText(u.cohort, 300)
    && (forall sha :: sha in {s.configurationSha, u.configurationSha, s.capabilitySha, s.environmentSha} ==> ShaOk(sha))
    && e.declared == Declared(true, true, true, true, true, true, true)
  }

  lemma LanesMeaning(lanes: seq<Lane>, e: Equivalence)
    ensures LanesOk(lanes, e) <==> exists s, u :: (lanes == [s, u] || lanes == [u, s]) && SoundPair(s, u, e)
  {
    if LanesOk(lanes, e) {
      var s, u :| IsPair(lanes, s, u, e);
      InPair(lanes, s, u);
      assert SoundPair(s, u, e);
    }
    if s, u :| (lanes == [s, u] || lanes == [u, s]) && SoundPair(s, u, e) {
      InPair(lanes, s, u);
      PairIsOk(lanes, s, u, e);
    }
  }

  lemma PairIsOk(lanes: seq<Lane>, s: Lane, u: Lane, e: Equivalence)
    requires (lanes == [s, u] || lanes == [u, s]) && SoundPair(s, u, e)
    ensures LanesOk(lanes, e)
  {
    InPair(lanes, s, u);
    assert IsPair(lanes, s, u, e);
    assert LaneOk(s) && LaneOk(u) && EquivalenceOk(e);
  }

  lemma InPair(lanes: seq<Lane>, s: Lane, u: Lane)
    requires lanes == [s, u] || lanes == [u, s]
    ensures |lanes| == 2 && ((lanes[0] == s && lanes[1] == u) || (lanes[0] == u && lanes[1] == s))
  {
  }

  method ValidateLanes(lanes: seq<Lane>, e: Equivalence) returns (ok: bool)
    ensures ok <==> LanesOk(lanes, e)
    ensures ok <==> exists s, u :: (lanes == [s, u] || lanes == [u, s]) && SoundPair(s, u, e)
  {
    LanesMeaning(lanes, e);
    if |lanes| != 2 || !EquivalenceOk(e) {
      return false;
    }
    assert lanes == [lanes[0], lanes[1]];
    ok := CheckLanes(lanes);
    if !ok {
      return false;
    }
    PairFound(lanes, e);
    var secureflow := FindNamed(lanes, e.secureflowLaneId, SecureflowAssistedHuman);
    var human := FindNamed(lanes, e.humanLaneId, HumanComparator);
    if secureflow.None? || human.None? {
      return false;
    }
    ok := Comparable(secureflow.value, human.value, e);
  }

  lemma TwoLanes(a: Lane, b: Lane, id: string, kind: LaneKind)
    ensures FindById([a, b], id) == if a.laneId == id then Some(a) else if b.laneId == id then Some(b) else None
    ensures FindByKind([a, b], kind) == if a.kind == kind then Some(a) else if b.kind == kind then Some(b) else None
  {
    assert [a, b][1..] == [b] && [b][1..] == [];
    assert FindById([b], id) == if b.laneId == id then Some(b) else None;
    assert FindByKind([b], kind) == if b.kind == kind then Some(b) else None;
  }

  lemma PairFound(lanes: seq<Lane>, e: Equivalence)
    requires |lanes| == 2 && lanes[0].laneId != lanes[1].laneId
    ensures var s, u := FindNamed(lanes, e.secureflowLaneId, SecureflowAssistedHuman),
                        FindNamed(lanes, e.humanLaneId, HumanComparator);
            && (s.Some? && u.Some? && Comparable(s.value, u.value, e) ==> IsPair(lanes, s.value, u.value, e))
            && forall x, y :: IsPair(lanes, x, y, e) ==> s == Some(x) && u == Some(y)
  {
    assert lanes == [lanes[0], lanes[1]];
    TwoLanes(lanes[0], lanes[1], e.secureflowLaneId, SecureflowAssistedHuman);
    TwoLanes(lanes[0], lanes[1], e.humanLaneId, HumanComparator);
  }
}
