/** Binding a protocol to its dataset, its control artifacts, and the submissions it accepts. */
module ProspectiveSubmission {
  import opened Bytes
  import opened Characters
  import opened ProspectiveStudy
  import opened Wrappers

  // ---------------------------------------------------------------- binding

  predicate DocumentSizeOk(bytes: seq<byte>, maximum: nat) {
    0 < |bytes| <= maximum
  }

  ghost predicate ProtocolOk(q: Protocol, p: Platform) {
    p.protocolFields(q) && p.instant(q.sealedAt).Some? && LanesOk(q.lanes, q.equivalence)
  }

  predicate BindingMatches(q: Protocol, d: Dataset, bytes: seq<byte>, p: Platform) {
    var b, a := q.dataset, d.draft.accounting;
    && b.datasetId == d.datasetId && b.datasetSha == p.sha(bytes)
    && b.totalCases == a.totalCases && b.holdoutCases == a.holdoutCases
    && b.holdoutVulnerable == a.holdoutVulnerable && b.holdoutSafe == a.holdoutSafe
    && b.groundTruthSha == d.draft.groundTruthSha
    && q.provenanceSha == d.draft.provenanceSha && q.licenseSha == d.draft.licenseSha
    && q.overlapAuditSha == d.draft.overlapAuditSha
  }

  predicate TimelineOk(q: Protocol, d: Dataset, p: Platform)
    requires p.instant(q.sealedAt).Some? && TimesOk(d.draft, p)
  {
    p.instant(d.draft.frozenAt).value <= p.instant(q.sealedAt).value <= p.instant(d.draft.expiresAt).value
  }

  ghost predicate Bound(q: Protocol, d: Dataset, bytes: seq<byte>, p: Platform) {
    && DocumentSizeOk(bytes, MAX_DATASET_BYTES)
    && ProtocolOk(q, p) && DatasetOk(d, p) && BindingMatches(q, d, bytes, p) && TimelineOk(q, d, p)
    && q.mode == d.draft.purpose
  }

  method ValidateProtocol(q: Protocol, p: Platform) returns (ok: bool)
    ensures ok <==> ProtocolOk(q, p)
  {
    if !p.protocolFields(q) || p.instant(q.sealedAt).None? {
      return false;
    }
    ok := ValidateLanes(q.lanes, q.equivalence);
  }

  /** Spelled out: both documents sound, the dataset's very bytes and every commitment the one the protocol
      names, sealed between freezing and expiry, and of one mind about the purpose. */
  ghost predicate SoundBinding(q: Protocol, d: Dataset, bytes: seq<byte>, p: Platform) {
    && 0 < |bytes| <= 8388608
    && p.protocolFields(q)
    && (exists s, u :: (q.lanes == [s, u] || q.lanes == [u, s]) && SoundPair(s, u, q.equivalence))
    && p.datasetFields(d) && SoundDataset(d.draft, p)
    && q.dataset.datasetId == d.datasetId
    && q.dataset.datasetSha == p.sha(bytes)
    && q.dataset.totalCases == |d.draft.cases|
    && q.dataset.holdoutCases == d.draft.accounting.holdoutCases
    && q.dataset.holdoutVulnerable == d.draft.accounting.holdoutVulnerable
    && q.dataset.holdoutSafe == d.draft.accounting.holdoutSafe
    && q.dataset.groundTruthSha == d.draft.groundTruthSha
    && q.provenanceSha == d.draft.provenanceSha
    && q.licenseSha == d.draft.licenseSha
    && q.overlapAuditSha == d.draft.overlapAuditSha
    && p.instant(q.sealedAt).Some?
    && p.instant(d.draft.frozenAt).value <= p.instant(q.sealedAt).value <= p.instant(d.draft.expiresAt).value
    && (q.mode == PreregisteredHoldout <==> d.draft.purpose == PreregisteredHoldout)
  }

  lemma BindingMeaning(q: Protocol, d: Dataset, bytes: seq<byte>, p: Platform)
    ensures Bound(q, d, bytes, p) <==> SoundBinding(q, d, bytes, p)
  {
    DatasetMeaning(d, p);
    LanesMeaning(q.lanes, q.equivalence);
  }

  method BindProtocolToDataset(q: Protocol, d: Dataset, bytes: seq<byte>, p: Platform) returns (ok: bool)
    ensures ok <==> Bound(q, d, bytes, p)
    ensures ok <==> SoundBinding(q, d, bytes, p)
  {
    ok := CompareDocuments(q, d, bytes, p);
    BindingMeaning(q, d, bytes, p);
  }

  method CompareDocuments(q: Protocol, d: Dataset, bytes: seq<byte>, p: Platform) returns (ok: bool)
    ensures ok <==> Bound(q, d, bytes, p)
  {
    if !DocumentSizeOk(bytes, MAX_DATASET_BYTES) {
      return false;
    }
    var protocolOk := ValidateProtocol(q, p);
    if !protocolOk {
      return false;
    }
    var datasetOk := ValidateDataset(d, p);
    if !datasetOk || !BindingMatches(q, d, bytes, p) {
      return false;
    }
    var frozen, sealed, expires := p.instant(d.draft.frozenAt), p.instant(q.sealedAt), p.instant(d.draft.expiresAt);
    if frozen.value > sealed.value || sealed.value > expires.value {
      return false;
    }
    match q.mode
    case SyntheticContractTest => ok := d.draft.purpose == SyntheticContractTest;
    case PreregisteredHoldout => ok := d.draft.purpose == PreregisteredHoldout;
  }

  // ---------------------------------------------------------------- control artifacts

  datatype ControlError = InvalidProtocol | DocumentSize | HashMismatch | LaneMissing

  /** The lanes are looked up by kind here, and by identifier when they were validated: the same two lanes. */
  lemma LanesByKind(lanes: seq<Lane>, e: Equivalence)
    requires LanesOk(lanes, e)
    ensures FindByKind(lanes, SecureflowAssistedHuman) == FindById(lanes, e.secureflowLaneId)
    ensures FindByKind(lanes, HumanComparator) == FindById(lanes, e.humanLaneId)
    ensures FindById(lanes, e.secureflowLaneId).Some? && FindById(lanes, e.humanLaneId).Some?
  {
    assert lanes == [lanes[0], lanes[1]];
    TwoLanes(lanes[0], lanes[1], e.secureflowLaneId, SecureflowAssistedHuman);
    TwoLanes(lanes[0], lanes[1], e.humanLaneId, HumanComparator);
  }

  // ---------------------------------------------------------------- what the two lanes share

  /** The fields that acceptance forces to be equal. */
  predicate SameConditions(s: Lane, u: Lane) {
    && s.group == u.group && s.capabilitySha == u.capabilitySha && s.environmentSha == u.environmentSha
    && s.timeLimit == u.timeLimit && s.network == u.network
  }

  /** The fields on which nothing is compared, although each is checked by itself. */
  predicate SamePeople(s: Lane, u: Lane) {
    s.cohort == u.cohort && s.configurationSha == u.configurationSha && s.reviewers == u.reviewers
  }

  /** The comparator lane is the assisted one under another name and without the treatment. */
  predicate OnlyTreatmentDiffers(s: Lane, u: Lane) {
    u == s.(laneId := u.laneId, kind := HumanComparator, treatment := SecureflowUnavailable)
  }

  /** Acceptance declares the treatment to be the only planned difference. It is the only difference exactly
      when cohort, configuration and number of reviewers agree too, which nothing checks. */
  lemma OnlyTreatmentDiffersIff(lanes: seq<Lane>, e: Equivalence)
    requires LanesOk(lanes, e)
    ensures var s, u := FindById(lanes, e.secureflowLaneId), FindById(lanes, e.humanLaneId);
            && s.Some? && u.Some? && SameConditions(s.value, u.value)
            && s.value.treatment == SecureflowAvailable && u.value.treatment == SecureflowUnavailable
            && (OnlyTreatmentDiffers(s.value, u.value) <==> SamePeople(s.value, u.value))
    ensures forall l :: l in lanes ==> l.laneId == e.secureflowLaneId || l.laneId == e.humanLaneId
  {
    assert lanes == [lanes[0], lanes[1]];
    TwoLanes(lanes[0], lanes[1], e.secureflowLaneId, SecureflowAssistedHuman);
    TwoLanes(lanes[0], lanes[1], e.humanLaneId, HumanComparator);
  }

  /** Nothing else is forced: the comparator of any accepted pair may get any other admissible cohort,
      configuration and number of reviewers, and the pair is accepted still. */
  lemma PeopleAreFree(s: Lane, u: Lane, e: Equivalence, cohort: string, configurationSha: string, reviewers: u64)
    requires LanesOk([s, u], e) && u.kind == HumanComparator
    requires ValidText(cohort, 300) && ShaOk(configurationSha) && reviewers >= 3
    ensures LanesOk([s, u.(cohort := cohort, configurationSha := configurationSha, reviewers := reviewers)], e)
  {
    var lanes, other := [s, u], u.(cohort := cohort, configurationSha := configurationSha, reviewers := reviewers);
    var x, y :| IsPair(lanes, x, y, e);
    assert lanes[0] == s && lanes[1] == u;
    assert [x, y][0] == x && [x, y][1] == y && [y, x][0] == y && [y, x][1] == x;
    assert x == s && y == u;
    assert IsPair([s, other], s, other, e);
  }

  /** Sixty-four hexadecimal digits. */
  function SomeSha(): (r: string)
    ensures ShaOk(r)
  {
    seq(64, _ => 'a')
  }

  lemma PlainText(s: string, maximum: nat)
    requires s != [] && 4 * |s| <= maximum && forall c :: c in s ==> 'a' <= c <= 'z'
    ensures ValidText(s, maximum)
  {
    assert s[0] in s && s[|s| - 1] in s;
    Utf8Bound(s);
  }

  function SampleLane(id: string, kind: LaneKind, treatment: Treatment, cohort: string): Lane {
    Lane(id, kind, treatment, "g", cohort, SomeSha(), SomeSha(), SomeSha(), 3600, Network.Disabled, 3)
  }

  lemma SampleLaneOk(id: string, kind: LaneKind, treatment: Treatment, cohort: string)
    requires ValidText(id, 100) && ValidText(cohort, 300)
    requires treatment == if kind.HumanComparator? then SecureflowUnavailable else SecureflowAvailable
    ensures LaneOk(SampleLane(id, kind, treatment, cohort))
  {
    PlainText("g", 100);
  }

  /** Any two distinct names make an accepted pair, whatever the cohorts. */
  lemma SamplePair(a: string, b: string, groupId: string, s: Lane, u: Lane, e: Equivalence)
    requires a != b && LaneOk(s) && LaneOk(u) && ValidText(groupId, 100) && ValidText(a, 100) && ValidText(b, 100)
    requires s.kind == SecureflowAssistedHuman && u.kind == HumanComparator && s.laneId == a && u.laneId == b
    requires e == Equivalence(groupId, a, b, Declared(true, true, true, true, true, true, true))
    requires SameConditions(s, u) && s.group == groupId
    ensures LanesOk([s, u], e)
  {
    assert IsPair([s, u], s, u, e);
  }

  lemma CohortTexts()
    ensures ValidText("students", 300) && ValidText("experts", 300)
  {
    PlainText("students", 300);
    PlainText("experts", 300);
  }

  /** Two accepted lanes, one of students and one of experts: the treatment is not the only difference. */
  lemma CohortsMayDiffer() returns (s: Lane, u: Lane, e: Equivalence)
    ensures LanesOk([s, u], e) && e.declared.treatmentIsOnlyPlannedDifference
    ensures s.laneId == e.secureflowLaneId && u.laneId == e.humanLaneId
    ensures s.cohort == "students" && u.cohort == "experts" && !OnlyTreatmentDiffers(s, u)
  {
    s := SampleLane("a", SecureflowAssistedHuman, SecureflowAvailable, "students");
    u := SampleLane("b", HumanComparator, SecureflowUnavailable, "experts");
    e := Equivalence("g", "a", "b", Declared(true, true, true, true, true, true, true));
    PlainText("g", 100);
    PlainText("a", 100);
    PlainText("b", 100);
    CohortTexts();
    SampleLaneOk("a", SecureflowAssistedHuman, SecureflowAvailable, "students");
    SampleLaneOk("b", HumanComparator, SecureflowUnavailable, "experts");
    assert s.laneId[0] != u.laneId[0] && s.cohort[0] != u.cohort[0];
    SamplePair("a", "b", "g", s, u, e);
  }

  /** Once the protocol is valid the lane look-ups always succeed, and the configurations verified are those
      of the very lanes that the equivalence names. */
  method VerifyProtocolControlArtifacts(q: Protocol, randomization: seq<byte>, secureflowLane: seq<byte>,
                                        humanLane: seq<byte>, p: Platform)
    returns (r: Result<(), ControlError>)
    ensures r != Err(LaneMissing)
    ensures r == Err(InvalidProtocol) <==> !ProtocolOk(q, p)
    ensures r.Ok? <==>
              && ProtocolOk(q, p)
              && 0 < |randomization| <= 8388608 && 0 < |secureflowLane| <= 8388608 && 0 < |humanLane| <= 8388608
              && p.sha(randomization) == q.randomizationSha
              && (forall l :: l in q.lanes && l.laneId == q.equivalence.secureflowLaneId ==>
                    l.configurationSha == p.sha(secureflowLane))
              && (forall l :: l in q.lanes && l.laneId == q.equivalence.humanLaneId ==>
                    l.configurationSha == p.sha(humanLane))
  {
    var valid := ValidateProtocol(q, p);
    if !valid {
      return Err(InvalidProtocol);
    }
    r := CompareArtifacts(q, randomization, secureflowLane, humanLane, p);
  }

  method CompareArtifacts(q: Protocol, randomization: seq<byte>, secureflowLane: seq<byte>, humanLane: seq<byte>,
                          p: Platform)
    returns (r: Result<(), ControlError>)
    requires ProtocolOk(q, p)
    ensures r != Err(LaneMissing) && r != Err(InvalidProtocol)
    ensures r.Ok? <==>
              && 0 < |randomization| <= 8388608 && 0 < |secureflowLane| <= 8388608 && 0 < |humanLane| <= 8388608
              && p.sha(randomization) == q.randomizationSha
              && (forall l :: l in q.lanes && l.laneId == q.equivalence.secureflowLaneId ==>
                    l.configurationSha == p.sha(secureflowLane))
              && (forall l :: l in q.lanes && l.laneId == q.equivalence.humanLaneId ==>
                    l.configurationSha == p.sha(humanLane))
  {
    var documents := [randomization, secureflowLane, humanLane];
    for i := 0 to |documents|
      invariant forall j :: 0 <= j < i ==> DocumentSizeOk(documents[j], MAX_CONTROL_ARTIFACT_BYTES)
    {
      if !DocumentSizeOk(documents[i], MAX_CONTROL_ARTIFACT_BYTES) {
        return Err(DocumentSize);
      }
    }
    assert documents[0] == randomization && documents[1] == secureflowLane && documents[2] == humanLane;
    if p.sha(randomization) != q.randomizationSha {
      return Err(HashMismatch);
    }
    LanesByKind(q.lanes, q.equivalence);
    NamedOnce(q.lanes, q.equivalence);
    var secureflow := FindByKind(q.lanes, SecureflowAssistedHuman);
    var human := FindByKind(q.lanes, HumanComparator);
    if secureflow.None? || human.None? {
      return Err(LaneMissing);
    }
    if p.sha(secureflowLane) != secureflow.value.configurationSha || p.sha(humanLane) != human.value.configurationSha {
      return Err(HashMismatch);
    }
    return Ok(());
  }

  lemma NamedOnce(lanes: seq<Lane>, e: Equivalence)
    requires LanesOk(lanes, e)
    ensures forall l :: l in lanes && l.laneId == e.secureflowLaneId <==> Some(l) == FindById(lanes, e.secureflowLaneId)
    ensures forall l :: l in lanes && l.laneId == e.humanLaneId <==> Some(l) == FindById(lanes, e.humanLaneId)
  {
    assert lanes == [lanes[0], lanes[1]];
    TwoLanes(lanes[0], lanes[1], e.secureflowLaneId, SecureflowAssistedHuman);
    TwoLanes(lanes[0], lanes[1], e.humanLaneId, HumanComparator);
  }

  // ---------------------------------------------------------------- submissions

  /** The case a submission names is in the dataset, and in the holdout when the study is preregistered. */
  ghost predicate NamesCase(s: Submission, q: Protocol, d: Dataset) {
    exists c :: c in d.draft.cases && c.caseId == s.caseId && (q.mode.PreregisteredHoldout? ==> c.split == Holdout)
  }

  ghost predicate SubmissionOk(s: Submission, q: Protocol, d: Dataset, bytes: seq<byte>, p: Platform) {
    && Bound(q, d, bytes, p) && p.submissionFields(s)
    && s.protocolId == q.protocolId && s.datasetId == d.datasetId
    && (exists l :: l in q.lanes && l.laneId == s.laneId)
    && NamesCase(s, q, d) && s.attemptOrdinal == 0
    && p.instant(s.recordedAt).Some?
    && p.instant(q.sealedAt).value <= p.instant(s.recordedAt).value <= p.instant(d.draft.expiresAt).value
  }

  method FindCase(cases: seq<CaseCommitment>, id: string) returns (found: Option<CaseCommitment>)
    ensures found.Some? ==> found.value in cases && found.value.caseId == id
    ensures found.None? ==> forall c :: c in cases ==> c.caseId != id
  {
    for i := 0 to |cases|
      invariant forall c :: c in cases[..i] ==> c.caseId != id
    {
      if cases[i].caseId == id {
        return Some(cases[i]);
      }
    }
    return None;
  }

  method LaneListed(lanes: seq<Lane>, id: string) returns (listed: bool)
    ensures listed <==> exists l :: l in lanes && l.laneId == id
  {
    for i := 0 to |lanes|
      invariant forall l :: l in lanes[..i] ==> l.laneId != id
    {
      if lanes[i].laneId == id {
        return true;
      }
    }
    listed := false;
  }

  lemma CaseIdDecides(cases: seq<CaseCommitment>, a: CaseCommitment, b: CaseCommitment)
    requires Distinct(cases, IdOf) && a in cases && b in cases && a.caseId == b.caseId
    ensures a == b
  {
    var i :| 0 <= i < |cases| && cases[i] == a;
    var j :| 0 <= j < |cases| && cases[j] == b;
    assert IdOf(cases[i]) == IdOf(cases[j]);
  }

  /** `ProspectiveSubmission::validate`. */
  method ValidateSubmission(s: Submission, q: Protocol, d: Dataset, bytes: seq<byte>, p: Platform) returns (ok: bool)
    ensures ok <==> SubmissionOk(s, q, d, bytes, p)
    // Spelled out: a first attempt at this study, in one of its lanes, on one of its cases, in time.
    ensures ok <==>
              && SoundBinding(q, d, bytes, p) && p.submissionFields(s)
              && s.protocolId == q.protocolId && s.datasetId == d.datasetId && s.attemptOrdinal == 0
              && (exists i :: 0 <= i < |q.lanes| && q.lanes[i].laneId == s.laneId)
              && (exists i :: 0 <= i < |d.draft.cases| && d.draft.cases[i].caseId == s.caseId
                              && (q.mode == PreregisteredHoldout ==> d.draft.cases[i].split == Holdout))
              && p.instant(s.recordedAt).Some?
              && p.instant(q.sealedAt).value <= p.instant(s.recordedAt).value <= p.instant(d.draft.expiresAt).value
  {
    ok := DecideSubmission(s, q, d, bytes, p);
    BindingMeaning(q, d, bytes, p);
    NamesMeaning(s, q, d);
  }

  lemma NamesMeaning(s: Submission, q: Protocol, d: Dataset)
    ensures NamesCase(s, q, d) <==>
              exists i :: 0 <= i < |d.draft.cases| && d.draft.cases[i].caseId == s.caseId
                          && (q.mode == PreregisteredHoldout ==> d.draft.cases[i].split == Holdout)
    ensures (exists l :: l in q.lanes && l.laneId == s.laneId) <==>
              exists i :: 0 <= i < |q.lanes| && q.lanes[i].laneId == s.laneId
  {
    if NamesCase(s, q, d) {
      var c :| c in d.draft.cases && c.caseId == s.caseId && (q.mode.PreregisteredHoldout? ==> c.split == Holdout);
      var i :| 0 <= i < |d.draft.cases| && d.draft.cases[i] == c;
    }
    if l :| l in q.lanes && l.laneId == s.laneId {
      var i :| 0 <= i < |q.lanes| && q.lanes[i] == l;
    }
    if i :| 0 <= i < |q.lanes| && q.lanes[i].laneId == s.laneId {
      assert q.lanes[i] in q.lanes;
    }
    if i :| 0 <= i < |d.draft.cases| && d.draft.cases[i].caseId == s.caseId
            && (q.mode == PreregisteredHoldout ==> d.draft.cases[i].split == Holdout) {
      assert d.draft.cases[i] in d.draft.cases;
    }
  }

  method DecideSubmission(s: Submission, q: Protocol, d: Dataset, bytes: seq<byte>, p: Platform) returns (ok: bool)
    ensures ok <==> SubmissionOk(s, q, d, bytes, p)
  {
    var bound := CompareDocuments(q, d, bytes, p);
    if !bound {
      return false;
    }
    var named := FindCase(d.draft.cases, s.caseId);
    var listed := LaneListed(q.lanes, s.laneId);
    if named.None? || !p.submissionFields(s) || s.protocolId != q.protocolId || s.datasetId != d.datasetId || !listed
       || s.attemptOrdinal != 0 || p.instant(s.recordedAt).None? {
      return false;
    }
    forall c | c in d.draft.cases && c.caseId == s.caseId
      ensures c == named.value
    {
      CaseIdDecides(d.draft.cases, c, named.value);
    }
    if q.mode.PreregisteredHoldout? && named.value.split != Holdout {
      return false;
    }
    var recorded := p.instant(s.recordedAt).value;
    ok := recorded >= p.instant(q.sealedAt).value && recorded <= p.instant(d.draft.expiresAt).value;
  }

  lemma LineageDecidesSplit(cases: seq<CaseCommitment>, a: CaseCommitment, b: CaseCommitment)
    requires LineageConsistent(cases) && a in cases && b in cases && a.lineage == b.lineage
    ensures a.split == b.split
  {
    var i :| 0 <= i < |cases| && cases[i] == a;
    var j :| 0 <= j < |cases| && cases[j] == b;
    assert i < j || j < i || i == j;
  }

  /** A submission accepted in a preregistered study names exactly one case, a holdout case, whose lineage,
      path text and bytes no development or validation case shares; and its times are in order. */
  lemma HoldoutIsolation(s: Submission, q: Protocol, d: Dataset, bytes: seq<byte>, p: Platform)
    returns (c: CaseCommitment)
    requires SubmissionOk(s, q, d, bytes, p) && q.mode.PreregisteredHoldout?
    ensures c in d.draft.cases && c.caseId == s.caseId && c.split == Holdout
    ensures forall x :: x in d.draft.cases && x.caseId == s.caseId ==> x == c
    ensures forall x :: x in d.draft.cases && x.split != Holdout ==>
              x.lineage != c.lineage && x.relativePath != c.relativePath && x.artifactSha != c.artifactSha
    ensures p.instant(d.draft.frozenAt).value <= p.instant(q.sealedAt).value
            <= p.instant(s.recordedAt).value <= p.instant(d.draft.expiresAt).value
    ensures CountIn(d.draft.cases, Holdout) >= 20
  {
    var cases := d.draft.cases;
    c :| c in cases && c.caseId == s.caseId && c.split == Holdout;
    forall x | x in cases && x.caseId == s.caseId
      ensures x == c
    {
      CaseIdDecides(cases, x, c);
    }
    forall x | x in cases && x.split != Holdout
      ensures x.lineage != c.lineage && x.relativePath != c.relativePath && x.artifactSha != c.artifactSha
    {
      if x.lineage == c.lineage {
        LineageDecidesSplit(cases, x, c);
      }
      var i :| 0 <= i < |cases| && cases[i] == x;
      var j :| 0 <= j < |cases| && cases[j] == c;
      assert PathOf(cases[i]) != PathOf(cases[j]) && HashOf(cases[i]) != HashOf(cases[j]);
    }
  }

  lemma {:induction false} CountPartition(cases: seq<CaseCommitment>)
    ensures CountIn(cases, Development) + CountIn(cases, Validation) + CountIn(cases, Holdout) == |cases|
  {
    if cases != [] {
      CountPartition(cases[..|cases| - 1]);
    }
  }

  /** The declared split counts always add up, although the checker never adds them. */
  lemma SplitAccountingAddsUp(d: Dataset, p: Platform)
    requires DatasetOk(d, p)
    ensures var a := d.draft.accounting;
            a.developmentCases + a.validationCases + a.holdoutCases == a.totalCases
  {
    CountPartition(d.draft.cases);
  }
}
