/** How a catalog divides into its `core` and `malicious` distributions. */
module BundleProfile {
  import opened Bytes
  import opened IdentityPreimages
  import opened Sequences
  import opened Sorting
  import opened Wrappers

  datatype Source = Source(
    name: seq<byte>, license: seq<byte>, evidenceSha: seq<byte>, locator: seq<byte>,
    advisory: u64, malicious: u64, unclassified: u64)

  datatype Composition = Composition(
    policyVersion: seq<byte>, advisory: u64, malicious: u64, unclassified: u64, inactive: u64, sources: seq<Source>)
  {
    function ActiveRecords(): u64 {
      SaturatingAdd(SaturatingAdd(advisory, malicious), unclassified)
    }
  }

  datatype Stats = Stats(
    active: u64, inactive: u64, sourceRecords: u64, revisions: u64, snapshots: u64, deltas: u64, completeDeltas: u64)

  /** The descriptor fields that profile validation looks at; `identity` stands for the others. */
  datatype Descriptor = Descriptor(
    composition: Composition, stats: Stats, snapshotIds: seq<seq<byte>>, deltaIds: seq<seq<byte>>, identity: seq<byte>)

  datatype Derivation = ByteExactOnlineBackup | CurrentRecordProjection

  const POLICY_VERSION: seq<byte> := Ascii("secureflow-catalog-profile-policy-v2")

  /** The catalog's reading of a source's declared name, license, evidence and locator. */
  type Declares = (seq<byte>, seq<byte>, seq<byte>, seq<byte>) -> Option<Profile>

  function DeclaredProfile(s: Source, declared: Declares): Option<Profile> {
    declared(s.name, s.license, s.evidenceSha, s.locator)
  }

  // ---------------------------------------------------------------- composition

  function SourceName(s: Source): seq<byte> { s.name }
  function AdvisoryOf(s: Source): u64 { s.advisory }
  function MaliciousOf(s: Source): u64 { s.malicious }
  function UnclassifiedOf(s: Source): u64 { s.unclassified }

  function Total(sources: seq<Source>, count: Source -> u64): nat {
    if sources == [] then 0 else count(sources[0]) + Total(sources[1..], count)
  }

  /** A saturating running sum is the true sum, capped. */
  function Capped(n: nat): u64 {
    if n <= U64_MAX then n else U64_MAX
  }

  predicate HasRecords(s: Source) {
    SaturatingAdd(SaturatingAdd(s.advisory, s.malicious), s.unclassified) != 0
  }

  /** `fieldsOk` stands for the length, blankness, control-character and hash checks on one source. */
  ghost predicate SourcesOk(sources: seq<Source>, fieldsOk: Source -> bool) {
    && (forall s :: s in sources ==> fieldsOk(s) && HasRecords(s))
    && StrictlySorted(sources, SourceName)
  }

  ghost predicate CompositionOk(c: Composition, fieldsOk: Source -> bool) {
    && |c.sources| <= 10_000
    && SourcesOk(c.sources, fieldsOk)
    && c.advisory == Capped(Total(c.sources, AdvisoryOf))
    && c.malicious == Capped(Total(c.sources, MaliciousOf))
    && c.unclassified == Capped(Total(c.sources, UnclassifiedOf))
  }

  lemma {:induction false} TotalConcat(a: seq<Source>, b: seq<Source>, count: Source -> u64)
    ensures Total(a + b, count) == Total(a, count) + Total(b, count)
  {
    if a == [] {
      assert a + b == b;
    } else {
      TotalConcat(a[1..], b, count);
      assert (a + b)[1..] == a[1..] + b;
    }
  }

  lemma TotalSnoc(sources: seq<Source>, i: nat, count: Source -> u64)
    requires i < |sources|
    ensures Total(sources[..i + 1], count) == Total(sources[..i], count) + count(sources[i])
  {
    assert sources[..i + 1] == sources[..i] + [sources[i]];
    TotalConcat(sources[..i], [sources[i]], count);
    assert [sources[i]][1..] == [];
  }

  /** The source-by-source test: each check of the loop body, against the previous name only. */
  predicate NextSourceOk(sources: seq<Source>, s: Source, fieldsOk: Source -> bool) {
    fieldsOk(s) && HasRecords(s) && (sources == [] || Less(sources[|sources| - 1].name, s.name))
  }

  lemma SourcesOkSnoc(sources: seq<Source>, s: Source, fieldsOk: Source -> bool)
    ensures SourcesOk(sources + [s], fieldsOk) <==> SourcesOk(sources, fieldsOk) && NextSourceOk(sources, s, fieldsOk)
    ensures SourcesOk(sources + [s], fieldsOk) ==> forall t :: t in sources ==> t.name != s.name
  {
    var longer, n := sources + [s], |sources|;
    assert forall t :: t in longer <==> t in sources || t == s;
    assert longer[n] == s && forall i :: 0 <= i < n ==> longer[i] == sources[i];
    if SourcesOk(longer, fieldsOk) {
      assert forall i :: 0 <= i < n ==> Less(SourceName(longer[i]), SourceName(longer[n]));
      LessTrichotomy(s.name, s.name);
    }
    if SourcesOk(sources, fieldsOk) && NextSourceOk(sources, s, fieldsOk) {
      forall i | 0 <= i < n
        ensures Less(sources[i].name, s.name)
      {
        if i < n - 1 {
          LessTransitive(SourceName(sources[i]), SourceName(sources[n - 1]), s.name);
        }
      }
    }
  }

  lemma {:induction false} SourcesOkPrefix(sources: seq<Source>, i: nat, fieldsOk: Source -> bool)
    requires i <= |sources| && SourcesOk(sources, fieldsOk)
    ensures SourcesOk(sources[..i], fieldsOk)
  {
  }

  ghost predicate RunningTotals(sources: seq<Source>, advisory: u64, malicious: u64, unclassified: u64) {
    && advisory == Capped(Total(sources, AdvisoryOf))
    && malicious == Capped(Total(sources, MaliciousOf))
    && unclassified == Capped(Total(sources, UnclassifiedOf))
  }

  lemma RunningTotalsNext(sources: seq<Source>, i: nat, advisory: u64, malicious: u64, unclassified: u64)
    requires i < |sources| && RunningTotals(sources[..i], advisory, malicious, unclassified)
    ensures RunningTotals(sources[..i + 1], SaturatingAdd(advisory, sources[i].advisory),
                          SaturatingAdd(malicious, sources[i].malicious),
                          SaturatingAdd(unclassified, sources[i].unclassified))
  {
    TotalSnoc(sources, i, AdvisoryOf);
    TotalSnoc(sources, i, MaliciousOf);
    TotalSnoc(sources, i, UnclassifiedOf);
  }

  /** The one-pass check with its running totals, previous name and name set. */
  method ValidateComposition(c: Composition, fieldsOk: Source -> bool) returns (ok: bool)
    ensures ok <==> CompositionOk(c, fieldsOk)
    // Spelled out: sound entries with records, names ascending, and the declared totals.
    ensures ok <==>
              && |c.sources| <= 10_000
              && (forall i :: 0 <= i < |c.sources| ==>
                    fieldsOk(c.sources[i])
                    && c.sources[i].advisory + c.sources[i].malicious + c.sources[i].unclassified > 0)
              && (forall i, j :: 0 <= i < j < |c.sources| ==> Less(c.sources[i].name, c.sources[j].name))
              && c.advisory == Capped(Total(c.sources, AdvisoryOf))
              && c.malicious == Capped(Total(c.sources, MaliciousOf))
              && c.unclassified == Capped(Total(c.sources, UnclassifiedOf))
  {
    ok := CheckSources(c, fieldsOk);
    CompositionMeaning(c, fieldsOk);
  }

  lemma CompositionMeaning(c: Composition, fieldsOk: Source -> bool)
    ensures CompositionOk(c, fieldsOk) <==>
              && |c.sources| <= 10_000
              && (forall i :: 0 <= i < |c.sources| ==>
                    fieldsOk(c.sources[i])
                    && c.sources[i].advisory + c.sources[i].malicious + c.sources[i].unclassified > 0)
              && (forall i, j :: 0 <= i < j < |c.sources| ==> Less(c.sources[i].name, c.sources[j].name))
              && c.advisory == Capped(Total(c.sources, AdvisoryOf))
              && c.malicious == Capped(Total(c.sources, MaliciousOf))
              && c.unclassified == Capped(Total(c.sources, UnclassifiedOf))
  {
    forall s: Source
      ensures HasRecords(s) <==> s.advisory + s.malicious + s.unclassified > 0
    {
    }
    if SourcesOk(c.sources, fieldsOk) {
      forall i | 0 <= i < |c.sources|
        ensures fieldsOk(c.sources[i]) && HasRecords(c.sources[i])
      {
        assert c.sources[i] in c.sources;
      }
      forall i, j | 0 <= i < j < |c.sources|
        ensures Less(c.sources[i].name, c.sources[j].name)
      {
        assert Less(SourceName(c.sources[i]), SourceName(c.sources[j]));
      }
    }
  }

  method CheckSources(c: Composition, fieldsOk: Source -> bool) returns (ok: bool)
    ensures ok <==> CompositionOk(c, fieldsOk)
  {
    if |c.sources| > 10_000 {
      return false;
    }
    var sources := c.sources;
    var names: set<seq<byte>> := {};
    var advisory: u64, malicious: u64, unclassified: u64 := 0, 0, 0;
    for i := 0 to |sources|
      invariant SourcesOk(sources[..i], fieldsOk)
      invariant forall name :: name in names <==> exists s :: s in sources[..i] && s.name == name
      invariant RunningTotals(sources[..i], advisory, malicious, unclassified)
    {
      var s := sources[i];
      assert sources[..i + 1] == sources[..i] + [s];
      SourcesOkSnoc(sources[..i], s, fieldsOk);
      if !fieldsOk(s) || !HasRecords(s) || (i > 0 && !Less(sources[i - 1].name, s.name)) || s.name in names {
        if SourcesOk(sources, fieldsOk) {
          SourcesOkPrefix(sources, i + 1, fieldsOk);
        }
        return false;
      }
      names := names + {s.name};
      RunningTotalsNext(sources, i, advisory, malicious, unclassified);
      advisory := SaturatingAdd(advisory, s.advisory);
      malicious := SaturatingAdd(malicious, s.malicious);
      unclassified := SaturatingAdd(unclassified, s.unclassified);
    }
    assert sources[..|sources|] == sources;
    ok := advisory == c.advisory && malicious == c.malicious && unclassified == c.unclassified;
  }

  // ---------------------------------------------------------------- projection

  function CountFor(profile: Profile, c: Composition): u64 {
    if profile.Core? then c.advisory else c.malicious
  }

  predicate Consistent(s: Source, declared: Declares) {
    match DeclaredProfile(s, declared)
    case Some(Core) => s.advisory != 0 && s.malicious == 0 && s.unclassified == 0
    case Some(Malicious) => s.advisory == 0 && s.malicious != 0 && s.unclassified == 0
    case _ => false
  }

  /** The origin's entry as the code rebuilds it for a profile. */
  function Projected(s: Source, profile: Profile): Source {
    s.(advisory := if profile.Core? then s.advisory else 0,
       malicious := if profile.Malicious? then s.malicious else 0,
       unclassified := 0)
  }

  function SelectOne(s: Source, profile: Profile, declared: Declares): seq<Source> {
    if DeclaredProfile(s, declared) == Some(profile) then [s] else []
  }

  /** The origin's own entries of one declared profile. */
  function Select(sources: seq<Source>, profile: Profile, declared: Declares): seq<Source> {
    if sources == [] then [] else SelectOne(sources[0], profile, declared) + Select(sources[1..], profile, declared)
  }

  ghost predicate AllConsistent(sources: seq<Source>, declared: Declares) {
    forall s :: s in sources ==> Consistent(s, declared)
  }

  ghost predicate MatchesOrigin(profile: Profile, payload: Composition, origin: Composition, declared: Declares) {
    && profile != Full
    && payload.ActiveRecords() == CountFor(profile, origin)
    && AllConsistent(origin.sources, declared)
    && payload.sources == Select(origin.sources, profile, declared)
  }

  lemma SelectSnoc(sources: seq<Source>, s: Source, profile: Profile, declared: Declares)
    ensures Select(sources + [s], profile, declared) ==
            Select(sources, profile, declared) + SelectOne(s, profile, declared)
  {
    if sources == [] {
      assert sources + [s] == [s] && [s][1..] == [];
    } else {
      assert (sources + [s])[0] == sources[0] && (sources + [s])[1..] == sources[1..] + [s];
      SelectSnoc(sources[1..], s, profile, declared);
      ConcatAssociates(SelectOne(sources[0], profile, declared), Select(sources[1..], profile, declared),
                       SelectOne(s, profile, declared));
    }
  }

  /** `projection_matches_origin`. The rebuilt entries are the origin's entries: zeroing changes nothing. */
  method ProjectionMatchesOrigin(profile: Profile, payload: Composition, origin: Composition, declared: Declares)
    returns (ok: bool)
    ensures ok <==> MatchesOrigin(profile, payload, origin, declared)
    // Spelled out: every origin entry has records of exactly the kind it declares, and the payload holds exactly
    // the entries that declare its profile.
    ensures ok ==>
              && profile != Full
              && (forall s :: s in origin.sources ==>
                    var kind := declared(s.name, s.license, s.evidenceSha, s.locator);
                    && s.unclassified == 0 && (kind == Some(Core) || kind == Some(Malicious))
                    && (kind == Some(Core) <==> s.advisory != 0) && (kind == Some(Malicious) <==> s.malicious != 0))
              && (forall s :: s in payload.sources <==>
                    s in origin.sources && declared(s.name, s.license, s.evidenceSha, s.locator) == Some(profile))
  {
    ok := CompareSources(profile, payload, origin, declared);
    SelectMembers(origin.sources, profile, declared);
  }

  method CompareSources(profile: Profile, payload: Composition, origin: Composition, declared: Declares)
    returns (ok: bool)
    ensures ok <==> MatchesOrigin(profile, payload, origin, declared)
  {
    if profile.Full? || payload.ActiveRecords() != CountFor(profile, origin) {
      return false;
    }
    var expected := [];
    for i := 0 to |origin.sources|
      invariant forall s :: s in origin.sources[..i] ==> Consistent(s, declared)
      invariant expected == Select(origin.sources[..i], profile, declared)
    {
      var s := origin.sources[i];
      if !Consistent(s, declared) {
        return false;
      }
      assert origin.sources[..i + 1] == origin.sources[..i] + [s];
      SelectSnoc(origin.sources[..i], s, profile, declared);
      if DeclaredProfile(s, declared) == Some(profile) {
        expected := expected + [Projected(s, profile)];
      }
    }
    assert origin.sources[..|origin.sources|] == origin.sources;
    ok := payload.sources == expected;
  }

  // ---------------------------------------------------------------- validated manifests

  /** The accounting clauses of the descriptor check, with the composition check. */
  ghost predicate DescriptorOk(d: Descriptor, fieldsOk: Source -> bool) {
    && d.composition.policyVersion == POLICY_VERSION
    && d.composition.ActiveRecords() == d.stats.active
    && d.composition.inactive == d.stats.inactive
    && SaturatingAdd(d.composition.ActiveRecords(), d.composition.inactive) == d.stats.sourceRecords
    && CompositionOk(d.composition, fieldsOk)
  }

  ghost predicate ProfileOk(profile: Profile, derivation: Derivation, payload: Descriptor, origin: Descriptor,
                            declared: Declares) {
    if profile.Full? then derivation.ByteExactOnlineBackup? && payload == origin
    else
      && derivation.CurrentRecordProjection?
      && CountFor(profile, payload.composition) != 0
      && CountFor(if profile.Core? then Malicious else Core, payload.composition) == 0
      && payload.composition.unclassified == 0 && payload.composition.inactive == 0
      && payload.stats.sourceRecords == payload.stats.revisions
      && payload.stats.snapshots == 0 && payload.stats.deltas == 0 && payload.stats.completeDeltas == 0
      && payload.snapshotIds == [] && payload.deltaIds == []
      && origin.composition.unclassified == 0
      && MatchesOrigin(profile, payload.composition, origin.composition, declared)
  }

  /** `validate_profile`. */
  method ValidateProfile(profile: Profile, derivation: Derivation, payload: Descriptor, origin: Descriptor,
                         declared: Declares)
    returns (ok: bool)
    ensures ok <==> ProfileOk(profile, derivation, payload, origin, declared)
    // Spelled out: a full bundle is a byte-exact backup of its origin;
    ensures profile == Full ==> (ok <==> derivation == ByteExactOnlineBackup && payload == origin)
    // a projection holds current records of one kind only, and no history, snapshot or delta.
    ensures profile != Full && ok ==>
              && derivation == CurrentRecordProjection
              && (profile == Core <==> payload.composition.advisory != 0)
              && (profile == Malicious <==> payload.composition.malicious != 0)
              && payload.composition.unclassified == 0 && payload.composition.inactive == 0
              && origin.composition.unclassified == 0
              && payload.stats.sourceRecords == payload.stats.revisions
              && payload.stats.snapshots == 0 && payload.stats.deltas == 0 && payload.stats.completeDeltas == 0
              && payload.snapshotIds == [] && payload.deltaIds == []
  {
    match profile
    case Full =>
      ok := derivation == ByteExactOnlineBackup && payload == origin;
    case _ =>
      var c := payload.composition;
      var expected := if profile.Core? then c.advisory != 0 && c.malicious == 0
      else c.advisory == 0 && c.malicious != 0;
      if derivation != CurrentRecordProjection || !expected || c.unclassified != 0 || c.inactive != 0
         || payload.stats.sourceRecords != payload.stats.revisions || payload.stats.snapshots != 0
         || payload.stats.deltas != 0 || payload.stats.completeDeltas != 0 || payload.snapshotIds != []
         || payload.deltaIds != [] || origin.composition.unclassified != 0 {
        return false;
      }
      ok := ProjectionMatchesOrigin(profile, c, origin.composition, declared);
  }

  ghost predicate Validated(profile: Profile, payload: Descriptor, origin: Descriptor, fieldsOk: Source -> bool,
                            declared: Declares) {
    && DescriptorOk(payload, fieldsOk) && DescriptorOk(origin, fieldsOk)
    && profile != Full && ProfileOk(profile, CurrentRecordProjection, payload, origin, declared)
  }

  // ---------------------------------------------------------------- the partition

  /** Merging two name-ordered lists. */
  function Merge(a: seq<Source>, b: seq<Source>): seq<Source> {
    if a == [] then b
    else if b == [] then a
    else if Less(a[0].name, b[0].name) then [a[0]] + Merge(a[1..], b)
    else [b[0]] + Merge(a, b[1..])
  }

  lemma {:induction false} SelectMembers(sources: seq<Source>, profile: Profile, declared: Declares)
    ensures forall s :: s in Select(sources, profile, declared) <==>
              s in sources && DeclaredProfile(s, declared) == Some(profile)
  {
    if sources != [] {
      SelectMembers(sources[1..], profile, declared);
      assert sources == [sources[0]] + sources[1..];
    }
  }

  lemma {:induction false} MergeSelected(sources: seq<Source>, declared: Declares)
    requires StrictlySorted(sources, SourceName) && AllConsistent(sources, declared)
    ensures Merge(Select(sources, Core, declared), Select(sources, Malicious, declared)) == sources
  {
    if sources != [] {
      var head, rest := sources[0], sources[1..];
      MergeSelected(rest, declared);
      HeadFirst(sources);
      SelectMembers(rest, Core, declared);
      SelectMembers(rest, Malicious, declared);
      assert Consistent(head, declared) by { assert head in sources; }
      MergeHead(head, Select(rest, Core, declared), Select(rest, Malicious, declared));
      MergeHead(head, Select(rest, Malicious, declared), Select(rest, Core, declared));
      SelectHead(sources, Core, declared);
      SelectHead(sources, Malicious, declared);
      assert sources == [head] + rest;
    }
  }

  lemma SelectHead(sources: seq<Source>, profile: Profile, declared: Declares)
    requires sources != []
    ensures Select(sources, profile, declared) ==
            if DeclaredProfile(sources[0], declared) == Some(profile)
            then [sources[0]] + Select(sources[1..], profile, declared) else Select(sources[1..], profile, declared)
  {
  }

  lemma HeadFirst(sources: seq<Source>)
    requires sources != [] && StrictlySorted(sources, SourceName)
    ensures forall s :: s in sources[1..] ==> Less(sources[0].name, s.name) && !Less(s.name, sources[0].name)
  {
    forall s | s in sources[1..]
      ensures Less(sources[0].name, s.name) && !Less(s.name, sources[0].name)
    {
      var j :| 0 <= j < |sources[1..]| && sources[1..][j] == s;
      assert SourceName(sources[j + 1]) == s.name && SourceName(sources[0]) == sources[0].name;
      LessTrichotomy(sources[0].name, s.name);
    }
  }

  lemma MergeHead(head: Source, a: seq<Source>, b: seq<Source>)
    requires forall s :: s in a || s in b ==> Less(head.name, s.name) && !Less(s.name, head.name)
    ensures Merge([head] + a, b) == [head] + Merge(a, b)
    ensures Merge(b, [head] + a) == [head] + Merge(b, a)
  {
    assert ([head] + a)[1..] == a;
    if b != [] {
      assert b[0] in b;
    }
  }

  /** Core and malicious divide the origin: no source is in both or in neither, none is altered, and
      merging the two lists by name gives the origin's list back. */
  lemma ProjectionsPartition(core: Descriptor, malicious: Descriptor, origin: Descriptor,
                             fieldsOk: Source -> bool, declared: Declares)
    requires Validated(Core, core, origin, fieldsOk, declared)
    requires Validated(Malicious, malicious, origin, fieldsOk, declared)
    ensures Merge(core.composition.sources, malicious.composition.sources) == origin.composition.sources
    ensures forall s :: s in origin.composition.sources <==>
              s in core.composition.sources || s in malicious.composition.sources
    ensures forall s, t :: s in core.composition.sources && t in malicious.composition.sources ==> s.name != t.name
    ensures core.composition.advisory == origin.composition.advisory
    ensures malicious.composition.malicious == origin.composition.malicious
  {
    var sources := origin.composition.sources;
    MergeSelected(sources, declared);
    SelectMembers(sources, Core, declared);
    SelectMembers(sources, Malicious, declared);
    forall s | s in sources
      ensures s in core.composition.sources || s in malicious.composition.sources
    {
      assert Consistent(s, declared);
    }
    forall s, t | s in core.composition.sources && t in malicious.composition.sources
      ensures s.name != t.name
    {
      assert s in sources && t in sources && s != t;
      var i :| 0 <= i < |sources| && sources[i] == s;
      var j :| 0 <= j < |sources| && sources[j] == t;
      LessTrichotomy(s.name, t.name);
      assert Less(SourceName(sources[i]), SourceName(sources[j]))
             || Less(SourceName(sources[j]), SourceName(sources[i]));
    }
  }

  // ---------------------------------------------------------------- when a projection exists

  /** Selecting keeps a total that only the selected sources contribute to, and drops any other to zero. */
  lemma {:induction false} SelectTotal(sources: seq<Source>, profile: Profile, declared: Declares, count: Source -> u64)
    ensures (forall s :: s in sources && DeclaredProfile(s, declared) != Some(profile) ==> count(s) == 0) ==>
              Total(Select(sources, profile, declared), count) == Total(sources, count)
    ensures (forall s :: s in sources && DeclaredProfile(s, declared) == Some(profile) ==> count(s) == 0) ==>
              Total(Select(sources, profile, declared), count) == 0
  {
    if sources != [] {
      SelectTotal(sources[1..], profile, declared, count);
      SelectHead(sources, profile, declared);
      var rest := Select(sources[1..], profile, declared);
      assert ([sources[0]] + rest)[1..] == rest;
      assert sources[0] in sources && forall s :: s in sources[1..] ==> s in sources;
    }
  }

  lemma SelectTotals(sources: seq<Source>, declared: Declares)
    requires AllConsistent(sources, declared)
    ensures Total(Select(sources, Core, declared), AdvisoryOf) == Total(sources, AdvisoryOf)
    ensures Total(Select(sources, Malicious, declared), MaliciousOf) == Total(sources, MaliciousOf)
    ensures Total(Select(sources, Core, declared), MaliciousOf) == 0
    ensures Total(Select(sources, Malicious, declared), AdvisoryOf) == 0
    ensures Total(Select(sources, Core, declared), UnclassifiedOf) == 0
    ensures Total(Select(sources, Malicious, declared), UnclassifiedOf) == 0
  {
    assert forall s :: s in sources ==> Consistent(s, declared);
    SelectTotal(sources, Core, declared, AdvisoryOf);
    SelectTotal(sources, Core, declared, MaliciousOf);
    SelectTotal(sources, Core, declared, UnclassifiedOf);
    SelectTotal(sources, Malicious, declared, AdvisoryOf);
    SelectTotal(sources, Malicious, declared, MaliciousOf);
    SelectTotal(sources, Malicious, declared, UnclassifiedOf);
  }

  lemma {:induction false} SelectSorted(sources: seq<Source>, profile: Profile, declared: Declares)
    requires StrictlySorted(sources, SourceName)
    ensures StrictlySorted(Select(sources, profile, declared), SourceName)
    ensures |Select(sources, profile, declared)| <= |sources|
  {
    if sources != [] {
      SelectSorted(sources[1..], profile, declared);
      SelectMembers(sources[1..], profile, declared);
      HeadFirst(sources);
    }
  }

  /** The one payload composition an origin can have. */
  function Project(profile: Profile, origin: Composition, declared: Declares): Composition {
    Composition(POLICY_VERSION,
                if profile.Core? then origin.advisory else 0,
                if profile.Malicious? then origin.malicious else 0,
                0, 0, Select(origin.sources, profile, declared))
  }

  /** A validated payload is the projection of its origin, so an origin admits at most one per profile. */
  lemma ProjectionDetermined(profile: Profile, payload: Descriptor, origin: Descriptor, fieldsOk: Source -> bool,
                             declared: Declares)
    requires Validated(profile, payload, origin, fieldsOk, declared)
    ensures payload.composition == Project(profile, origin.composition, declared)
  {
    SelectTotals(origin.composition.sources, declared);
  }

  /** The separate record-count comparison never rejects what the source comparison accepts. */
  lemma RecordCountImplied(profile: Profile, payload: Composition, origin: Composition, fieldsOk: Source -> bool,
                           declared: Declares)
    requires profile != Full && CompositionOk(payload, fieldsOk) && CompositionOk(origin, fieldsOk)
    requires AllConsistent(origin.sources, declared)
    requires payload.sources == Select(origin.sources, profile, declared)
    ensures payload.ActiveRecords() == CountFor(profile, origin)
  {
    SelectTotals(origin.sources, declared);
  }

  /** The smallest descriptor around a projected composition. */
  function ProjectedDescriptor(profile: Profile, origin: Composition, declared: Declares): Descriptor {
    var c := Project(profile, origin, declared);
    Descriptor(c, Stats(c.ActiveRecords(), 0, c.ActiveRecords(), c.ActiveRecords(), 0, 0, 0), [], [], [])
  }

  /** Exactly when a valid origin can be distributed under a profile: nothing unclassified, every source
      consistent with what it declares, and at least one record of that kind. */
  lemma ProjectionExists(profile: Profile, origin: Descriptor, fieldsOk: Source -> bool, declared: Declares)
    requires profile != Full && DescriptorOk(origin, fieldsOk)
    ensures (exists payload :: Validated(profile, payload, origin, fieldsOk, declared)) <==>
              && AllConsistent(origin.composition.sources, declared)
              && CountFor(profile, origin.composition) != 0
  {
    var o := origin.composition;
    if AllConsistent(o.sources, declared) {
      SelectTotals(o.sources, declared);
      UnclassifiedTotal(o.sources, declared);
      SelectSorted(o.sources, profile, declared);
      SelectMembers(o.sources, profile, declared);
      if CountFor(profile, o) != 0 {
        assert Validated(profile, ProjectedDescriptor(profile, o, declared), origin, fieldsOk, declared);
      }
    }
  }

  lemma {:induction false} UnclassifiedTotal(sources: seq<Source>, declared: Declares)
    requires AllConsistent(sources, declared)
    ensures Total(sources, UnclassifiedOf) == 0
  {
    if sources != [] {
      UnclassifiedTotal(sources[1..], declared);
      assert sources[0] in sources && Consistent(sources[0], declared);
    }
  }
}
