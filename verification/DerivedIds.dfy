/** What identifiers are derived from, and that only colliding digests can make two of them equal. */
module DerivedIds {
  import opened Bytes
  import opened CaseOperations
  import opened Json
  import opened Sarif
  import opened SecurityCase
  import opened Sequences

  /** Different texts among the given ones have different shortened digests. */
  ghost predicate Separates(h: Hashing, texts: set<string>) {
    forall s, t :: s in texts && t in texts && First32(h.ofText(s)) == First32(h.ofText(t)) ==> s == t
  }

  function AsSet(texts: seq<string>): set<string> {
    set t | t in texts
  }

  ghost predicate FreshTexts(b: Case, texts: seq<string>, h: Hashing) {
    forall t :: t in texts ==> !Lists(b.candidates, CandidateIdOf, IdOfText("sf_candidate_", t, h))
  }

  // ---------------------------------------------------------------- the texts behind the identifiers differ

  lemma DigitsInjective(m: nat, n: nat)
    requires Digits(m) == Digits(n)
    ensures m == n
  {
    DecimalDigits(m);
    DecimalDigits(n);
    assert |Decimal(m)| == |Decimal(n)|;
    forall k | 0 <= k < |Decimal(m)|
      ensures Decimal(m)[k] == Decimal(n)[k]
    {
      assert Digits(m)[k] == Digits(n)[k];
    }
    assert Decimal(m) == Decimal(n);
    DecimalRoundTrip(m);
    DecimalRoundTrip(n);
  }

  lemma NoBar(n: nat)
    ensures '|' !in Digits(n)
  {
    DecimalDigits(n);
  }

  /** What stands before the first bar is determined. */
  lemma BeforeBar(a: string, b: string, s: string)
    requires '|' !in a && '|' !in b && a + "|" <= s && b + "|" <= s
    ensures a == b
  {
    assert forall i :: 0 <= i < |a| ==> s[i] == (a + "|")[i] == a[i] && a[i] in a;
    assert forall i :: 0 <= i < |b| ==> s[i] == (b + "|")[i] == b[i] && b[i] in b;
    assert s[|a|] == (a + "|")[|a|] == '|' && s[|b|] == (b + "|")[|b|] == '|';
    assert |a| == |b|;
  }

  /** The number alone keeps two texts of one document apart, whatever the titles. */
  lemma CandidateTextsDiffer(sourceId: string, i: nat, j: nat, title: string, other: string)
    requires CandidateText(sourceId, i, title) == CandidateText(sourceId, j, other)
    ensures i == j && title == other
  {
    var s := CandidateText(sourceId, i, title);
    var rest := s[|sourceId| + 1..];
    assert rest == Digits(i) + "|" + title == Digits(j) + "|" + other;
    NoBar(i);
    NoBar(j);
    BeforeBar(Digits(i), Digits(j), rest);
    DigitsInjective(i, j);
    assert title == rest[|Digits(i)| + 1..] == other;
  }

  lemma SamePrefix(prefix: string, s: string, t: string)
    ensures prefix + s == prefix + t <==> s == t
  {
    assert (prefix + s)[|prefix|..] == s && (prefix + t)[|prefix|..] == t;
  }

  lemma TwoResults(bytes: seq<byte>, results: seq<Json>, h: Hashing, i: nat, j: nat)
    requires i < |results| && j < |results|
    ensures var texts, added := ImportTexts(bytes, results, h), ImportedCandidates(bytes, results, h);
            && (texts[i] == texts[j] ==> i == j)
            && (added[i].candidateId == added[j].candidateId <==>
                  First32(h.ofText(texts[i])) == First32(h.ofText(texts[j])))
  {
    var texts := ImportTexts(bytes, results, h);
    SamePrefix("sf_candidate_", First32(h.ofText(texts[i])), First32(h.ofText(texts[j])));
    if texts[i] == texts[j] {
      CandidateTextsDiffer(IdOfBytes("sf_source_", bytes, h), i, j, ResultTitle(results[i]), ResultTitle(results[j]));
    }
  }

  lemma DistinctIff(added: seq<Candidate>, texts: seq<string>, h: Hashing)
    requires |added| == |texts|
    requires forall i, j :: 0 <= i < |texts| && 0 <= j < |texts| ==>
               && (texts[i] == texts[j] ==> i == j)
               && (added[i].candidateId == added[j].candidateId <==>
                     First32(h.ofText(texts[i])) == First32(h.ofText(texts[j])))
    ensures Unique(added, CandidateIdOf) <==> Separates(h, AsSet(texts))
  {
    if Unique(added, CandidateIdOf) {
      forall s, t | s in texts && t in texts && First32(h.ofText(s)) == First32(h.ofText(t))
        ensures s == t
      {
        var i :| 0 <= i < |texts| && texts[i] == s;
        var j :| 0 <= j < |texts| && texts[j] == t;
        assert CandidateIdOf(added[i]) == CandidateIdOf(added[j]);
      }
    } else {
      var i, j :| 0 <= i < j < |added| && CandidateIdOf(added[i]) == CandidateIdOf(added[j]);
      assert texts[i] in texts && texts[j] in texts && texts[i] != texts[j];
    }
  }

  /** So the new identifiers are distinct exactly when the shortened digest keeps their texts apart. */
  lemma NewIdsDistinct(bytes: seq<byte>, results: seq<Json>, h: Hashing)
    ensures Unique(ImportedCandidates(bytes, results, h), CandidateIdOf) <==>
              Separates(h, AsSet(ImportTexts(bytes, results, h)))
  {
    var texts, added := ImportTexts(bytes, results, h), ImportedCandidates(bytes, results, h);
    forall i, j | 0 <= i < |texts| && 0 <= j < |texts|
      ensures texts[i] == texts[j] ==> i == j
      ensures added[i].candidateId == added[j].candidateId <==>
                First32(h.ofText(texts[i])) == First32(h.ofText(texts[j]))
    {
      TwoResults(bytes, results, h, i, j);
    }
    DistinctIff(added, texts, h);
  }

  lemma UniqueConcat<T(!new)>(items: seq<T>, more: seq<T>, id: T -> string)
    requires Unique(items, id)
    ensures Unique(items + more, id) <==> Unique(more, id) && forall x :: x in more ==> !Lists(items, id, id(x))
  {
    var all := items + more;
    if Unique(all, id) {
      forall i, j | 0 <= i < j < |more|
        ensures id(more[i]) != id(more[j])
      {
        assert all[|items| + i] == more[i] && all[|items| + j] == more[j];
      }
      forall x, y | x in more && y in items
        ensures id(y) != id(x)
      {
        var i :| 0 <= i < |items| && items[i] == y;
        var j :| 0 <= j < |more| && more[j] == x;
        assert all[i] == y && all[|items| + j] == x;
      }
    }
    if Unique(more, id) && forall x :: x in more ==> !Lists(items, id, id(x)) {
      forall i, j | 0 <= i < j < |all|
        ensures id(all[i]) != id(all[j])
      {
        if i < |items| <= j {
          assert all[j] == more[j - |items|] && all[i] in items;
        } else if |items| <= i {
          assert all[i] == more[i - |items|] && all[j] == more[j - |items|];
        }
      }
    }
  }

  lemma FreshIds(b: Case, bytes: seq<byte>, results: seq<Json>, h: Hashing)
    ensures FreshTexts(b, ImportTexts(bytes, results, h), h) <==>
              forall x :: x in ImportedCandidates(bytes, results, h) ==>
                !Lists(b.candidates, CandidateIdOf, CandidateIdOf(x))
  {
    SameNames(b, ImportedCandidates(bytes, results, h), ImportTexts(bytes, results, h), h);
  }

  lemma SameNames(b: Case, added: seq<Candidate>, texts: seq<string>, h: Hashing)
    requires |added| == |texts|
    requires forall i :: 0 <= i < |added| ==> CandidateIdOf(added[i]) == IdOfText("sf_candidate_", texts[i], h)
    ensures FreshTexts(b, texts, h) <==>
              forall x :: x in added ==> !Lists(b.candidates, CandidateIdOf, CandidateIdOf(x))
  {
    if FreshTexts(b, texts, h) {
      forall x | x in added
        ensures !Lists(b.candidates, CandidateIdOf, CandidateIdOf(x))
      {
        var i :| 0 <= i < |added| && added[i] == x;
        assert texts[i] in texts;
      }
    }
    if forall x :: x in added ==> !Lists(b.candidates, CandidateIdOf, CandidateIdOf(x)) {
      forall t | t in texts
        ensures !Lists(b.candidates, CandidateIdOf, IdOfText("sf_candidate_", t, h))
      {
        var i :| 0 <= i < |texts| && texts[i] == t;
        assert added[i] in added;
      }
    }
  }

  // ---------------------------------------------------------------- every case the operations make

  ghost predicate SeparatesDocuments(h: Hashing, documents: set<seq<byte>>) {
    forall d, e :: d in documents && e in documents && First32(h.ofBytes(d)) == First32(h.ofBytes(e)) ==> d == e
  }

  /** Every candidate is named after one of the texts, and the text starts with the candidate's source. */
  ghost predicate CandidatesFrom(candidates: seq<Candidate>, texts: set<string>, h: Hashing) {
    forall x :: x in candidates ==> NamedFrom(x, texts, h)
  }

  ghost predicate NamedFrom(x: Candidate, texts: set<string>, h: Hashing) {
    exists t :: t in texts && x.sourceId + "|" <= t && x.candidateId == IdOfText("sf_candidate_", t, h)
  }

  /** The evidence is named after exactly the given documents. */
  ghost predicate EvidenceFrom(c: Case, documents: set<seq<byte>>, h: Hashing) {
    && (forall e :: e in c.evidence ==> exists d :: d in documents && e.evidenceId == IdOfBytes("sf_evidence_", d, h))
    && (forall d :: d in documents ==> Lists(c.evidence, EvidenceIdOf, IdOfBytes("sf_evidence_", d, h)))
  }

  function FindingTexts(sourceId: string, findings: seq<Finding>): seq<string> {
    seq(|findings|, i requires 0 <= i < |findings| => sourceId + "|" + findings[i].id)
  }

  function RunTexts(run: Run, h: Hashing): set<string> {
    AsSet(FindingTexts(IdOfText("sf_source_", run.reportSha256, h), run.findings))
  }

  function OperationTexts(op: Operation, h: Hashing): set<string> {
    match op
    case ImportReview(e) => AsSet(FindingTexts(IdOfText("sf_source_", e.importId, h), e.findings))
    case ImportDocument(bytes, doc, _, _) => AsSet(ImportTexts(bytes, Results(doc), h))
    case StageAdvice(_) => {}
    case Decide(_) => {}
  }

  function OperationDocuments(op: Operation): set<seq<byte>> {
    match op
    case ImportReview(e) => {e.bytes}
    case ImportDocument(bytes, _, _, _) => {bytes}
    case StageAdvice(_) => {}
    case Decide(_) => {}
  }

  function TextsUpTo(texts: set<string>, ops: seq<Operation>, h: Hashing): set<string> {
    if ops == [] then texts
    else TextsUpTo(texts, ops[..|ops| - 1], h) + OperationTexts(ops[|ops| - 1], h)
  }

  function DocumentsUpTo(documents: set<seq<byte>>, ops: seq<Operation>): set<seq<byte>> {
    if ops == [] then documents
    else DocumentsUpTo(documents, ops[..|ops| - 1]) + OperationDocuments(ops[|ops| - 1])
  }

  /** A list of candidates each named after the text at its place. */
  lemma NamedInOrder(added: seq<Candidate>, texts: seq<string>, h: Hashing)
    requires |added| == |texts|
    requires forall i :: 0 <= i < |added| ==>
               added[i].sourceId + "|" <= texts[i] && added[i].candidateId == IdOfText("sf_candidate_", texts[i], h)
    ensures CandidatesFrom(added, AsSet(texts), h)
  {
    forall x | x in added
      ensures NamedFrom(x, AsSet(texts), h)
    {
      var i :| 0 <= i < |added| && added[i] == x;
      assert texts[i] in texts;
    }
  }

  lemma ConcatFrom(a: seq<Candidate>, b: seq<Candidate>, s: set<string>, t: set<string>, h: Hashing)
    requires CandidatesFrom(a, s, h) && CandidatesFrom(b, t, h)
    ensures CandidatesFrom(a + b, s + t, h)
  {
    forall x | x in a + b
      ensures NamedFrom(x, s + t, h)
    {
      assert NamedFrom(x, s, h) || NamedFrom(x, t, h);
    }
  }

  lemma CreatedFrom(run: Run, h: Hashing)
    ensures CandidatesFrom(Created(run, h).candidates, RunTexts(run, h), h)
    ensures EvidenceFrom(Created(run, h), {run.bytes}, h)
  {
    var c := Created(run, h);
    NamedInOrder(c.candidates, FindingTexts(IdOfText("sf_source_", run.reportSha256, h), run.findings), h);
    assert c.evidence[0] in c.evidence && EvidenceIdOf(c.evidence[0]) == IdOfBytes("sf_evidence_", run.bytes, h);
  }

  lemma PushCandidates(c: Case, op: Operation, texts: set<string>, h: Hashing)
    requires CandidatesFrom(c.candidates, texts, h)
    ensures CandidatesFrom(Pushed(c, op, h).candidates, texts + OperationTexts(op, h), h)
  {
    match op
    case ImportReview(e) =>
      NamedInOrder(ReviewCandidates(e, h), FindingTexts(IdOfText("sf_source_", e.importId, h), e.findings), h);
      ConcatFrom(c.candidates, ReviewCandidates(e, h), texts, OperationTexts(op, h), h);
    case ImportDocument(bytes, doc, _, _) =>
      ImportNamed(bytes, Results(doc), h);
      ConcatFrom(c.candidates, ImportedCandidates(bytes, Results(doc), h), texts, OperationTexts(op, h), h);
    case StageAdvice(_) =>
    case Decide(_) =>
  }

  lemma ImportNamed(bytes: seq<byte>, results: seq<Json>, h: Hashing)
    ensures CandidatesFrom(ImportedCandidates(bytes, results, h), AsSet(ImportTexts(bytes, results, h)), h)
  {
    NamedInOrder(ImportedCandidates(bytes, results, h), ImportTexts(bytes, results, h), h);
  }

  lemma PushEvidence(c: Case, op: Operation, documents: set<seq<byte>>, h: Hashing)
    requires EvidenceFrom(c, documents, h)
    ensures EvidenceFrom(Pushed(c, op, h), documents + OperationDocuments(op), h)
  {
    var d := Pushed(c, op, h);
    assert c.evidence <= d.evidence;
    forall e | e in c.evidence
      ensures e in d.evidence
    {
      PrefixMember(c.evidence, d.evidence, e);
    }
    forall document | document in OperationDocuments(op)
      ensures Lists(d.evidence, EvidenceIdOf, IdOfBytes("sf_evidence_", document, h))
    {
      var last := d.evidence[|d.evidence| - 1];
      assert last in d.evidence && EvidenceIdOf(last) == IdOfBytes("sf_evidence_", document, h);
    }
  }

  lemma TextsNext(texts: set<string>, documents: set<seq<byte>>, ops: seq<Operation>, h: Hashing, i: nat)
    requires i < |ops|
    ensures TextsUpTo(texts, ops[..i + 1], h) == TextsUpTo(texts, ops[..i], h) + OperationTexts(ops[i], h)
    ensures DocumentsUpTo(documents, ops[..i + 1]) == DocumentsUpTo(documents, ops[..i]) + OperationDocuments(ops[i])
  {
    assert ops[..i + 1][..i] == ops[..i] && ops[..i + 1][i] == ops[i];
  }

  lemma NextNames(cases: seq<Case>, ops: seq<Operation>, h: Hashing, r: Reading, i: nat, texts: set<string>,
                  documents: set<seq<byte>>)
    requires IsHistory(cases, ops, h, r) && i < |ops|
    requires CandidatesFrom(cases[i].candidates, texts, h) && EvidenceFrom(cases[i], documents, h)
    ensures CandidatesFrom(cases[i + 1].candidates, texts + OperationTexts(ops[i], h), h)
    ensures EvidenceFrom(cases[i + 1], documents + OperationDocuments(ops[i]), h)
  {
    StepAt(cases, ops, h, r, i);
    PushCandidates(cases[i], ops[i], texts, h);
    PushEvidence(cases[i], ops[i], documents, h);
  }

  /** Along every run from a created case, candidates and evidence are named after the inputs of the run. */
  lemma {:induction false} HistoryNames(run: Run, cases: seq<Case>, ops: seq<Operation>, h: Hashing, r: Reading, j: nat)
    requires IsHistory(cases, ops, h, r) && cases[0] == Created(run, h) && j <= |ops|
    ensures CandidatesFrom(cases[j].candidates, TextsUpTo(RunTexts(run, h), ops[..j], h), h)
    ensures EvidenceFrom(cases[j], DocumentsUpTo({run.bytes}, ops[..j]), h)
  {
    if j == 0 {
      CreatedFrom(run, h);
    } else {
      var i := j - 1;
      HistoryNames(run, cases, ops, h, r, i);
      TextsNext(RunTexts(run, h), {run.bytes}, ops, h, i);
      NextNames(cases, ops, h, r, i, TextsUpTo(RunTexts(run, h), ops[..i], h), DocumentsUpTo({run.bytes}, ops[..i]));
    }
  }

  // ---------------------------------------------------------------- freshness follows

  /** A text of a new source is no text of an old one, so without a digest collision its identifier is new. */
  lemma TextsAreFresh(b: Case, texts: set<string>, sourceId: string, added: seq<string>, h: Hashing)
    requires CandidatesFrom(b.candidates, texts, h) && Separates(h, texts + AsSet(added))
    requires '|' !in sourceId && forall x :: x in b.candidates ==> '|' !in x.sourceId && x.sourceId != sourceId
    requires forall t :: t in added ==> sourceId + "|" <= t
    ensures FreshTexts(b, added, h)
  {
    forall t, x | t in added && x in b.candidates
      ensures x.candidateId != IdOfText("sf_candidate_", t, h)
    {
      assert NamedFrom(x, texts, h);
      var s :| s in texts && x.sourceId + "|" <= s && x.candidateId == IdOfText("sf_candidate_", s, h);
      SamePrefix("sf_candidate_", First32(h.ofText(s)), First32(h.ofText(t)));
      if x.candidateId == IdOfText("sf_candidate_", t, h) {
        assert s == t;
        BeforeBar(x.sourceId, sourceId, t);
      }
    }
  }

  /** A document is held exactly when it is one of those that the evidence is named after. */
  lemma DocumentHeld(b: Case, documents: set<seq<byte>>, bytes: seq<byte>, h: Hashing)
    requires EvidenceFrom(b, documents, h) && SeparatesDocuments(h, documents + {bytes})
    ensures Lists(b.evidence, EvidenceIdOf, IdOfBytes("sf_evidence_", bytes, h)) <==> bytes in documents
  {
    if e :| e in b.evidence && EvidenceIdOf(e) == IdOfBytes("sf_evidence_", bytes, h) {
      var d :| d in documents && e.evidenceId == IdOfBytes("sf_evidence_", d, h);
      SamePrefix("sf_evidence_", First32(h.ofBytes(d)), First32(h.ofBytes(bytes)));
      assert d == bytes;
    }
  }
}
