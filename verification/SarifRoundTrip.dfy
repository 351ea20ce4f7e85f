/** What survives when a case is exported to SARIF and imported into another case. */
module SarifRoundTrip {
  import opened Bytes
  import opened CaseOperations
  import opened CaseValidator
  import opened Characters
  import opened DerivedIds
  import opened Json
  import opened Sarif
  import opened SecurityCase
  import opened Wrappers

  lemma ExportReads(c: Case)
    ensures IsSarif(Export(c)) && Results(Export(c)) == ExportedResults(c)
  {
    var runs := [Export(c).members["runs"].items[0]];
    assert Export(c).Get("runs") == Some(Array(runs));
    assert runs[0].Get("results") == Some(Array(ExportedResults(c)));
    assert runs[1..] == [];
    assert RunResults(runs) == ExportedResults(c) + RunResults(runs[1..]);
    assert RunResults(runs[1..]) == [];
  }

  function SeverityOrNote(x: Candidate): string {
    if x.severity.Some? then x.severity.value else "note"
  }

  lemma ResultReads(x: Candidate, decisions: seq<Decision>)
    ensures ResultTitle(ExportedResult(x, decisions)) == x.title
    ensures ResultLevel(ExportedResult(x, decisions)) == Some(SeverityOrNote(x))
  {
  }

  /** The name of a verdict in an export. */
  predicate Names(name: string, verdict: Verdict) {
    && (name == "Validated" <==> verdict == Verdict.Validated)
    && (name == "Rejected" <==> verdict == Verdict.Rejected)
    && (name == "Abstained" <==> verdict == Verdict.Abstained)
    && name != "pending"
  }

  lemma VerdictNamed(verdict: Verdict)
    ensures Names(VerdictName(verdict), verdict)
  {
    var name := VerdictName(verdict);
    assert name[0] == 'V' || name[0] == 'R' || name[0] == 'A';
  }

  lemma {:induction false} DecisionTold(decisions: seq<Decision>, candidateId: string)
    requires Unique(decisions, DecidedCandidateOf)
    ensures forall d :: d in decisions && d.candidateId == candidateId ==>
              DecisionName(decisions, candidateId) == VerdictName(d.verdict)
    ensures (forall d :: d in decisions ==> d.candidateId != candidateId) ==>
              DecisionName(decisions, candidateId) == "pending"
  {
    if decisions != [] {
      var rest := decisions[1..];
      assert forall i :: 0 <= i < |rest| ==> rest[i] == decisions[i + 1];
      DecisionTold(rest, candidateId);
      forall d | d in decisions && d.candidateId == candidateId
        ensures DecisionName(decisions, candidateId) == VerdictName(d.verdict)
      {
        var k :| 0 <= k < |decisions| && decisions[k] == d;
        if k > 0 {
          assert DecidedCandidateOf(decisions[0]) != DecidedCandidateOf(decisions[k]);
          assert rest[k - 1] == d;
        }
      }
    }
  }

  /** An export tells of every candidate whether a human decided, and how, and that it is no verdict itself. */
  lemma ExportTells(c: Case, i: nat)
    requires IdsUnique(c) && i < |c.candidates|
    ensures var p := Results(Export(c))[i].Get("properties").value;
            var x := c.candidates[i];
            && |Results(Export(c))| == |c.candidates|
            && p.Get("secureflow_candidate_id") == Some(Text(x.candidateId))
            && p.Get("not_a_vulnerability_verdict") == Some(Bool(true))
            && p.Get("human_decision").Some? && p.Get("human_decision").value.Text?
            && (forall d :: d in c.decisions && d.candidateId == x.candidateId ==>
                  Names(p.Get("human_decision").value.text, d.verdict))
            && ((forall d :: d in c.decisions ==> d.candidateId != x.candidateId) ==>
                  p.Get("human_decision").value.text == "pending")
  {
    ExportReads(c);
    var x := c.candidates[i];
    assert Results(Export(c))[i] == ExportedResult(x, c.decisions);
    DecisionTold(c.decisions, x.candidateId);
    forall d | d in c.decisions && d.candidateId == x.candidateId
      ensures Names(DecisionName(c.decisions, x.candidateId), d.verdict)
    {
      VerdictNamed(d.verdict);
    }
  }

  ghost function RoundTrip(a: Case, b: Case, bytes: seq<byte>, name: string, version: string, h: Hashing): Case {
    Imported(b, bytes, Export(a), name, version, h)
  }

  /** Title by title and in order; an absent severity comes back as `note`, and nothing else comes back:
      the class, the confidence and the evidence are the importer's own. */
  lemma CandidatesSurvive(a: Case, b: Case, bytes: seq<byte>, name: string, version: string, h: Hashing)
    ensures var c := RoundTrip(a, b, bytes, name, version, h);
            && |c.candidates| == |b.candidates| + |a.candidates|
            && b.candidates <= c.candidates
            && forall i :: 0 <= i < |a.candidates| ==>
                 var x := c.candidates[|b.candidates| + i];
                 && x.title == a.candidates[i].title
                 && x.severity == Some(SeverityOrNote(a.candidates[i]))
                 && x.class_ == ExternalToolCandidate && x.confidence == "unknown"
                 && x.sourceId == IdOfBytes("sf_source_", bytes, h)
  {
    ExportReads(a);
    forall x, decisions {
      ResultReads(x, decisions);
    }
  }

  // ---------------------------------------------------------------- exactly when the import is accepted

  lemma DerivedIdOk(prefix: string, digest: string)
    requires ShaOk(digest) && |prefix| <= 20 && forall c :: c in prefix ==> IdCharacter(c)
    ensures IdOk(prefix + First32(digest), prefix)
  {
    assert forall c :: c in digest[..32] ==> c in digest;
  }

  lemma ShortText(s: string, limit: nat, r: Reading)
    requires r.white == RustWhite && s != [] && '!' <= s[|s| - 1] <= '~' && 4 * |s| <= limit
    ensures TextOk(s, limit, r)
  {
    Utf8Bound(s);
    assert s[|s| - 1] in s;
  }

  function NewTexts(a: Case, bytes: seq<byte>, h: Hashing): seq<string> {
    ImportTexts(bytes, Results(Export(a)), h)
  }

  /** The target case holds none of the derived identifiers, and the shortened digests of the texts that the
      candidates are named after do not collide. */
  ghost predicate CollisionFree(a: Case, b: Case, bytes: seq<byte>, h: Hashing) {
    && !Lists(b.sources, SourceIdOf, IdOfBytes("sf_source_", bytes, h))
    && !Lists(b.evidence, EvidenceIdOf, IdOfBytes("sf_evidence_", bytes, h))
    && FreshTexts(b, NewTexts(a, bytes, h), h)
    && Separates(h, AsSet(NewTexts(a, bytes, h)))
  }

  lemma MethodologyText(r: Reading)
    requires r.white == RustWhite
    ensures TextOk(METHODOLOGY, 2000, r)
  {
    ShortText(METHODOLOGY, 2000, r);
  }

  lemma RetainedText(r: Reading)
    requires r.white == RustWhite
    ensures TextOk(RETAINED, 4000, r)
  {
    ShortText(RETAINED, 4000, r);
  }

  lemma LimitationText(r: Reading)
    requires r.white == RustWhite
    ensures TextOk(LIMITATION, 4000, r)
  {
    ShortText(LIMITATION, 4000, r);
  }

  lemma FixedTexts(r: Reading)
    requires r.white == RustWhite
    ensures TextOk(METHODOLOGY, 2000, r) && TextOk(RETAINED, 4000, r) && TextOk(LIMITATION, 4000, r)
    ensures TextOk("unknown", 40, r) && TextOk("note", 40, r)
  {
    MethodologyText(r);
    RetainedText(r);
    LimitationText(r);
    ShortText("unknown", 40, r);
    ShortText("note", 40, r);
  }

  lemma NewSourceOk(bytes: seq<byte>, name: string, version: string, h: Hashing, r: Reading)
    requires Hexadecimal(h) && TextOk(METHODOLOGY, 2000, r)
    ensures SourceFieldsOk(ImportedSource(bytes, name, version, h), r) <==>
              TextOk(name, 200, r) && TextOk(version, 200, r)
  {
    DerivedIdOk("sf_source_", h.ofBytes(bytes));
  }

  lemma NewEvidenceOk(bytes: seq<byte>, h: Hashing, r: Reading)
    requires Hexadecimal(h) && TextOk(RETAINED, 4000, r)
    ensures EvidenceFieldsOk(ImportedEvidence(bytes, h), r)
  {
    DerivedIdOk("sf_evidence_", h.ofBytes(bytes));
  }

  lemma CandidateIdOk(text: string, h: Hashing)
    requires Hexadecimal(h)
    ensures IdOk(IdOfText("sf_candidate_", text, h), "sf_candidate_")
  {
    DerivedIdOk("sf_candidate_", h.ofText(text));
  }

  lemma NewCandidateOk(bytes: seq<byte>, result: Json, count: nat, h: Hashing, r: Reading)
    requires Hexadecimal(h) && r.white == RustWhite
    requires TextOk(ResultTitle(result), 500, r) && OptionalTextOk(ResultLevel(result), 40, r)
    ensures CandidateFieldsOk(ImportedCandidate(bytes, result, count, h), r)
  {
    CandidateIdOk(CandidateText(IdOfBytes("sf_source_", bytes, h), count, ResultTitle(result)), h);
    FixedTexts(r);
  }

  lemma NewCandidatesOk(a: Case, bytes: seq<byte>, h: Hashing, r: Reading)
    requires Hexadecimal(h) && r.white == RustWhite && forall x :: x in a.candidates ==> CandidateFieldsOk(x, r)
    ensures forall x :: x in ImportedCandidates(bytes, Results(Export(a)), h) ==> CandidateFieldsOk(x, r)
  {
    ExportReads(a);
    FixedTexts(r);
    var results := Results(Export(a));
    forall i | 0 <= i < |results|
      ensures CandidateFieldsOk(ImportedCandidate(bytes, results[i], i, h), r)
    {
      ResultReads(a.candidates[i], a.decisions);
      assert CandidateFieldsOk(a.candidates[i], r);
      NewCandidateOk(bytes, results[i], i, h, r);
    }
  }

  lemma ListsAppend<T(!new)>(items: seq<T>, more: seq<T>, id: T -> string)
    ensures forall value :: Lists(items + more, id, value) <==> Lists(items, id, value) || Lists(more, id, value)
  {
    assert forall x :: x in items + more <==> x in items || x in more;
  }

  lemma UniqueAppendOne<T(!new)>(items: seq<T>, x: T, id: T -> string)
    requires Unique(items, id)
    ensures Unique(items + [x], id) <==> !Lists(items, id, id(x))
  {
    UniqueSnoc(items + [x], |items|, id);
    assert (items + [x])[..|items|] == items && (items + [x])[..|items| + 1] == items + [x];
  }

  lemma NewIntegrity(a: Case, b: Case, bytes: seq<byte>, name: string, version: string, h: Hashing)
    requires Integrity(b)
    ensures Integrity(RoundTrip(a, b, bytes, name, version, h)) <==> CollisionFree(a, b, bytes, h)
  {
    var c := RoundTrip(a, b, bytes, name, version, h);
    var source, evidence := ImportedSource(bytes, name, version, h), ImportedEvidence(bytes, h);
    var added := ImportedCandidates(bytes, Results(Export(a)), h);
    UniqueAppendOne(b.sources, source, SourceIdOf);
    UniqueAppendOne(b.evidence, evidence, EvidenceIdOf);
    UniqueConcat(b.candidates, added, CandidateIdOf);
    NewIdsDistinct(bytes, Results(Export(a)), h);
    FreshIds(b, bytes, Results(Export(a)), h);
    assert IdsUnique(c) <==> CollisionFree(a, b, bytes, h);
    NewLinks(a, b, bytes, name, version, h);
    if CollisionFree(a, b, bytes, h) {
      NewAuthority(a, b, bytes, name, version, h);
    }
  }

  lemma NewLinks(a: Case, b: Case, bytes: seq<byte>, name: string, version: string, h: Hashing)
    requires NoDangling(b)
    ensures NoDangling(RoundTrip(a, b, bytes, name, version, h))
  {
    var c := RoundTrip(a, b, bytes, name, version, h);
    var source, evidence := ImportedSource(bytes, name, version, h), ImportedEvidence(bytes, h);
    var added := ImportedCandidates(bytes, Results(Export(a)), h);
    ListsAppend(b.sources, [source], SourceIdOf);
    ListsAppend(b.evidence, [evidence], EvidenceIdOf);
    ListsAppend(b.candidates, added, CandidateIdOf);
    assert source in [source] && evidence in [evidence];
    assert Lists([source], SourceIdOf, source.sourceId) && Lists([evidence], EvidenceIdOf, evidence.evidenceId);
    forall x | x in c.candidates
      ensures CandidateLinked(x, c)
    {
      if x in b.candidates {
        assert CandidateLinked(x, b);
      } else {
        assert x in added;
      }
    }
  }

  lemma NewAuthority(a: Case, b: Case, bytes: seq<byte>, name: string, version: string, h: Hashing)
    requires NoDangling(b) && StateOk(b) && CollisionFree(a, b, bytes, h)
    ensures StateOk(RoundTrip(a, b, bytes, name, version, h))
  {
    var c := RoundTrip(a, b, bytes, name, version, h);
    var source := ImportedSource(bytes, name, version, h);
    forall x, s | x in c.candidates && s in c.sources && s.sourceId == x.sourceId
      ensures ClassMatches(s.kind, x.class_)
    {
      assert s in b.sources || s == source;
      if x in b.candidates {
        assert CandidateLinked(x, b);
        assert s in b.sources;
      } else {
        assert s in b.sources ==> SourceIdOf(s) == source.sourceId;
        assert s == source;
      }
    }
  }

  /** Importing an exported case succeeds exactly when the given source name and version are texts and no
      derived identifier collides. */
  lemma ImportOfExportAccepted(a: Case, b: Case, bytes: seq<byte>, name: string, version: string, h: Hashing,
                               timestamp: string -> bool)
    requires Hexadecimal(h)
    requires CaseOk(a, RustReading(RustWhite, timestamp)) && CaseOk(b, RustReading(RustWhite, timestamp))
    ensures var r := RustReading(RustWhite, timestamp);
            CaseOk(RoundTrip(a, b, bytes, name, version, h), r) <==>
              TextOk(name, 200, r) && TextOk(version, 200, r) && CollisionFree(a, b, bytes, h)
  {
    var r := RustReading(RustWhite, timestamp);
    var c := RoundTrip(a, b, bytes, name, version, h);
    FixedTexts(r);
    NewSourceOk(bytes, name, version, h, r);
    NewEvidenceOk(bytes, h, r);
    NewCandidatesOk(a, bytes, h, r);
    NewIntegrity(a, b, bytes, name, version, h);
    FieldsAppend(b, c, ImportedSource(bytes, name, version, h), ImportedEvidence(bytes, h),
                 ImportedCandidates(bytes, Results(Export(a)), h), r);
  }

  /** No bar in an identifier. */
  lemma IdHasNoBar(s: string, prefix: string)
    requires IdOk(s, prefix)
    ensures '|' !in s
  {
  }

  lemma OtherSources(b: Case, sourceId: string, r: Reading)
    requires CaseOk(b, r) && !Lists(b.sources, SourceIdOf, sourceId)
    ensures forall x :: x in b.candidates ==> '|' !in x.sourceId && x.sourceId != sourceId
  {
    forall x | x in b.candidates
      ensures '|' !in x.sourceId && x.sourceId != sourceId
    {
      assert CandidateLinked(x, b);
      var s :| s in b.sources && SourceIdOf(s) == x.sourceId;
      IdHasNoBar(s.sourceId, "sf_source_");
    }
  }

  lemma TextStart(sourceId: string, i: nat, title: string)
    ensures sourceId + "|" <= CandidateText(sourceId, i, title)
  {
  }

  lemma TextStarts(bytes: seq<byte>, results: seq<Json>, h: Hashing)
    ensures forall t :: t in ImportTexts(bytes, results, h) ==> IdOfBytes("sf_source_", bytes, h) + "|" <= t
  {
    var sourceId, texts := IdOfBytes("sf_source_", bytes, h), ImportTexts(bytes, results, h);
    forall t | t in texts
      ensures sourceId + "|" <= t
    {
      var i :| 0 <= i < |texts| && texts[i] == t;
      TextStart(sourceId, i, ResultTitle(results[i]));
    }
  }

  lemma NewTextsAreFree(b: Case, bytes: seq<byte>, results: seq<Json>, h: Hashing, r: Reading, texts: set<string>)
    requires Hexadecimal(h) && CaseOk(b, r) && CandidatesFrom(b.candidates, texts, h)
    requires !Lists(b.sources, SourceIdOf, IdOfBytes("sf_source_", bytes, h))
    requires Separates(h, texts + AsSet(ImportTexts(bytes, results, h)))
    ensures FreshTexts(b, ImportTexts(bytes, results, h), h) && Separates(h, AsSet(ImportTexts(bytes, results, h)))
  {
    var sourceId := IdOfBytes("sf_source_", bytes, h);
    DerivedIdOk("sf_source_", h.ofBytes(bytes));
    IdHasNoBar(sourceId, "sf_source_");
    OtherSources(b, sourceId, r);
    TextStarts(bytes, results, h);
    TextsAreFresh(b, texts, sourceId, ImportTexts(bytes, results, h), h);
  }

  /** In a case whose identifiers are derived, as the operations derive them, a document is free of collisions
      exactly when neither it nor its source is there, unless shortened digests of the inputs collide. */
  lemma NewDocumentIsFree(a: Case, b: Case, bytes: seq<byte>, h: Hashing, r: Reading, texts: set<string>,
                          documents: set<seq<byte>>)
    requires Hexadecimal(h) && CaseOk(b, r)
    requires CandidatesFrom(b.candidates, texts, h) && EvidenceFrom(b, documents, h)
    requires Separates(h, texts + AsSet(NewTexts(a, bytes, h)))
    requires SeparatesDocuments(h, documents + {bytes})
    ensures CollisionFree(a, b, bytes, h) <==>
              !Lists(b.sources, SourceIdOf, IdOfBytes("sf_source_", bytes, h)) && bytes !in documents
  {
    DocumentHeld(b, documents, bytes, h);
    if !Lists(b.sources, SourceIdOf, IdOfBytes("sf_source_", bytes, h)) {
      NewTextsAreFree(b, bytes, Results(Export(a)), h, r, texts);
    }
  }

  /** The round trip into any case that operations made: accepted exactly when the source's name and version
      are texts and the case does not hold the document or its source yet. */
  lemma ImportOfNewExportAccepted(a: Case, run: Run, cases: seq<Case>, ops: seq<Operation>, j: nat,
                                  bytes: seq<byte>, name: string, version: string, h: Hashing,
                                  timestamp: string -> bool)
    requires var r := RustReading(RustWhite, timestamp);
             CaseOk(a, r) && IsHistory(cases, ops, h, r) && cases[0] == Created(run, h) && j <= |ops|
    requires Hexadecimal(h)
    requires Separates(h, TextsUpTo(RunTexts(run, h), ops[..j], h) + AsSet(NewTexts(a, bytes, h)))
    requires SeparatesDocuments(h, DocumentsUpTo({run.bytes}, ops[..j]) + {bytes})
    ensures var r := RustReading(RustWhite, timestamp);
            CaseOk(RoundTrip(a, cases[j], bytes, name, version, h), r) <==>
              && TextOk(name, 200, r) && TextOk(version, 200, r)
              && !Lists(cases[j].sources, SourceIdOf, IdOfBytes("sf_source_", bytes, h))
              && bytes !in DocumentsUpTo({run.bytes}, ops[..j])
  {
    var r := RustReading(RustWhite, timestamp);
    HistoryGrows(cases, ops, h, r, j, j);
    HistoryNames(run, cases, ops, h, r, j);
    NewDocumentIsFree(a, cases[j], bytes, h, r, TextsUpTo(RunTexts(run, h), ops[..j], h),
                      DocumentsUpTo({run.bytes}, ops[..j]));
    ImportOfExportAccepted(a, cases[j], bytes, name, version, h, timestamp);
  }

  lemma FieldsAppend(b: Case, c: Case, source: Source, evidence: Evidence, added: seq<Candidate>, r: Reading)
    requires FieldsOk(b, r) && EvidenceFieldsOk(evidence, r) && forall x :: x in added ==> CandidateFieldsOk(x, r)
    requires c == b.(sources := b.sources + [source], evidence := b.evidence + [evidence],
                     candidates := b.candidates + added)
    ensures FieldsOk(c, r) <==> SourceFieldsOk(source, r)
  {
    assert source in c.sources;
  }
}
