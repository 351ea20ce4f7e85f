/** SARIF 2.1.0 in and out of a Security Case. */
module Sarif {
  import opened Bytes
  import opened Characters
  import opened Json
  import opened SecurityCase
  import opened Sequences
  import opened Wrappers

  const SARIF_VERSION := "2.1.0"
  const DEFAULT_TITLE := "external SARIF result"
  const METHODOLOGY := "SARIF 2.1.0 import; results remain external-tool candidates"
  const RETAINED := "retained imported SARIF document"
  const LIMITATION := "Imported tool result is unvalidated and does not establish a vulnerability."

  /** SHA-256 in lower-case hexadecimal, of a document and of a text. */
  datatype Hashing = Hashing(ofBytes: seq<byte> -> string, ofText: string -> string)

  ghost predicate Hexadecimal(h: Hashing) {
    && (forall bytes :: ShaOk(h.ofBytes(bytes)))
    && (forall text :: ShaOk(h.ofText(text)))
  }

  function First32(digest: string): (r: string)
    ensures r <= digest && (|digest| >= 32 ==> |r| == 32)
  {
    if |digest| >= 32 then digest[..32] else digest
  }

  function IdOfBytes(prefix: string, bytes: seq<byte>, h: Hashing): string {
    prefix + First32(h.ofBytes(bytes))
  }

  function IdOfText(prefix: string, text: string, h: Hashing): string {
    prefix + First32(h.ofText(text))
  }

  function Digits(n: nat): string {
    seq(|Decimal(n)|, i requires 0 <= i < |Decimal(n)| => Decimal(n)[i] as char)
  }

  // ---------------------------------------------------------------- reading

  /** The `results` of every run, in document order; anything that is not an array counts as none. */
  function Results(doc: Json): seq<Json> {
    match doc.Get("runs")
    case Some(Array(runs)) => RunResults(runs)
    case _ => []
  }

  function RunResults(runs: seq<Json>): seq<Json> {
    if runs == [] then []
    else (match runs[0].Get("results") case Some(Array(items)) => items case _ => []) + RunResults(runs[1..])
  }

  // ---------------------------------------------------------------- what is read, spelled out

  /** The items of one run's `results`, if it has such an array. */
  ghost predicate RunHas(run: Json, items: seq<Json>) {
    run.Object? && "results" in run.members && run.members["results"] == Array(items)
  }

  ghost predicate DocumentHas(doc: Json, runs: seq<Json>) {
    doc.Object? && "runs" in doc.members && doc.members["runs"] == Array(runs)
  }

  lemma {:induction false} RunsInOrder(a: seq<Json>, b: seq<Json>)
    ensures RunResults(a + b) == RunResults(a) + RunResults(b)
  {
    if a == [] {
      assert a + b == b;
    } else {
      RunsInOrder(a[1..], b);
      assert (a + b)[0] == a[0] && (a + b)[1..] == a[1..] + b;
      OneRun(a[0], a[1..] + b);
      OneRun(a[0], a[1..]);
      assert a == [a[0]] + a[1..] && a + b == [a[0]] + (a[1..] + b);
      ConcatAssociates(RunResults([a[0]]), RunResults(a[1..]), RunResults(b));
    }
  }

  lemma OneRun(run: Json, rest: seq<Json>)
    ensures RunResults([run] + rest) == RunResults([run]) + RunResults(rest)
    ensures forall items :: RunHas(run, items) ==> RunResults([run]) == items
    ensures (forall items :: !RunHas(run, items)) ==> RunResults([run]) == []
  {
    assert ([run] + rest)[1..] == rest && [run][1..] == [];
    assert [run] + [] == [run];
    if run.Object? && "results" in run.members && run.members["results"].Array? {
      assert RunHas(run, run.members["results"].items);
    }
  }

  /** No run is skipped: each result of each run is read, after those of the runs before it. */
  lemma EveryResultRead(doc: Json, runs: seq<Json>, k: nat, items: seq<Json>, i: nat)
    requires DocumentHas(doc, runs) && k < |runs| && RunHas(runs[k], items) && i < |items|
    ensures |RunResults(runs[..k])| + i < |Results(doc)|
    ensures Results(doc)[|RunResults(runs[..k])| + i] == items[i]
  {
    RunsInOrder(runs[..k], runs[k..]);
    assert runs == runs[..k] + runs[k..] && runs[k..] == [runs[k]] + runs[k + 1..];
    OneRun(runs[k], runs[k + 1..]);
  }

  lemma {:induction false} OnlyResultsRead(runs: seq<Json>, x: Json)
    requires x in RunResults(runs)
    ensures exists k, items :: 0 <= k < |runs| && RunHas(runs[k], items) && x in items
  {
    assert runs == [runs[0]] + runs[1..];
    OneRun(runs[0], runs[1..]);
    if x in RunResults([runs[0]]) {
      assert RunHas(runs[0], RunResults([runs[0]]));
    } else {
      OnlyResultsRead(runs[1..], x);
      var k, items :| 0 <= k < |runs[1..]| && RunHas(runs[1..][k], items) && x in items;
      assert RunHas(runs[k + 1], items);
    }
  }

  ghost predicate HasMessage(result: Json, text: string) {
    && result.Object? && "message" in result.members && result.members["message"].Object?
    && "text" in result.members["message"].members && result.members["message"].members["text"] == Text(text)
  }

  ghost predicate HasLevel(result: Json, level: string) {
    result.Object? && "level" in result.members && result.members["level"] == Text(level)
  }

  /** The result's own message, or the fixed title when it has none; its own level, or none. */
  ghost predicate Describes(x: Candidate, result: Json) {
    && (forall text :: HasMessage(result, text) ==> x.title == text)
    && ((forall text :: !HasMessage(result, text)) ==> x.title == "external SARIF result")
    && (forall level :: HasLevel(result, level) ==> x.severity == Some(level))
    && ((forall level :: !HasLevel(result, level)) ==> x.severity == None)
  }

  lemma ImportedDescribes(bytes: seq<byte>, result: Json, count: nat, h: Hashing)
    ensures Describes(ImportedCandidate(bytes, result, count, h), result)
  {
    if result.Get("message").Some? && result.Get("message").value.Get("text").Some? {
      var text := result.Get("message").value.Get("text").value;
      assert text.Text? ==> HasMessage(result, text.text);
    }
    if result.Get("level").Some? && result.Get("level").value.Text? {
      assert HasLevel(result, result.Get("level").value.text);
    }
  }

  function ResultTitle(result: Json): string {
    match result.Get("message")
    case Some(message) => (match message.Get("text") case Some(Text(t)) => t case _ => DEFAULT_TITLE)
    case None => DEFAULT_TITLE
  }

  function ResultLevel(result: Json): Option<string> {
    match result.Get("level")
    case Some(Text(t)) => Some(t)
    case _ => None
  }

  predicate IsSarif(doc: Json) {
    doc.Get("version") == Some(Text(SARIF_VERSION))
  }

  // ---------------------------------------------------------------- importing

  function ImportedSource(bytes: seq<byte>, name: string, version: string, h: Hashing): Source {
    Source(IdOfBytes("sf_source_", bytes, h), ExternalSarif, name, version, h.ofBytes(bytes), Some(METHODOLOGY))
  }

  function ImportedEvidence(bytes: seq<byte>, h: Hashing): Evidence {
    Evidence(IdOfBytes("sf_evidence_", bytes, h), IdOfBytes("sf_source_", bytes, h), h.ofBytes(bytes), RETAINED, None)
  }

  /** What a candidate's identifier is derived from. */
  function CandidateText(sourceId: string, count: nat, title: string): string {
    sourceId + "|" + Digits(count) + "|" + title
  }

  function ImportTexts(bytes: seq<byte>, results: seq<Json>, h: Hashing): (r: seq<string>)
    ensures |r| == |results|
  {
    seq(|results|, i requires 0 <= i < |results| =>
      CandidateText(IdOfBytes("sf_source_", bytes, h), i, ResultTitle(results[i])))
  }

  function ImportedCandidate(bytes: seq<byte>, result: Json, count: nat, h: Hashing): Candidate {
    var sourceId := IdOfBytes("sf_source_", bytes, h);
    Candidate(IdOfText("sf_candidate_", CandidateText(sourceId, count, ResultTitle(result)), h),
              sourceId, ExternalToolCandidate, ResultTitle(result), ResultLevel(result), "unknown",
              [IdOfBytes("sf_evidence_", bytes, h)], [LIMITATION])
  }

  function ImportedCandidates(bytes: seq<byte>, results: seq<Json>, h: Hashing): (r: seq<Candidate>)
    ensures |r| == |results|
    ensures forall i :: 0 <= i < |r| ==> r[i] == ImportedCandidate(bytes, results[i], i, h)
  {
    seq(|results|, i requires 0 <= i < |results| => ImportedCandidate(bytes, results[i], i, h))
  }

  /** The case with the document's source, evidence and candidates appended. */
  function Imported(c: Case, bytes: seq<byte>, doc: Json, name: string, version: string, h: Hashing): Case {
    c.(sources := c.sources + [ImportedSource(bytes, name, version, h)],
       evidence := c.evidence + [ImportedEvidence(bytes, h)],
       candidates := c.candidates + ImportedCandidates(bytes, Results(doc), h))
  }

  // ---------------------------------------------------------------- exporting

  function ClassName(class_: CandidateClass): string {
    match class_
    case EngineCandidate => "EngineCandidate"
    case ContextualCandidate => "ContextualCandidate"
    case ExternalToolCandidate => "ExternalToolCandidate"
  }

  function VerdictName(verdict: Verdict): string {
    match verdict
    case Validated => "Validated"
    case Rejected => "Rejected"
    case Abstained => "Abstained"
  }

  /** The first decision on a candidate, or `pending`. */
  function DecisionName(decisions: seq<Decision>, candidateId: string): string {
    if decisions == [] then "pending"
    else if decisions[0].candidateId == candidateId then VerdictName(decisions[0].verdict)
    else DecisionName(decisions[1..], candidateId)
  }

  function ExportedResult(x: Candidate, decisions: seq<Decision>): Json {
    Object(map[
      "ruleId" := Text(x.sourceId),
      "level" := Text(if x.severity.Some? then x.severity.value else "note"),
      "message" := Object(map["text" := Text(x.title)]),
      "properties" := Object(map[
        "secureflow_candidate_id" := Text(x.candidateId),
        "candidate_class" := Text(ClassName(x.class_)),
        "human_decision" := Text(DecisionName(decisions, x.candidateId)),
        "not_a_vulnerability_verdict" := Bool(true)])])
  }

  function ExportedResults(c: Case): (r: seq<Json>)
    ensures |r| == |c.candidates|
  {
    seq(|c.candidates|, i requires 0 <= i < |c.candidates| => ExportedResult(c.candidates[i], c.decisions))
  }

  function Export(c: Case): Json {
    Object(map[
      "version" := Text(SARIF_VERSION),
      "$schema" := Text("https://json.schemastore.org/sarif-2.1.0.json"),
      "runs" := Array([Object(map[
        "tool" := Object(map["driver" := Object(map[
          "name" := Text("SecureFlow"),
          "informationUri" := Text("https://github.com/danielcadev/secureflow")])]),
        "results" := Array(ExportedResults(c))])])])
  }
}
