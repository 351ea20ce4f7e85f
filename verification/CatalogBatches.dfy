/** The size-bounded batching loops of the three catalog imports. */
module CatalogBatches {
  import opened Bytes
  import opened Sequences

  const BATCH_RECORDS: nat := 50_000
  const BATCH_BYTES: nat := 64 * 1024 * 1024
  const MAX_RECORD_BYTES: nat := 4 * 1024 * 1024

  datatype Record = Record(sourceName: string, bytes: Buffer)

  type Batch = seq<Record>

  function Size(batch: Batch): nat {
    if batch == [] then 0 else Size(batch[..|batch| - 1]) + |batch[|batch| - 1].bytes|
  }

  /** When the loop flushes. The running byte count saturates, which never hides a full batch. */
  predicate Full(batch: Batch) {
    |batch| >= BATCH_RECORDS || Size(batch) >= BATCH_BYTES
  }

  function Flatten(batches: seq<Batch>): seq<Record> {
    if batches == [] then [] else Flatten(batches[..|batches| - 1]) + batches[|batches| - 1]
  }

  /** A batch that was not full before its last record came in. */
  predicate Minimal(batch: Batch) {
    batch != [] && !Full(batch[..|batch| - 1])
  }

  /** What a bounded read of one record file accepts. */
  predicate Readable(record: Record) {
    1 <= |record.bytes| <= MAX_RECORD_BYTES
  }

  /** What one flushed batch may weigh. */
  predicate Bounded(batch: Batch) {
    1 <= |batch| <= BATCH_RECORDS && Size(batch) < BATCH_BYTES + MAX_RECORD_BYTES
  }

  /** Cutting as soon as the batch is full keeps it within both bounds. */
  lemma MinimalBounds(batch: Batch)
    requires Minimal(batch) && Readable(batch[|batch| - 1])
    ensures Bounded(batch)
  {
  }

  lemma FlattenSnoc(batches: seq<Batch>, batch: Batch)
    ensures Flatten(batches + [batch]) == Flatten(batches) + batch
  {
    assert (batches + [batch])[..|batches|] == batches;
  }

  /** The catalog as a log of the batches it was given; an import may fail and then records nothing here. */
  class Catalog {
    var batches: seq<Batch>

    constructor ()
      ensures batches == []
    {
      batches := [];
    }

    method Import(batch: Batch) returns (ok: bool)
      modifies this
      ensures batches == if ok then old(batches) + [batch] else old(batches)
    {
      ok := *;
      if ok {
        batches := batches + [batch];
      }
    }
  }

  /** The flushed batches of one loop: all minimal, all but the last full. */
  ghost predicate WellCut(batches: seq<Batch>) {
    && (forall b :: b in batches ==> Minimal(b))
    && forall i :: 0 <= i < |batches| - 1 ==> Full(batches[i])
  }

  ghost predicate AllBounded(batches: seq<Batch>) {
    forall b :: b in batches ==> Bounded(b)
  }

  /** What an import may have handed over when it stops after reading `done`. */
  ghost predicate Handed(flushed: seq<Batch>, done: seq<Record>) {
    WellCut(flushed) && AllBounded(flushed) && Flatten(flushed) == done
  }

  ghost predicate HandedPart(flushed: seq<Batch>, all: seq<Record>) {
    WellCut(flushed) && AllBounded(flushed) && Flatten(flushed) <= all
  }

  ghost predicate AllReadable(records: seq<Record>) {
    forall r :: r in records ==> Readable(r)
  }

  /** Where the loop stands: full batches flushed, the rest still open. */
  ghost predicate Running(flushed: seq<Batch>, open: Batch, done: seq<Record>) {
    && (forall b :: b in flushed ==> Minimal(b) && Full(b))
    && AllBounded(flushed)
    && !Full(open)
    && Flatten(flushed) + open == done
    && AllReadable(done)
  }

  lemma OpenIsMinimal(open: Batch)
    requires open != [] && !Full(open)
    ensures Minimal(open)
  {
    var n := |open| - 1;
    assert Size(open) == Size(open[..n]) + |open[n].bytes|;
  }

  lemma AddRecord(flushed: seq<Batch>, open: Batch, done: seq<Record>, record: Record)
    requires Running(flushed, open, done) && Readable(record)
    ensures Size(open + [record]) == Size(open) + |record.bytes|
    ensures Full(open + [record]) ==> Running(flushed + [open + [record]], [], done + [record])
    ensures !Full(open + [record]) ==> Running(flushed, open + [record], done + [record])
  {
    var longer := open + [record];
    assert longer[..|open|] == open;
    assert Flatten(flushed) + longer == done + [record];
    if Full(longer) {
      MinimalBounds(longer);
      FlattenSnoc(flushed, longer);
      assert Flatten(flushed + [longer]) + [] == done + [record];
    }
  }

  lemma FinishRun(flushed: seq<Batch>, open: Batch, done: seq<Record>)
    requires Running(flushed, open, done)
    ensures HandedPart(flushed, done)
    ensures open == [] ==> Handed(flushed, done)
    ensures open != [] ==> Handed(flushed + [open], done)
  {
    if open != [] {
      OpenIsMinimal(open);
      assert open[|open| - 1] == done[|done| - 1];
      MinimalBounds(open);
      FlattenSnoc(flushed, open);
    }
  }

  lemma StopsEarly(flushed: seq<Batch>, done: seq<Record>, all: seq<Record>)
    requires HandedPart(flushed, done) && done <= all
    ensures HandedPart(flushed, all)
  {
  }

  /** One loop over some records: read, add, flush when full, flush the rest at the end. */
  method ImportBatches(catalog: Catalog, records: seq<Record>) returns (ok: bool, ghost flushed: seq<Batch>)
    modifies catalog
    ensures catalog.batches == old(catalog.batches) + flushed
    ensures ok ==> Handed(flushed, records) && AllReadable(records)
    ensures !ok ==> HandedPart(flushed, records)
    // Spelled out: between one and 50 000 records in fewer than 64 MiB and one record, cut where either is reached.
    ensures forall b :: b in flushed ==>
              1 <= |b| <= 50000 && Size(b) < 67108864 + 4194304
              && |b[..|b| - 1]| < 50000 && Size(b[..|b| - 1]) < 67108864
    ensures forall i :: 0 <= i < |flushed| - 1 ==> |flushed[i]| >= 50000 || Size(flushed[i]) >= 67108864
    ensures ok ==> forall r :: r in records ==> 1 <= |r.bytes| <= 4194304
  {
    ok, flushed := FlushBatches(catalog, records);
  }

  method FlushBatches(catalog: Catalog, records: seq<Record>) returns (ok: bool, ghost flushed: seq<Batch>)
    modifies catalog
    ensures catalog.batches == old(catalog.batches) + flushed
    ensures ok ==> Handed(flushed, records) && AllReadable(records)
    ensures !ok ==> HandedPart(flushed, records)
  {
    flushed := [];
    var batch: Batch := [];
    var batchBytes: u64 := 0;
    var next := 0;
    while next < |records|
      invariant next <= |records|
      invariant catalog.batches == old(catalog.batches) + flushed
      invariant Running(flushed, batch, records[..next]) && batchBytes == Size(batch)
    {
      FinishRun(flushed, batch, records[..next]);
      StopsEarly(flushed, records[..next], records);
      var read: bool := *;
      if !read || !Readable(records[next]) {
        return false, flushed;
      }
      batchBytes, batch, flushed, ok := TakeRecord(catalog, batchBytes, batch, records[next], records[..next], flushed);
      if !ok {
        return;
      }
      assert records[..next + 1] == records[..next] + [records[next]];
      next := next + 1;
    }
    assert records[..|records|] == records;
    FinishRun(flushed, batch, records);
    if batch != [] {
      var imported := catalog.Import(batch);
      if !imported {
        return false, flushed;
      }
      flushed := flushed + [batch];
    }
    ok := true;
  }

  /** The loop's body after the read: the record joins the batch, and a full batch is flushed. */
  method TakeRecord(
      catalog: Catalog, batchBytes: u64, batch: Batch, record: Record, ghost done: seq<Record>,
      ghost flushed: seq<Batch>)
    returns (newBytes: u64, newBatch: Batch, ghost newFlushed: seq<Batch>, ok: bool)
    requires Running(flushed, batch, done) && Readable(record) && batchBytes == Size(batch)
    modifies catalog
    ensures ok ==> Running(newFlushed, newBatch, done + [record]) && newBytes == Size(newBatch)
    ensures ok ==> flushed <= newFlushed && catalog.batches == old(catalog.batches) + newFlushed[|flushed|..]
    ensures !ok ==> newFlushed == flushed && catalog.batches == old(catalog.batches)
  {
    AddRecord(flushed, batch, done, record);
    newBytes := SaturatingAdd(batchBytes, |record.bytes|);
    newBatch := batch + [record];
    newFlushed := flushed;
    ok := true;
    if |newBatch| >= BATCH_RECORDS || newBytes >= BATCH_BYTES {
      ok := catalog.Import(newBatch);
      if ok {
        newFlushed := flushed + [newBatch];
        newBatch, newBytes := [], 0;
      }
    }
  }

  // ---------------------------------------------------------------- the cut is determined

  lemma {:induction false} FlattenCons(batch: Batch, batches: seq<Batch>)
    ensures Flatten([batch] + batches) == batch + Flatten(batches)
  {
    if batches == [] {
      assert [batch] + batches == [batch] && [batch][..0] == [];
    } else {
      var n := |batches| - 1;
      FlattenCons(batch, batches[..n]);
      assert ([batch] + batches)[..n + 1] == [batch] + batches[..n];
    }
  }

  lemma {:induction false} SizeMonotone(batch: Batch, n: nat)
    requires n <= |batch|
    ensures Size(batch[..n]) <= Size(batch)
  {
    if n == |batch| {
      assert batch[..n] == batch;
    } else {
      var shorter := batch[..|batch| - 1];
      SizeMonotone(shorter, n);
      assert shorter[..n] == batch[..n];
      assert Size(batch) == Size(shorter) + |batch[|batch| - 1].bytes|;
    }
  }

  /** No proper prefix of a minimal batch is full. */
  lemma NoEarlierCut(batch: Batch, n: nat)
    requires Minimal(batch) && n < |batch|
    ensures !Full(batch[..n])
  {
    var shorter := batch[..|batch| - 1];
    SizeMonotone(shorter, n);
    assert shorter[..n] == batch[..n];
  }

  lemma {:induction false} MinimalNonEmpty(batches: seq<Batch>)
    requires forall b :: b in batches ==> Minimal(b)
    ensures Flatten(batches) == [] ==> batches == []
  {
    if batches != [] {
      assert batches[|batches| - 1] in batches;
    }
  }

  /** Only one sequence of batches can come out of given records. */
  lemma {:induction false} CutIsDetermined(a: seq<Batch>, b: seq<Batch>)
    requires WellCut(a) && WellCut(b) && Flatten(a) == Flatten(b)
    ensures a == b
    decreases |a|
  {
    MinimalNonEmpty(a);
    MinimalNonEmpty(b);
    if a != [] && b != [] {
      FlattenCons(a[0], a[1..]);
      FlattenCons(b[0], b[1..]);
      assert a == [a[0]] + a[1..] && b == [b[0]] + b[1..];
      FirstBatchesEqual(a, b);
      assert Flatten(a[1..]) == Flatten(a)[|a[0]|..] == Flatten(b)[|b[0]|..] == Flatten(b[1..]);
      assert forall i :: 0 <= i < |a[1..]| ==> a[1..][i] == a[i + 1];
      assert forall i :: 0 <= i < |b[1..]| ==> b[1..][i] == b[i + 1];
      CutIsDetermined(a[1..], b[1..]);
    }
  }

  lemma FirstBatchesEqual(a: seq<Batch>, b: seq<Batch>)
    requires WellCut(a) && WellCut(b) && a != [] && b != []
    requires a[0] + Flatten(a[1..]) == b[0] + Flatten(b[1..])
    ensures a[0] == b[0]
  {
    assert a[0] in a && b[0] in b;
    FirstNotShorter(a, b);
    FirstNotShorter(b, a);
    var all := a[0] + Flatten(a[1..]);
    assert a[0] == all[..|a[0]|] && b[0] == all[..|b[0]|];
  }

  /** The first batch ends the records or is full, so another cut of them cannot start with a longer one. */
  lemma FirstNotShorter(a: seq<Batch>, b: seq<Batch>)
    requires WellCut(a) && WellCut(b) && a != [] && b != []
    requires a[0] + Flatten(a[1..]) == b[0] + Flatten(b[1..])
    ensures |b[0]| <= |a[0]|
  {
    var all := b[0] + Flatten(b[1..]);
    assert b[0] in b;
    if |a| == 1 {
      assert all == a[0];
      assert |all| == |b[0]| + |Flatten(b[1..])|;
    } else if |a[0]| < |b[0]| {
      assert all[..|a[0]|] == b[0][..|a[0]|];
      NoEarlierCut(b[0], |a[0]|);
    }
  }

  // ---------------------------------------------------------------- by source

  function OfSource(records: seq<Record>, name: string): seq<Record> {
    if records == [] then []
    else OfSource(records[..|records| - 1], name)
         + if records[|records| - 1].sourceName == name then [records[|records| - 1]] else []
  }

  /** What the snapshot and delta imports hand over: source by source, each source's records in order. */
  function BySource(sources: seq<string>, records: seq<Record>): seq<Record> {
    if sources == [] then []
    else BySource(sources[..|sources| - 1], records) + OfSource(records, sources[|sources| - 1])
  }

  lemma {:induction false} FlattenConcat(a: seq<Batch>, b: seq<Batch>)
    ensures Flatten(a + b) == Flatten(a) + Flatten(b)
  {
    if b == [] {
      assert a + b == a;
    } else {
      var n := |b| - 1;
      FlattenConcat(a, b[..n]);
      assert (a + b)[..|a| + n] == a + b[..n];
    }
  }

  ghost predicate SingleSource(batch: Batch) {
    forall i, j :: 0 <= i < j < |batch| ==> batch[i].sourceName == batch[j].sourceName
  }

  lemma {:induction false} OfSourceNames(records: seq<Record>, name: string)
    ensures forall r :: r in OfSource(records, name) ==> r.sourceName == name
  {
    if records != [] {
      OfSourceNames(records[..|records| - 1], name);
    }
  }

  lemma {:induction false} BatchWithin(batches: seq<Batch>, batch: Batch, r: Record)
    requires batch in batches && r in batch
    ensures r in Flatten(batches)
  {
    var n := |batches| - 1;
    if batch != batches[n] {
      assert batch in batches[..n];
      BatchWithin(batches[..n], batch, r);
    }
  }

  lemma SourceBatches(records: seq<Record>, name: string, cut: seq<Batch>)
    requires Flatten(cut) <= OfSource(records, name)
    ensures forall b :: b in cut ==> SingleSource(b)
  {
    OfSourceNames(records, name);
    forall b: Batch, i | b in cut && 0 <= i < |b|
      ensures b[i].sourceName == name
    {
      BatchWithin(cut, b, b[i]);
    }
  }

  lemma BySourceSnoc(sources: seq<string>, records: seq<Record>, i: nat)
    requires i < |sources|
    ensures BySource(sources[..i + 1], records) == BySource(sources[..i], records) + OfSource(records, sources[i])
  {
    assert sources[..i + 1][..i] == sources[..i];
  }

  lemma {:induction false} BySourcePrefix(sources: seq<string>, records: seq<Record>, i: nat)
    requires i <= |sources|
    ensures BySource(sources[..i], records) <= BySource(sources, records)
  {
    if i == |sources| {
      assert sources[..i] == sources;
    } else {
      BySourcePrefix(sources[..|sources| - 1], records, i);
      assert sources[..|sources| - 1][..i] == sources[..i];
    }
  }

  /** What the outer loop has flushed so far. */
  ghost predicate Acceptable(flushed: seq<Batch>) {
    forall b :: b in flushed ==> Bounded(b) && SingleSource(b)
  }

  lemma NextSource(
      sources: seq<string>, records: seq<Record>, i: nat, flushed: seq<Batch>, cut: seq<Batch>)
    requires i < |sources| && Acceptable(flushed) && Flatten(flushed) == BySource(sources[..i], records)
    requires AllBounded(cut) && Flatten(cut) <= OfSource(records, sources[i])
    ensures Acceptable(flushed + cut)
    ensures Flatten(flushed + cut) == Flatten(flushed) + Flatten(cut) <= BySource(sources, records)
    ensures Flatten(cut) == OfSource(records, sources[i]) ==>
              Flatten(flushed + cut) == BySource(sources[..i + 1], records)
  {
    FlattenConcat(flushed, cut);
    SourceBatches(records, sources[i], cut);
    BySourceSnoc(sources, records, i);
    BySourcePrefix(sources, records, i + 1);
  }

  method FlushSources(catalog: Catalog, sources: seq<string>, records: seq<Record>)
    returns (ok: bool, ghost flushed: seq<Batch>)
    modifies catalog
    ensures catalog.batches == old(catalog.batches) + flushed && Acceptable(flushed)
    ensures ok ==> Flatten(flushed) == BySource(sources, records)
    ensures !ok ==> Flatten(flushed) <= BySource(sources, records)
  {
    flushed := [];
    for i := 0 to |sources|
      invariant catalog.batches == old(catalog.batches) + flushed && Acceptable(flushed)
      invariant Flatten(flushed) == BySource(sources[..i], records)
    {
      var selected := SelectSource(records, sources[i]);
      ghost var cut: seq<Batch>;
      ok, cut := FlushBatches(catalog, selected);
      NextSource(sources, records, i, flushed, cut);
      ConcatAssociates(old(catalog.batches), flushed, cut);
      flushed := flushed + cut;
      if ok {
        // Completing a source checks its record count and may fail.
        ok := *;
      }
      if !ok {
        return;
      }
    }
    assert sources[..|sources|] == sources;
    ok := true;
  }

  lemma AcceptableMeaning(flushed: seq<Batch>)
    ensures Acceptable(flushed) <==>
              forall b: Batch :: b in flushed ==>
                1 <= |b| <= 50000 && Size(b) < 67108864 + 4194304
                && forall i, j :: 0 <= i < |b| && 0 <= j < |b| ==> b[i].sourceName == b[j].sourceName
  {
    forall b: Batch | b in flushed
      ensures SingleSource(b) <==>
                forall i, j :: 0 <= i < |b| && 0 <= j < |b| ==> b[i].sourceName == b[j].sourceName
    {
    }
  }

  /** The outer loop of the snapshot and delta imports: no batch mixes sources. */
  method ImportBySource(catalog: Catalog, sources: seq<string>, records: seq<Record>)
    returns (ok: bool, ghost flushed: seq<Batch>)
    modifies catalog
    ensures catalog.batches == old(catalog.batches) + flushed && Acceptable(flushed)
    ensures ok ==> Flatten(flushed) == BySource(sources, records)
    ensures !ok ==> Flatten(flushed) <= BySource(sources, records)
    // Spelled out: bounded batches of one source each.
    ensures forall b: Batch :: b in flushed ==>
              1 <= |b| <= 50000 && Size(b) < 67108864 + 4194304
              && forall i, j :: 0 <= i < |b| && 0 <= j < |b| ==> b[i].sourceName == b[j].sourceName
  {
    ok, flushed := FlushSources(catalog, sources, records);
    AcceptableMeaning(flushed);
  }

  method SelectSource(records: seq<Record>, name: string) returns (selected: seq<Record>)
    ensures selected == OfSource(records, name)
  {
    selected := [];
    for i := 0 to |records|
      invariant selected == OfSource(records[..i], name)
    {
      assert records[..i + 1][..i] == records[..i];
      if records[i].sourceName == name {
        selected := selected + [records[i]];
      }
    }
    assert records[..|records|] == records;
  }

  /** How often a value occurs. */
  function Count<T(==)>(s: seq<T>, x: T): nat {
    if s == [] then 0 else Count(s[..|s| - 1], x) + if s[|s| - 1] == x then 1 else 0
  }

  lemma {:induction false} CountConcat<T>(a: seq<T>, b: seq<T>, x: T)
    ensures Count(a + b, x) == Count(a, x) + Count(b, x)
  {
    if b == [] {
      assert a + b == a;
    } else {
      CountConcat(a, b[..|b| - 1], x);
      assert (a + b)[..|a| + |b| - 1] == a + b[..|b| - 1];
    }
  }

  lemma {:induction false} CountPositive<T>(s: seq<T>, x: T)
    ensures Count(s, x) > 0 <==> x in s
  {
    if s != [] {
      CountPositive(s[..|s| - 1], x);
      assert s == s[..|s| - 1] + [s[|s| - 1]];
    }
  }

  lemma {:induction false} OfSourceCount(records: seq<Record>, name: string, r: Record)
    ensures Count(OfSource(records, name), r) == if r.sourceName == name then Count(records, r) else 0
  {
    if records != [] {
      var n := |records| - 1;
      OfSourceCount(records[..n], name, r);
      var last := if records[n].sourceName == name then [records[n]] else [];
      CountConcat(OfSource(records[..n], name), last, r);
      assert [records[n]][..0] == [];
    }
  }

  /** The records of a source are picked in their own order, and none is left out. */
  lemma {:induction false} OfSourceInOrder(records: seq<Record>, name: string) returns (places: seq<nat>)
    ensures |places| == |OfSource(records, name)|
    ensures forall k :: 0 <= k < |places| ==> places[k] < |records| && OfSource(records, name)[k] == records[places[k]]
    ensures forall k, m :: 0 <= k < m < |places| ==> places[k] < places[m]
    ensures forall i :: 0 <= i < |records| ==> (records[i].sourceName == name <==> i in places)
  {
    places := [];
    if records != [] {
      var n := |records| - 1;
      places := OfSourceInOrder(records[..n], name);
      if records[n].sourceName == name {
        places := places + [n];
      }
    }
  }

  /** Source by source: each source's records stand between those of the sources before and after it. */
  lemma {:induction false} BySourceBlocks(sources: seq<string>, records: seq<Record>, i: nat)
    requires i < |sources|
    ensures BySource(sources, records) ==
            BySource(sources[..i], records) + OfSource(records, sources[i]) + BySource(sources[i + 1..], records)
  {
    var n := |sources| - 1;
    if i == n {
      assert sources[i + 1..] == [];
    } else {
      BySourceBlocks(sources[..n], records, i);
      var rest := sources[i + 1..];
      assert sources[..n][..i] == sources[..i] && sources[..n][i + 1..] == rest[..|rest| - 1];
      assert rest[|rest| - 1] == sources[n];
      ConcatAssociates(BySource(sources[..i], records) + OfSource(records, sources[i]),
                       BySource(rest[..|rest| - 1], records), OfSource(records, sources[n]));
    }
  }

  lemma NextMultiple(listed: nat, count: nat)
    ensures (listed + 1) * count == listed * count + count
  {
  }

  /** Each record is imported once for every time its source is listed. */
  lemma {:induction false} ImportedOncePerListing(sources: seq<string>, records: seq<Record>, r: Record)
    ensures Count(BySource(sources, records), r) == Count(sources, r.sourceName) * Count(records, r)
  {
    if sources != [] {
      var n := |sources| - 1;
      ImportedOncePerListing(sources[..n], records, r);
      OfSourceCount(records, sources[n], r);
      CountConcat(BySource(sources[..n], records), OfSource(records, sources[n]), r);
      NextMultiple(Count(sources[..n], r.sourceName), Count(records, r));
    }
  }

  ghost predicate EachOnce(sources: seq<string>, records: seq<Record>) {
    forall r :: Count(BySource(sources, records), r) == Count(records, r)
  }

  lemma OnlyOne(listed: nat, count: nat)
    requires count > 0
    ensures listed * count == count <==> listed == 1
  {
    if listed > 1 {
      assert listed * count >= 2 * count;
    }
  }

  lemma RecordOnce(sources: seq<string>, records: seq<Record>, r: Record)
    ensures Count(BySource(sources, records), r) == Count(records, r) <==>
              (r in records ==> Count(sources, r.sourceName) == 1)
  {
    ImportedOncePerListing(sources, records, r);
    CountPositive(records, r);
    if r in records {
      OnlyOne(Count(sources, r.sourceName), Count(records, r));
    }
  }

  /** The import hands over every record exactly once exactly when every record's source is listed exactly once. */
  lemma ImportedExactlyOnce(sources: seq<string>, records: seq<Record>)
    ensures EachOnce(sources, records) <==> forall r :: r in records ==> Count(sources, r.sourceName) == 1
  {
    forall r: Record
      ensures Count(BySource(sources, records), r) == Count(records, r) <==>
                (r in records ==> Count(sources, r.sourceName) == 1)
    {
      RecordOnce(sources, records, r);
    }
  }

  // ---------------------------------------------------------------- accepted manifests

  /** A source as a snapshot or delta manifest declares it. */
  datatype SourceEntry = SourceEntry(name: string, recordCount: nat)

  function Names(sources: seq<SourceEntry>): (names: seq<string>)
    ensures |names| == |sources|
    ensures forall i :: 0 <= i < |names| ==> names[i] == sources[i].name
  {
    seq(|sources|, i requires 0 <= i < |sources| => sources[i].name)
  }

  predicate DistinctNames(sources: seq<SourceEntry>) {
    forall i, j :: 0 <= i < j < |sources| ==> sources[i].name != sources[j].name
  }

  /** How many records claim a source. */
  function ClaimedBy(records: seq<Record>, name: string): nat {
    if records == [] then 0
    else ClaimedBy(records[..|records| - 1], name) + if records[|records| - 1].sourceName == name then 1 else 0
  }

  /** What the two loaders demand of sources and records before anything is imported. */
  ghost predicate ManifestOk(sources: seq<SourceEntry>, records: seq<Record>) {
    && DistinctNames(sources)
    && (forall r :: r in records ==> Readable(r) && exists s :: s in sources && s.name == r.sourceName)
    && (forall s :: s in sources ==> ClaimedBy(records, s.name) == s.recordCount)
  }

  ghost predicate IsNameSet(names: set<string>, sources: seq<SourceEntry>) {
    forall n :: n in names <==> exists s :: s in sources && s.name == n
  }

  /** The set of all names is as large as the list exactly when no name repeats. */
  method CollectNames(sources: seq<SourceEntry>) returns (names: set<string>)
    ensures IsNameSet(names, sources)
    ensures |names| == |sources| <==> DistinctNames(sources)
  {
    names := {};
    assert sources[..0] == [];
    for i := 0 to |sources|
      invariant NamesScanned(names, sources[..i])
    {
      ScanName(names, sources, i);
      names := names + {sources[i].name};
    }
    assert sources[..|sources|] == sources;
  }

  /** The names seen so far, with a full count as long as none repeated. */
  ghost predicate NamesScanned(names: set<string>, sources: seq<SourceEntry>) {
    IsNameSet(names, sources) && |names| <= |sources| && (|names| == |sources| <==> DistinctNames(sources))
  }

  lemma ScanName(names: set<string>, sources: seq<SourceEntry>, i: nat)
    requires i < |sources| && NamesScanned(names, sources[..i])
    ensures NamesScanned(names + {sources[i].name}, sources[..i + 1])
  {
    NamesNext(names, sources, i);
    assert |sources[..i]| == i && |sources[..i + 1]| == i + 1;
  }

  lemma NamesNext(names: set<string>, sources: seq<SourceEntry>, i: nat)
    requires i < |sources| && IsNameSet(names, sources[..i])
    ensures IsNameSet(names + {sources[i].name}, sources[..i + 1])
    ensures |names + {sources[i].name}| == |names| + if sources[i].name in names then 0 else 1
    ensures DistinctNames(sources[..i + 1]) <==> DistinctNames(sources[..i]) && sources[i].name !in names
  {
    var before, after, last := sources[..i], sources[..i + 1], sources[i];
    assert after == before + [last];
    if last.name in names {
      assert names + {last.name} == names;
      var s :| s in before && s.name == last.name;
      var k :| 0 <= k < i && before[k] == s;
      assert after[k].name == after[i].name;
    }
    if DistinctNames(after) {
      assert forall k :: 0 <= k < i ==> before[k] == after[k];
    }
    if DistinctNames(before) && last.name !in names {
      forall a, b | 0 <= a < b < |after|
        ensures after[a].name != after[b].name
      {
        assert after[a] == before[a] && before[a] in before;
      }
    }
  }

  /** The counting loop: every record names a listed source, and the counts are taken on the way. */
  method CountClaims(names: set<string>, records: seq<Record>) returns (ok: bool, counts: map<string, nat>)
    ensures ok <==> forall r :: r in records ==> Readable(r) && r.sourceName in names
    ensures ok ==> forall n :: ClaimedBy(records, n) == if n in counts then counts[n] else 0
  {
    counts := map[];
    for i := 0 to |records|
      invariant forall r :: r in records[..i] ==> Readable(r) && r.sourceName in names
      invariant forall n :: ClaimedBy(records[..i], n) == if n in counts then counts[n] else 0
    {
      var r := records[i];
      assert r in records && records[..i + 1] == records[..i] + [r] && records[..i + 1][..i] == records[..i];
      if !Readable(r) || r.sourceName !in names {
        return false, counts;
      }
      counts := counts[r.sourceName := 1 + if r.sourceName in counts then counts[r.sourceName] else 0];
    }
    assert records[..|records|] == records;
    ok := true;
  }

  lemma {:induction false} ClaimsAreRecords(records: seq<Record>, name: string)
    ensures ClaimedBy(records, name) == |OfSource(records, name)|
  {
    if records != [] {
      ClaimsAreRecords(records[..|records| - 1], name);
    }
  }

  method ValidateManifest(sources: seq<SourceEntry>, records: seq<Record>) returns (ok: bool)
    ensures ok <==> ManifestOk(sources, records)
    // Spelled out: each source declares the number of its records, and no record is without a source.
    ensures ok ==>
              && (forall i, j :: 0 <= i < j < |sources| ==> sources[i].name != sources[j].name)
              && (forall r :: r in records ==> 1 <= |r.bytes| <= 4194304
                                               && exists s :: s in sources && s.name == r.sourceName)
              && (forall s :: s in sources ==> s.recordCount == |OfSource(records, s.name)|)
  {
    forall name
      ensures ClaimedBy(records, name) == |OfSource(records, name)|
    {
      ClaimsAreRecords(records, name);
    }
    var names := CollectNames(sources);
    if |names| != |sources| {
      return false;
    }
    var counted, counts := CountClaims(names, records);
    if !counted {
      return false;
    }
    for i := 0 to |sources|
      invariant forall s :: s in sources[..i] ==> ClaimedBy(records, s.name) == s.recordCount
    {
      var s := sources[i];
      assert s in sources;
      if (if s.name in counts then counts[s.name] else 0) != s.recordCount {
        return false;
      }
    }
    ok := true;
  }

  lemma {:induction false} CountOfDistinct(names: seq<string>, n: string)
    requires forall i, j :: 0 <= i < j < |names| ==> names[i] != names[j]
    ensures Count(names, n) == if n in names then 1 else 0
  {
    if names != [] {
      var last := |names| - 1;
      CountOfDistinct(names[..last], n);
      assert names == names[..last] + [names[last]];
    }
  }

  /** What the loaders accept, the import hands over exactly once. */
  lemma AcceptedOnce(sources: seq<SourceEntry>, records: seq<Record>)
    requires ManifestOk(sources, records)
    ensures EachOnce(Names(sources), records)
  {
    var names := Names(sources);
    forall r | r in records
      ensures Count(names, r.sourceName) == 1
    {
      var s :| s in sources && s.name == r.sourceName;
      var i :| 0 <= i < |sources| && sources[i] == s;
      assert names[i] in names;
      CountOfDistinct(names, r.sourceName);
    }
    ImportedExactlyOnce(names, records);
  }

  /** Loading and importing together: success means every record of the manifest was handed over exactly
      once, and a refused manifest hands over nothing. */
  method ImportManifest(catalog: Catalog, sources: seq<SourceEntry>, records: seq<Record>)
    returns (ok: bool, ghost flushed: seq<Batch>)
    modifies catalog
    ensures catalog.batches == old(catalog.batches) + flushed && Acceptable(flushed)
    ensures ok ==> ManifestOk(sources, records) && forall r :: Count(Flatten(flushed), r) == Count(records, r)
    ensures !ManifestOk(sources, records) ==> !ok && flushed == []
  {
    flushed := [];
    ok := ValidateManifest(sources, records);
    if ok {
      AcceptedOnce(sources, records);
      ok, flushed := ImportBySource(catalog, Names(sources), records);
    }
  }
}
