/** Generating the embeddings of all records, batch by batch, on the worker pool
    (scripts/generate-local-memory-embeddings.ts). What the embedding service answers for each record, and how
    long it takes, is a parameter; the order in which answers arrive is not fixed. */
module EmbeddingGenerate {
  import opened Options
  import opened WorkerPool

  datatype Outcome<P> = Embedded(elapsed: int, point: P) | Failed

  function IsEmbedded<P>(o: Outcome<P>): nat {
    if o.Embedded? then 1 else 0
  }

  function Took<P>(o: Outcome<P>): multiset<int> {
    if o.Embedded? then multiset{o.elapsed} else multiset{}
  }

  /** The number of stored successes. */
  function StoredOk<P>(results: seq<Option<Outcome<P>>>): nat {
    if results == [] then 0 else (if results[0].Some? then IsEmbedded(results[0].value) else 0) + StoredOk(results[1..])
  }

  /** The latencies of the stored successes. */
  function StoredTimes<P>(results: seq<Option<Outcome<P>>>): multiset<int> {
    if results == [] then multiset{}
    else (if results[0].Some? then Took(results[0].value) else multiset{}) + StoredTimes(results[1..])
  }

  /** The same two for a plain sequence of outcomes. */
  function Successes<P>(outcomes: seq<Outcome<P>>): nat {
    if outcomes == [] then 0 else IsEmbedded(outcomes[0]) + Successes(outcomes[1..])
  }

  function Times<P>(outcomes: seq<Outcome<P>>): multiset<int> {
    if outcomes == [] then multiset{} else Took(outcomes[0]) + Times(outcomes[1..])
  }

  /** The points of the successful records, in record order. */
  function PointsOf<P>(outcomes: seq<Outcome<P>>): seq<P> {
    if outcomes == [] then []
    else (if outcomes[0].Embedded? then [outcomes[0].point] else []) + PointsOf(outcomes[1..])
  }

  lemma {:induction false} OkAfterStore<P>(results: seq<Option<Outcome<P>>>, i: nat, o: Outcome<P>)
    requires i < |results| && results[i] == None
    ensures StoredOk(results[i := Some(o)]) == StoredOk(results) + IsEmbedded(o)
  {
    if i == 0 {
      assert results[i := Some(o)][1..] == results[1..];
    } else {
      assert results[i := Some(o)][1..] == results[1..][i - 1 := Some(o)];
      OkAfterStore(results[1..], i - 1, o);
    }
  }

  lemma UnionSwaps(a: multiset<int>, b: multiset<int>, c: multiset<int>)
    ensures a + (b + c) == (a + b) + c
    ensures a + b == b + a
    ensures a + multiset{} == a
  {
  }

  lemma {:induction false} TimesAfterStore<P>(results: seq<Option<Outcome<P>>>, i: nat, o: Outcome<P>)
    requires i < |results| && results[i] == None
    ensures StoredTimes(results[i := Some(o)]) == StoredTimes(results) + Took(o)
  {
    var after := results[i := Some(o)];
    if i == 0 {
      assert after[1..] == results[1..];
      UnionSwaps(Took(o), StoredTimes(results[1..]), multiset{});
      UnionSwaps(multiset{}, StoredTimes(results[1..]), multiset{});
    } else {
      var first := if results[0].Some? then Took(results[0].value) else multiset{};
      assert after[1..] == results[1..][i - 1 := Some(o)];
      TimesAfterStore(results[1..], i - 1, o);
      UnionSwaps(first, StoredTimes(results[1..]), Took(o));
    }
  }

  lemma {:induction false} NothingTallied<P>(results: seq<Option<Outcome<P>>>)
    requires forall i :: 0 <= i < |results| ==> results[i] == None
    ensures StoredOk(results) == 0 && StoredTimes(results) == multiset{}
  {
    if results == [] {
    } else {
      assert results[0] == None;
      NothingTallied(results[1..]);
    }
  }

  lemma {:induction false} AllTallied<P>(results: seq<Option<Outcome<P>>>, outcomes: seq<Outcome<P>>)
    requires |results| == |outcomes| && forall i :: 0 <= i < |results| ==> results[i] == Some(outcomes[i])
    ensures StoredOk(results) == Successes(outcomes) && StoredTimes(results) == Times(outcomes)
  {
    if results == [] {
    } else {
      AllTallied(results[1..], outcomes[1..]);
    }
  }

  lemma {:induction false} SuccessesConcat<P>(a: seq<Outcome<P>>, b: seq<Outcome<P>>)
    ensures Successes(a + b) == Successes(a) + Successes(b)
    ensures PointsOf(a + b) == PointsOf(a) + PointsOf(b)
  {
    if a == [] {
      assert a + b == b;
    } else {
      assert (a + b)[1..] == a[1..] + b;
      SuccessesConcat(a[1..], b);
    }
  }

  lemma {:induction false} TimesConcat<P>(a: seq<Outcome<P>>, b: seq<Outcome<P>>)
    ensures Times(a + b) == Times(a) + Times(b)
  {
    if a == [] {
      assert a + b == b;
      UnionSwaps(Times(b), multiset{}, multiset{});
    } else {
      assert (a + b)[1..] == a[1..] + b;
      TimesConcat(a[1..], b);
      UnionSwaps(Took(a[0]), Times(a[1..]), Times(b));
    }
  }

  /** There is one point and one latency for each success, and never more successes than records. */
  lemma {:induction false} OnePointPerSuccess<P>(outcomes: seq<Outcome<P>>)
    ensures |PointsOf(outcomes)| == |Times(outcomes)| == Successes(outcomes) <= |outcomes|
  {
    if outcomes == [] {
    } else {
      OnePointPerSuccess(outcomes[1..]);
    }
  }

  /** The counters shared by the tasks, bumped as answers arrive. */
  datatype Counters = Counters(processed: nat, errors: nat, latencies: seq<int>)

  function Bump<P>(c: Counters, o: Outcome<P>): Counters {
    match o
    case Embedded(elapsed, _) => c.(latencies := c.latencies + [elapsed], processed := c.processed + 1)
    case Failed => c.(errors := c.errors + 1)
  }

  /** The counters say exactly what the stored results say. */
  ghost predicate Counted<P>(c: Counters, results: seq<Option<Outcome<P>>>) {
    && c.processed == StoredOk(results)
    && c.processed + c.errors == Stored(results)
    && multiset(c.latencies) == StoredTimes(results)
  }

  lemma BumpKeepsCounted<P>(c: Counters, results: seq<Option<Outcome<P>>>, i: nat, o: Outcome<P>)
    requires Counted(c, results) && i < |results| && results[i] == None
    ensures Counted(Bump(c, o), results[i := Some(o)])
  {
    StoredAfterUpdate(results, i, o);
    OkAfterStore(results, i, o);
    TimesAfterStore(results, i, o);
    match o
    case Embedded(elapsed, _) =>
      assert multiset(c.latencies + [elapsed]) == multiset(c.latencies) + multiset{elapsed};
    case Failed =>
      UnionSwaps(StoredTimes(results), multiset{}, multiset{});
  }

  /** The counters say exactly what a sequence of outcomes says. */
  ghost predicate Totals<P>(c: Counters, outcomes: seq<Outcome<P>>) {
    && c.processed == Successes(outcomes)
    && c.processed + c.errors == |outcomes|
    && multiset(c.latencies) == Times(outcomes)
  }

  lemma CountedIsTotals<P>(c: Counters, results: seq<Option<Outcome<P>>>, outcomes: seq<Outcome<P>>)
    requires |results| == |outcomes| && forall i :: 0 <= i < |results| ==> results[i] == Some(outcomes[i])
    requires Counted(c, results)
    ensures Totals(c, outcomes)
  {
    AllTallied(results, outcomes);
    StoredBounds(results);
  }

  function Sum(a: Counters, b: Counters): Counters {
    Counters(a.processed + b.processed, a.errors + b.errors, a.latencies + b.latencies)
  }

  lemma TotalsConcat<P>(a: Counters, b: Counters, first: seq<Outcome<P>>, second: seq<Outcome<P>>)
    requires Totals(a, first) && Totals(b, second)
    ensures Totals(Sum(a, b), first + second)
  {
    SuccessesConcat(first, second);
    TimesConcat(first, second);
    assert multiset(a.latencies + b.latencies) == multiset(a.latencies) + multiset(b.latencies);
  }

  /** One batch: the pool runs its tasks in any order; each task bumps the shared counters when its record's
      answer arrives. */
  method RunBatch<P>(
    batch: seq<Outcome<P>>, concurrency: int)
    returns (generated: seq<Option<Outcome<P>>>, counters: Counters)
    requires concurrency >= 1
    ensures |generated| == |batch| && forall i :: 0 <= i < |batch| ==> generated[i] == Some(batch[i])
    ensures Totals(counters, batch)
  {
    var task := (i: nat) => if i < |batch| then batch[i] else Failed;
    var p := Start<Outcome<P>>(|batch|, concurrency);
    StartIsValid(|batch|, concurrency, task);
    counters := Counters(0, 0, []);
    NothingTallied(p.results);
    NothingStored<Outcome<P>>(|batch|);
    while exists w :: 0 <= w < |p.workers| && p.workers[w].InFlight?
      invariant Valid(p, task)
      invariant |p.results| == |batch| && |p.workers| == WorkerCount(|batch|, concurrency)
      invariant Counted(counters, p.results)
      decreases |batch| - Stored(p.results)
    {
      var w :| 0 <= w < |p.workers| && p.workers[w].InFlight?;
      var index := p.workers[w].index;
      CompleteIsValid(p, w, task);
      StoredAfterUpdate(p.results, index, task(index));
      BumpKeepsCounted(counters, p.results, index, task(index));
      counters := Bump(counters, task(index));
      p := Complete(p, w, task);
      StoredBounds(p.results);
    }
    if |p.workers| > 0 {
      assert AllFinished(p);
      FinishedMeansMapped(p, task);
    }
    generated := p.results;
    CountedIsTotals(counters, generated, batch);
  }

  /** The non-null results of a batch, in batch order. */
  function NonNull<P>(generated: seq<Option<Outcome<P>>>): seq<P> {
    if generated == [] then []
    else (match generated[0] case Some(Embedded(_, point)) => [point] case _ => []) + NonNull(generated[1..])
  }

  lemma {:induction false} NonNullIsPoints<P>(generated: seq<Option<Outcome<P>>>, outcomes: seq<Outcome<P>>)
    requires |generated| == |outcomes| && forall i :: 0 <= i < |generated| ==> generated[i] == Some(outcomes[i])
    ensures NonNull(generated) == PointsOf(outcomes)
  {
    if generated == [] {
    } else {
      NonNullIsPoints(generated[1..], outcomes[1..]);
    }
  }

  lemma BatchExtends<P>(outcomes: seq<Outcome<P>>, offset: nat, end: nat, c: Counters, b: Counters)
    requires offset <= end <= |outcomes|
    requires Totals(c, outcomes[..offset]) && Totals(b, outcomes[offset..end])
    ensures Totals(Sum(c, b), outcomes[..end])
    ensures PointsOf(outcomes[..end]) == PointsOf(outcomes[..offset]) + PointsOf(outcomes[offset..end])
  {
    assert outcomes[..end] == outcomes[..offset] + outcomes[offset..end];
    SuccessesConcat(outcomes[..offset], outcomes[offset..end]);
    TotalsConcat(c, b, outcomes[..offset], outcomes[offset..end]);
  }


  /** One turn of the batch loop, up to the upsert. */
  method NextBatch<P>(outcomes: seq<Outcome<P>>, offset: nat, end: nat, concurrency: int, before: Counters)
    returns (counters: Counters, points: seq<P>)
    requires offset <= end <= |outcomes| && concurrency >= 1 && Totals(before, outcomes[..offset])
    ensures Totals(counters, outcomes[..end])
    ensures points == PointsOf(outcomes[offset..end])
    ensures PointsOf(outcomes[..end]) == PointsOf(outcomes[..offset]) + points
  {
    var batch := outcomes[offset..end];
    var generated, batchCounters := RunBatch(batch, concurrency);
    points := NonNull(generated);
    NonNullIsPoints(generated, batch);
    BatchExtends(outcomes, offset, end, before, batchCounters);
    counters := Sum(before, batchCounters);
  }

  datatype Report = Report(counters: Counters, qdrantPoints: nat)

  /** Each record was embedded or failed; there is one latency and one upserted point for each embedded record, the
      points in record order. */
  ghost predicate AddsUp<P>(r: Report, upserted: seq<P>, outcomes: seq<Outcome<P>>) {
    && r.counters.processed + r.counters.errors == |outcomes|
    && r.qdrantPoints == r.counters.processed == |r.counters.latencies| == |upserted|
    && multiset(r.counters.latencies) == Times(outcomes)
    && upserted == PointsOf(outcomes)
  }

  lemma TotalsAddUp<P>(outcomes: seq<Outcome<P>>, c: Counters)
    requires Totals(c, outcomes)
    ensures AddsUp(Report(c, |PointsOf(outcomes)|), PointsOf(outcomes), outcomes)
  {
    OnePointPerSuccess(outcomes);
    assert |multiset(c.latencies)| == |c.latencies|;
  }

  function NextOffset(offset: nat, batchSize: nat, length: nat): nat {
    Min(offset + batchSize, length)
  }

  /** The offset of the first batch whose points the vector store refuses; a batch without points is not sent. */
  function FirstRefused<P>(
    outcomes: seq<Outcome<P>>, offset: nat, batchSize: nat, accepts: nat -> bool) : (r: Option<nat>)
    requires batchSize >= 1 && offset <= |outcomes|
    ensures r.Some? ==> offset <= r.value < |outcomes| && !accepts(r.value)
    decreases |outcomes| - offset
  {
    if offset == |outcomes| then None
    else if PointsOf(outcomes[offset..NextOffset(offset, batchSize, |outcomes|)]) != []
        && !accepts(offset) then Some(offset)
    else FirstRefused(outcomes, NextOffset(offset, batchSize, |outcomes|), batchSize, accepts)
  }

  /** `generate`: whatever the batch size, the concurrency and the interleaving, the report adds up and the points
      upserted are those of a sequential pass over the records, in the same order. There is no report exactly when the
      store refuses a batch; what was upserted then are the points of all records before that batch. */
  method Generate<P>(outcomes: seq<Outcome<P>>, batchSize: nat, concurrency: int, accepts: nat -> bool)
    returns (report: Option<Report>, upserted: seq<P>)
    requires batchSize >= 1 && concurrency >= 1
    ensures match FirstRefused(outcomes, 0, batchSize, accepts)
            case None => report.Some? && AddsUp(report.value, upserted, outcomes)
            case Some(stop) => report == None && upserted == PointsOf(outcomes[..stop])
  {
    upserted := [];
    var counters, offset := Counters(0, 0, []), 0;
    var qdrantPoints := 0;
    ghost var refused := FirstRefused(outcomes, 0, batchSize, accepts);
    while offset < |outcomes|
      invariant offset <= |outcomes|
      invariant FirstRefused(outcomes, offset, batchSize, accepts) == refused
      invariant Totals(counters, outcomes[..offset])
      invariant upserted == PointsOf(outcomes[..offset]) && |upserted| == qdrantPoints
    {
      var end, points := NextOffset(offset, batchSize, |outcomes|), [];
      counters, points := NextBatch(outcomes, offset, end, concurrency, counters);
      if points != [] && !accepts(offset) {
        return None, upserted;
      }
      upserted, qdrantPoints, offset := upserted + points, qdrantPoints + |points|, end;
    }
    assert outcomes[..|outcomes|] == outcomes;
    TotalsAddUp(outcomes, counters);
    report := Some(Report(counters, qdrantPoints));
  }
}
