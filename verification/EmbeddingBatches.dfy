/** How the generator cuts the records into batches, and where it stops
    (scripts/generate-local-memory-embeddings.ts). */
module EmbeddingBatches {
  import opened Options
  import opened EmbeddingGenerate

  /** Where batch `k` begins: the batches follow each other without gap or overlap. */
  function BatchStart(k: nat, batchSize: nat): nat {
    if k == 0 then 0 else BatchStart(k - 1, batchSize) + batchSize
  }

  lemma {:induction false} LaterBatch(k: nat, i: nat, batchSize: nat)
    requires k <= i
    ensures BatchStart(k, batchSize) <= BatchStart(i, batchSize)
  {
    if k == i {
    } else {
      LaterBatch(k, i - 1, batchSize);
    }
  }

  /** The store has nothing to take from batch `i`, or takes it. */
  predicate Taken<P>(outcomes: seq<Outcome<P>>, i: nat, batchSize: nat, accepts: nat -> bool) {
    var start := BatchStart(i, batchSize);
    start < |outcomes| ==>
      var end := if start + batchSize <= |outcomes| then start + batchSize else |outcomes|;
      PointsOf(outcomes[start..end]) == [] || accepts(start)
  }

  /** Batch `i` is refused, and none before it. */
  ghost predicate RefusedFirst<P>(outcomes: seq<Outcome<P>>, i: nat, batchSize: nat, accepts: nat -> bool) {
    !Taken(outcomes, i, batchSize, accepts) && forall j :: 0 <= j < i ==> Taken(outcomes, j, batchSize, accepts)
  }

  lemma RefusedOrNext<P>(outcomes: seq<Outcome<P>>, k: nat, batchSize: nat, accepts: nat -> bool)
    requires batchSize >= 1 && BatchStart(k, batchSize) < |outcomes|
    ensures FirstRefused(outcomes, BatchStart(k, batchSize), batchSize, accepts) ==
              if !Taken(outcomes, k, batchSize, accepts) then Some(BatchStart(k, batchSize))
              else if BatchStart(k + 1, batchSize) >= |outcomes| then None
              else FirstRefused(outcomes, BatchStart(k + 1, batchSize), batchSize, accepts)
  {
    assert FirstRefused(outcomes, |outcomes|, batchSize, accepts) == None;
  }

  lemma NoneLeft<P>(outcomes: seq<Outcome<P>>, k: nat, batchSize: nat, accepts: nat -> bool)
    requires BatchStart(k, batchSize) >= |outcomes|
    requires forall j: nat :: j < k ==> Taken(outcomes, j, batchSize, accepts)
    ensures forall i: nat :: Taken(outcomes, i, batchSize, accepts)
  {
    forall i: nat
      ensures Taken(outcomes, i, batchSize, accepts)
    {
      if i >= k {
        LaterBatch(k, i, batchSize);
      }
    }
  }

  /** What a search says about all batches. */
  ghost predicate Found<P>(
    outcomes: seq<Outcome<P>>, batchSize: nat, accepts: nat -> bool, refused: Option<nat>) {
    match refused
    case Some(stop) =>
      exists i: nat :: RefusedFirst(outcomes, i, batchSize, accepts) && stop == BatchStart(i, batchSize)
    case None => forall i: nat :: Taken(outcomes, i, batchSize, accepts)
  }

  lemma {:induction false} FirstRefusedFrom<P>(
    outcomes: seq<Outcome<P>>, k: nat, batchSize: nat, accepts: nat -> bool)
    requires batchSize >= 1 && BatchStart(k, batchSize) < |outcomes|
    requires forall j: nat :: j < k ==> Taken(outcomes, j, batchSize, accepts)
    ensures Found(outcomes, batchSize, accepts, FirstRefused(outcomes, BatchStart(k, batchSize), batchSize, accepts))
    decreases |outcomes| - BatchStart(k, batchSize)
  {
    RefusedOrNext(outcomes, k, batchSize, accepts);
    if !Taken(outcomes, k, batchSize, accepts) {
      assert RefusedFirst(outcomes, k, batchSize, accepts);
    } else if BatchStart(k + 1, batchSize) < |outcomes| {
      FirstRefusedFrom(outcomes, k + 1, batchSize, accepts);
    } else {
      NoneLeft(outcomes, k + 1, batchSize, accepts);
    }
  }

  /** The run stops at the first batch that the store refuses, and only there. */
  lemma FirstRefusedIs<P>(outcomes: seq<Outcome<P>>, batchSize: nat, accepts: nat -> bool)
    requires batchSize >= 1
    ensures Found(outcomes, batchSize, accepts, FirstRefused(outcomes, 0, batchSize, accepts))
  {
    if |outcomes| > 0 {
      FirstRefusedFrom(outcomes, 0, batchSize, accepts);
    } else {
      NoneLeft(outcomes, 0, batchSize, accepts);
    }
  }
}
