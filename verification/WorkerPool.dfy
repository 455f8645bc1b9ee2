/** The cooperative worker pool of the embedding generator: workers that interleave only where a task is
    awaited (scripts/generate-local-memory-embeddings.ts). */
module WorkerPool {
  import opened Options

  /** A worker awaits the task of one index, or has found nothing left to do. */
  datatype Worker = InFlight(index: nat) | Finished

  /** `claims` lists the indexes handed out so far. */
  datatype Pool<R> = Pool(next: nat, workers: seq<Worker>, results: seq<Option<R>>, claims: seq<nat>)

  /** The synchronous stretch between two awaits: take the next index, or stop. */
  function Claim<R>(p: Pool<R>): (Pool<R>, Worker) {
    if p.next < |p.results| then (p.(next := p.next + 1, claims := p.claims + [p.next]), InFlight(p.next))
    else (p.(next := p.next + 1), Finished)
  }

  function Spawn<R>(p: Pool<R>, count: nat): Pool<R>
    decreases count
  {
    if count == 0 then p
    else
      var (q, w) := Claim(p);
      Spawn(q.(workers := q.workers + [w]), count - 1)
  }

  /** The number of workers: none when the requested concurrency is not positive. */
  function WorkerCount(items: nat, concurrency: int): nat {
    if concurrency <= 0 then 0 else if concurrency < items then concurrency else items
  }

  function Start<R>(items: nat, concurrency: int): Pool<R> {
    Spawn(Pool(0, [], seq(items, i => None), []), WorkerCount(items, concurrency))
  }

  /** Worker `w`'s task resolves: store its result and go on to the next index. */
  function Complete<R>(p: Pool<R>, w: nat, task: nat -> R): Pool<R>
    requires w < |p.workers| && p.workers[w].InFlight? && p.workers[w].index < |p.results|
  {
    var (q, next) := Claim(p.(results := p.results[p.workers[w].index := Some(task(p.workers[w].index))]));
    q.(workers := q.workers[w := next])
  }

  function Min(a: nat, b: nat): nat {
    if a < b then a else b
  }

  /** Each index below the counter was handed out exactly once, in order; it is either stored or held by
      exactly one worker. */
  ghost predicate Valid<R>(p: Pool<R>, task: nat -> R) {
    var handed := Min(p.next, |p.results|);
    && p.claims == seq(handed, i => i)
    && (forall w :: 0 <= w < |p.workers| && p.workers[w].InFlight? ==>
          p.workers[w].index < handed && p.results[p.workers[w].index] == None)
    && (forall v, w :: 0 <= v < w < |p.workers| && p.workers[v].InFlight? && p.workers[w].InFlight? ==>
         p.workers[v].index != p.workers[w].index)
    && (forall w :: 0 <= w < |p.workers| && p.workers[w] == Finished ==> p.next > |p.results|)
    && (forall i :: handed <= i < |p.results| ==> p.results[i] == None)
    && (forall i :: 0 <= i < handed ==> p.results[i] == Some(task(i)) || Held(p, i))
  }

  ghost predicate Held<R>(p: Pool<R>, i: nat) {
    exists w :: 0 <= w < |p.workers| && p.workers[w] == InFlight(i)
  }

  lemma {:induction false} SpawnIsValid<R>(p: Pool<R>, count: nat, task: nat -> R)
    requires Valid(p, task) && p.next + count <= |p.results|
    ensures Valid(Spawn(p, count), task)
    ensures |Spawn(p, count).workers| == |p.workers| + count && Spawn(p, count).results == p.results
    decreases count
  {
    if count == 0 {
    } else {
      var (q, w) := Claim(p);
      var r := q.(workers := q.workers + [w]);
      forall i | 0 <= i < r.next
        ensures r.results[i] == Some(task(i)) || Held(r, i)
      {
        if i == p.next {
          assert r.workers[|p.workers|] == InFlight(i);
        } else if Held(p, i) {
          var v :| 0 <= v < |p.workers| && p.workers[v] == InFlight(i);
          assert r.workers[v] == InFlight(i);
        }
      }
      SpawnIsValid(r, count - 1, task);
    }
  }

  lemma StartIsValid<R>(items: nat, concurrency: int, task: nat -> R)
    ensures Valid(Start<R>(items, concurrency), task)
    ensures |Start<R>(items, concurrency).workers| == WorkerCount(items, concurrency)
    ensures Start<R>(items, concurrency).results == seq(items, i => None)
  {
    SpawnIsValid(Pool(0, [], seq<Option<R>>(items, i => None), []), WorkerCount(items, concurrency), task);
  }

  lemma CompleteIsValid<R>(p: Pool<R>, w: nat, task: nat -> R)
    requires Valid(p, task) && w < |p.workers| && p.workers[w].InFlight?
    ensures Valid(Complete(p, w, task), task)
    ensures |Complete(p, w, task).workers| == |p.workers| && |Complete(p, w, task).results| == |p.results|
  {
    var q := Complete(p, w, task);
    forall i | 0 <= i < Min(q.next, |q.results|)
      ensures q.results[i] == Some(task(i)) || Held(q, i)
    {
      if i == p.next {
        assert q.workers[w] == InFlight(i);
      } else if i != p.workers[w].index && Held(p, i) {
        var v :| 0 <= v < |p.workers| && p.workers[v] == InFlight(i);
        assert q.workers[v] == InFlight(i);
      }
    }
  }

  function Stored<R>(results: seq<Option<R>>): nat {
    if results == [] then 0 else (if results[0].Some? then 1 else 0) + Stored(results[1..])
  }

  lemma {:induction false} StoredAfterUpdate<R>(results: seq<Option<R>>, i: nat, r: R)
    requires i < |results| && results[i] == None
    ensures Stored(results[i := Some(r)]) == Stored(results) + 1
  {
    if i == 0 {
      assert results[i := Some(r)][1..] == results[1..];
    } else {
      assert results[i := Some(r)][1..] == results[1..][i - 1 := Some(r)];
      StoredAfterUpdate(results[1..], i - 1, r);
    }
  }

  lemma {:induction false} StoredBounds<R>(results: seq<Option<R>>)
    ensures Stored(results) <= |results|
    ensures Stored(results) == |results| <==> forall i :: 0 <= i < |results| ==> results[i].Some?
  {
    if results == [] {
    } else {
      StoredBounds(results[1..]);
      if forall i :: 0 <= i < |results| ==> results[i].Some? {
        assert results[0].Some?;
        assert forall i :: 0 <= i < |results[1..]| ==> results[1..][i] == results[i + 1];
      }
      if forall i :: 0 <= i < |results[1..]| ==> results[1..][i].Some? {
        assert forall i :: 0 < i < |results| ==> results[i] == results[1..][i - 1];
      }
    }
  }

  lemma {:induction false} NothingStored<R>(n: nat)
    ensures Stored(seq<Option<R>>(n, i => None)) == 0
  {
    if n == 0 {
    } else {
      NothingStored<R>(n - 1);
      assert seq<Option<R>>(n, i => None)[1..] == seq<Option<R>>(n - 1, i => None);
    }
  }

  /** The result of the sequential map. */
  function Filled<R>(n: nat, task: nat -> R): seq<Option<R>> {
    seq(n, (i: nat) => Some(task(i)))
  }

  predicate AllFinished<R>(p: Pool<R>) {
    forall w :: 0 <= w < |p.workers| ==> p.workers[w] == Finished
  }

  /** A schedule names, step by step, the worker whose task resolves next. */
  ghost predicate Plays<R>(p: Pool<R>, schedule: seq<nat>, task: nat -> R)
    decreases |schedule|
  {
    schedule == [] ||
    (&& schedule[0] < |p.workers| && p.workers[schedule[0]].InFlight? && p.workers[schedule[0]].index < |p.results|
     && Plays(Complete(p, schedule[0], task), schedule[1..], task))
  }

  function Play<R>(p: Pool<R>, schedule: seq<nat>, task: nat -> R): Pool<R>
    requires Plays(p, schedule, task)
    decreases |schedule|
  {
    if schedule == [] then p else Play(Complete(p, schedule[0], task), schedule[1..], task)
  }

  lemma {:induction false} PlayKeepsValid<R>(p: Pool<R>, schedule: seq<nat>, task: nat -> R)
    requires Valid(p, task) && Plays(p, schedule, task)
    ensures Valid(Play(p, schedule, task), task)
    ensures |Play(p, schedule, task).workers| == |p.workers| && |Play(p, schedule, task).results| == |p.results|
    ensures Stored(Play(p, schedule, task).results) == Stored(p.results) + |schedule|
    decreases |schedule|
  {
    if schedule == [] {
    } else {
      CompleteIsValid(p, schedule[0], task);
      StoredAfterUpdate(p.results, p.workers[schedule[0]].index, task(p.workers[schedule[0]].index));
      PlayKeepsValid(Complete(p, schedule[0], task), schedule[1..], task);
    }
  }

  /** Once a valid pool with workers has nothing in flight, every result is in place. */
  lemma FinishedMeansMapped<R>(p: Pool<R>, task: nat -> R)
    requires Valid(p, task) && AllFinished(p) && |p.workers| > 0
    ensures p.results == Filled(|p.results|, task)
    ensures p.claims == seq(|p.results|, i => i)
  {
    assert p.workers[0] == Finished;
    forall i | 0 <= i < |p.results|
      ensures p.results[i] == Some(task(i))
    {
      assert !Held(p, i);
    }
  }

  lemma StoredMeansFinished<R>(p: Pool<R>, task: nat -> R)
    requires Valid(p, task) && Stored(p.results) == |p.results|
    ensures AllFinished(p)
  {
    StoredBounds(p.results);
  }

  /** Under every interleaving: indexes are handed out once each and in order; a schedule never exceeds one
      step per item; and the pool stands still exactly when it has made that many steps, or has no worker. */
  lemma EveryScheduleClaimsOnce<R>(items: nat, concurrency: int, schedule: seq<nat>, task: nat -> R)
    requires Plays(Start<R>(items, concurrency), schedule, task)
    ensures var p := Play(Start<R>(items, concurrency), schedule, task);
            && |schedule| <= items && |p.results| == items
            && |p.workers| == (if concurrency <= 0 then 0 else if concurrency <= items then concurrency else items)
            && p.claims == seq(Min(p.next, items), i => i)
            && (AllFinished(p) <==> |schedule| == items || concurrency <= 0)
  {
    StartIsValid(items, concurrency, task);
    NothingStored<R>(items);
    var p0 := Start<R>(items, concurrency);
    PlayKeepsValid(p0, schedule, task);
    var p := Play(p0, schedule, task);
    StoredBounds(p.results);
    if |schedule| == items {
      StoredMeansFinished(p, task);
    }
    if AllFinished(p) && concurrency > 0 && items > 0 {
      FinishedMeansMapped(p, task);
    }
  }

  /** When the pool stands still its results equal the sequential map exactly when some worker existed or
      there was nothing to do: a concurrency of zero or less leaves every slot empty. */
  lemma FinishedPoolIsMapIff<R>(items: nat, concurrency: int, schedule: seq<nat>, task: nat -> R)
    requires Plays(Start<R>(items, concurrency), schedule, task)
    requires AllFinished(Play(Start<R>(items, concurrency), schedule, task))
    ensures Play(Start<R>(items, concurrency), schedule, task).results == Filled(items, task)
            <==> concurrency >= 1 || items == 0
  {
    StartIsValid(items, concurrency, task);
    PlayKeepsValid(Start<R>(items, concurrency), schedule, task);
    var p := Play(Start<R>(items, concurrency), schedule, task);
    if concurrency >= 1 && items > 0 {
      FinishedMeansMapped(p, task);
    } else if items > 0 {
      assert p.workers == [];
      assert schedule == [];
      assert p.results[0] == None;
    }
  }

  /** `runWithConcurrency`: the workers are scheduled in any order whatsoever. */
  method RunWithConcurrency<R>(items: nat, concurrency: int, task: nat -> R) returns (results: seq<Option<R>>)
    ensures |results| == items
    ensures concurrency >= 1 ==> results == Filled(items, task)
    ensures concurrency <= 0 ==> results == seq(items, i => None)
  {
    var p := Start<R>(items, concurrency);
    StartIsValid(items, concurrency, task);
    while exists w :: 0 <= w < |p.workers| && p.workers[w].InFlight?
      invariant Valid(p, task)
      invariant |p.results| == items && |p.workers| == WorkerCount(items, concurrency)
      invariant p.workers == [] ==> p.results == seq(items, i => None)
      decreases items - Stored(p.results)
    {
      var w :| 0 <= w < |p.workers| && p.workers[w].InFlight?;
      CompleteIsValid(p, w, task);
      StoredAfterUpdate(p.results, p.workers[w].index, task(p.workers[w].index));
      p := Complete(p, w, task);
      StoredBounds(p.results);
    }
    if |p.workers| > 0 {
      assert AllFinished(p);
      FinishedMeansMapped(p, task);
    }
    results := p.results;
  }
}
