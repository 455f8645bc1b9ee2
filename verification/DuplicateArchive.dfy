/** Archiving exact duplicates: no content is lost, and repeated runs leave one record per cluster. */
module DuplicateArchive {
  import opened Options
  import opened Ledger

  datatype Key = Key(scope: Scope, memoryType: string, content: string)

  function KeyOf(r: Record): Key {
    Key(r.facts.scope, r.facts.memoryType, r.facts.content)
  }

  predicate InCluster(s: State, id: MemoryId, key: Key) {
    id in s.records && Eligible(s.records[id]) && KeyOf(s.records[id]) == key
  }

  /** The window order: not legacy first, then with an episode, then stronger (unknown strength last), then
      newer, then the smaller id. */
  predicate Precedes(a: Record, i: MemoryId, b: Record, j: MemoryId) {
    if a.facts.legacy != b.facts.legacy then b.facts.legacy
    else if a.facts.hasEpisode != b.facts.hasEpisode then a.facts.hasEpisode
    else if a.facts.strength != b.facts.strength then
      a.facts.strength.Some? && (b.facts.strength == None || a.facts.strength.value > b.facts.strength.value)
    else if a.updatedAt != b.updatedAt then a.updatedAt > b.updatedAt
    else i < j
  }

  predicate Beats(s: State, i: MemoryId, j: MemoryId) {
    i in s.records && j in s.records && Precedes(s.records[i], i, s.records[j], j)
  }

  /** A loser has a better record in its own cluster: its row number is above one. */
  ghost predicate IsLoser(s: State, id: MemoryId) {
    && id in s.records && Eligible(s.records[id])
    && exists other :: InCluster(s, other, KeyOf(s.records[id])) && Beats(s, other, id)
  }

  ghost function Losers(s: State): set<MemoryId> {
    set id | id in s.records && IsLoser(s, id)
  }

  /** The distinct keys among the eligible records. */
  ghost predicate HasContent(s: State, key: Key) {
    exists id :: InCluster(s, id, key)
  }

  lemma PrecedesIsStrictTotal(a: Record, i: MemoryId, b: Record, j: MemoryId, c: Record, k: MemoryId)
    ensures !Precedes(a, i, a, i)
    ensures i != j ==> Precedes(a, i, b, j) || Precedes(b, j, a, i)
    ensures Precedes(a, i, b, j) && Precedes(b, j, c, k) ==> Precedes(a, i, c, k)
  {
  }

  ghost function Betters(s: State, id: MemoryId): set<MemoryId>
    requires id in s.records
  {
    set other | other in s.records && InCluster(s, other, KeyOf(s.records[id])) && Beats(s, other, id)
  }

  /** Every cluster has a record that is no loser. */
  lemma {:induction false} ClusterHasWinner(s: State, id: MemoryId) returns (winner: MemoryId)
    requires id in s.records && Eligible(s.records[id])
    ensures InCluster(s, winner, KeyOf(s.records[id])) && !IsLoser(s, winner)
    decreases Betters(s, id)
  {
    if IsLoser(s, id) {
      var other :| InCluster(s, other, KeyOf(s.records[id])) && Beats(s, other, id);
      forall x | x in Betters(s, other)
        ensures x in Betters(s, id)
      {
        PrecedesIsStrictTotal(s.records[x], x, s.records[other], other, s.records[id], id);
      }
      PrecedesIsStrictTotal(s.records[other], other, s.records[other], other, s.records[other], other);
      assert other in Betters(s, id) && other !in Betters(s, other);
      winner := ClusterHasWinner(s, other);
    } else {
      winner := id;
    }
  }

  /** Which record of a cluster survives: a legacy one only among legacy ones, then one with an episode if there is one,
      then the strongest, then the latest, then the smallest id. */
  lemma SurvivorIsPreferred(s: State, key: Key, winner: MemoryId, other: MemoryId)
    requires InCluster(s, winner, key) && !IsLoser(s, winner) && InCluster(s, other, key)
    ensures var w, o := s.records[winner], s.records[other];
            && (w.facts.legacy ==> o.facts.legacy)
            && (w.facts.legacy == o.facts.legacy ==>
                  && (o.facts.hasEpisode ==> w.facts.hasEpisode)
                  && (w.facts.hasEpisode == o.facts.hasEpisode ==>
                        && (o.facts.strength.Some? ==>
                              w.facts.strength.Some? && w.facts.strength.value >= o.facts.strength.value)
                        && (w.facts.strength == o.facts.strength ==>
                              && w.updatedAt >= o.updatedAt
                              && (w.updatedAt == o.updatedAt ==> winner <= other))))
  {
    if winner != other {
      assert !Beats(s, other, winner);
      PrecedesIsStrictTotal(s.records[winner], winner, s.records[other], other, s.records[other], other);
    }
  }

  function Ids(targets: seq<Target>): set<MemoryId> {
    set t | t in targets :: t.id
  }

  /** An archive loop touches its targets only, and whatever it changes is archived. */
  ghost predicate OnlyArchives(s: State, t: State, ids: set<MemoryId>) {
    && t.records.Keys == s.records.Keys
    && forall id :: id in s.records && t.records[id] != s.records[id] ==>
         id in ids && t.records[id].status.lifecycle == Archived
  }

  lemma {:induction false} ArchiveLoopOnlyArchives(start: State, s: State, targets: seq<Target>, at: int)
    ensures OnlyArchives(s, GovernAll(start, s, ArchiveDuplicate, targets, at).0, Ids(targets))
    decreases |targets|
  {
    if targets == [] || targets[0].id !in start.records {
    } else if targets[0].frozen {
      ArchiveLoopOnlyArchives(start, Log(s, GovernanceAction(start, ArchiveDuplicate, targets[0], at)), targets[1..],
          at);
    } else if ServiceAccepts(s, ArchiveDuplicate, targets[0]) {
      assert targets[0] in targets;
      ArchiveLoopOnlyArchives(start, GovernOne(start, s, ArchiveDuplicate, targets[0], at), targets[1..], at);
    }
  }

  /** Both states have the same eligible records, each under the same key. */
  ghost predicate SameClusters(s: State, t: State) {
    forall id, key :: InCluster(t, id, key) <==> InCluster(s, id, key)
  }

  /** The backfill may change the order within a cluster, but no cluster. */
  lemma {:induction false} BackfillKeepsClusters(s: State, backfill: seq<Backfill>, at: int)
    ensures SameClusters(s, BackfillAll(s, backfill, at))
    decreases |backfill|
  {
    if backfill == [] {
    } else {
      BackfillKeepsClusters(BackfillOne(s, backfill[0], at), backfill[1..], at);
    }
  }

  /** A run that archives and fills in provenance. */
  lemma RunIsArchiveThenBackfill(s: State, targets: seq<Target>, backfill: seq<Backfill>, at: int)
    ensures SameClusters(GovernAll(s, s, ArchiveDuplicate, targets, at).0, AfterGovern(s, targets, [], backfill, at))
  {
    BackfillKeepsClusters(GovernAll(s, s, ArchiveDuplicate, targets, at).0, backfill, at);
  }

  /** Archiving any selection of losers, frozen and refused ones among them, keeps the set of distinct keys. */
  lemma ArchivingLosersKeepsContent(s: State, targets: seq<Target>, backfill: seq<Backfill>, at: int, key: Key)
    requires Ids(targets) <= Losers(s)
    ensures HasContent(AfterGovern(s, targets, [], backfill, at), key) <==> HasContent(s, key)
  {
    var t := GovernAll(s, s, ArchiveDuplicate, targets, at).0;
    var u := AfterGovern(s, targets, [], backfill, at);
    ArchiveLoopOnlyArchives(s, s, targets, at);
    RunIsArchiveThenBackfill(s, targets, backfill, at);
    if HasContent(s, key) {
      var id :| InCluster(s, id, key);
      var winner := ClusterHasWinner(s, id);
      assert InCluster(t, winner, key);
      assert InCluster(u, winner, key);
    }
    if HasContent(u, key) {
      var id :| InCluster(u, id, key);
      assert InCluster(t, id, key);
      assert InCluster(s, id, key);
    }
  }

  // --- counting losers ---

  ghost function EligibleIds(s: State): set<MemoryId> {
    set id | id in s.records && Eligible(s.records[id])
  }

  function KeysOf(s: State, ids: set<MemoryId>): set<Key>
    requires ids <= s.records.Keys
  {
    set id | id in ids :: KeyOf(s.records[id])
  }

  lemma {:induction false} DistinctKeysCount(s: State, ids: set<MemoryId>)
    requires ids <= s.records.Keys
    requires forall i, j :: i in ids && j in ids && KeyOf(s.records[i]) == KeyOf(s.records[j]) ==> i == j
    ensures |KeysOf(s, ids)| == |ids|
  {
    if ids == {} {
    } else {
      var x :| x in ids;
      DistinctKeysCount(s, ids - {x});
      assert KeysOf(s, ids) == KeysOf(s, ids - {x}) + {KeyOf(s.records[x])};
      assert KeyOf(s.records[x]) !in KeysOf(s, ids - {x});
    }
  }

  /** Every eligible record is a loser or the one winner of its cluster. */
  lemma LosersCount(s: State)
    ensures |Losers(s)| + |KeysOf(s, EligibleIds(s))| == |EligibleIds(s)|
  {
    var winners := EligibleIds(s) - Losers(s);
    forall i, j | i in winners && j in winners && KeyOf(s.records[i]) == KeyOf(s.records[j])
      ensures i == j
    {
      TwoInClusterLose(s, KeyOf(s.records[i]), i, j);
    }
    DistinctKeysCount(s, winners);
    forall key | key in KeysOf(s, EligibleIds(s))
      ensures key in KeysOf(s, winners)
    {
      var id :| id in EligibleIds(s) && KeyOf(s.records[id]) == key;
      var winner := ClusterHasWinner(s, id);
      assert winner in winners && KeyOf(s.records[winner]) == key;
    }
    assert KeysOf(s, EligibleIds(s)) == KeysOf(s, winners);
    assert EligibleIds(s) == winners + Losers(s);
  }

  /** How many losers there are does not depend on the order within the clusters. */
  lemma SameClustersCount(s: State, t: State)
    requires SameClusters(s, t)
    ensures |Losers(t)| == |Losers(s)|
  {
    LosersCount(s);
    LosersCount(t);
    forall id
      ensures id in EligibleIds(t) <==> id in EligibleIds(s)
      ensures id in EligibleIds(s) ==> KeyOf(t.records[id]) == KeyOf(s.records[id])
    {
      if id in EligibleIds(s) {
        assert InCluster(t, id, KeyOf(s.records[id]));
      }
      if id in EligibleIds(t) {
        assert InCluster(s, id, KeyOf(t.records[id]));
      }
    }
    assert EligibleIds(t) == EligibleIds(s);
    assert KeysOf(t, EligibleIds(t)) == KeysOf(s, EligibleIds(s));
  }

  // --- full runs ---

  /** What the query may return: `min(limit, losers)` distinct losers, in any order. Nothing is frozen. */
  ghost predicate FullSelection(s: State, limit: nat, targets: seq<Target>) {
    && Ids(targets) <= Losers(s)
    && (forall i, j :: 0 <= i < j < |targets| ==> targets[i].id != targets[j].id)
    && (forall t :: t in targets ==> !t.frozen && !t.refused)
    && |targets| == if |Losers(s)| <= limit then |Losers(s)| else limit
  }

  lemma {:induction false} DistinctIdsCount(targets: seq<Target>)
    requires forall i, j :: 0 <= i < j < |targets| ==> targets[i].id != targets[j].id
    ensures |Ids(targets)| == |targets|
  {
    if targets == [] {
    } else {
      DistinctIdsCount(targets[1..]);
      assert Ids(targets) == {targets[0].id} + Ids(targets[1..]);
      assert targets[0].id !in Ids(targets[1..]);
    }
  }

  lemma {:induction false} FullLoopArchivesAll(start: State, s: State, targets: seq<Target>, at: int)
    requires start.records.Keys == s.records.Keys
    requires forall t :: t in targets ==>
             t.id in s.records && StatusRecallable(s.records[t.id].status) && !t.frozen && !t.refused
    requires forall i, j :: 0 <= i < j < |targets| ==> targets[i].id != targets[j].id
    ensures forall t :: t in targets ==>
              t.id in s.records && GovernAll(start, s, ArchiveDuplicate, targets, at).0.records.Keys == s.records.Keys
              && GovernAll(start, s, ArchiveDuplicate, targets, at).0.records[t.id].status.lifecycle == Archived
    decreases |targets|
  {
    if targets == [] {
    } else {
      var one := GovernOne(start, s, ArchiveDuplicate, targets[0], at);
      FullLoopArchivesAll(start, one, targets[1..], at);
      ArchiveLoopOnlyArchives(start, one, targets[1..], at);
      assert targets[0].id !in Ids(targets[1..]);
    }
  }

  /** The archive loop of a full run removes exactly its targets from the losers; the backfill after it leaves their
      number alone. */
  lemma RunRemovesLosers(s: State, limit: nat, targets: seq<Target>, backfill: seq<Backfill>, at: int)
    requires FullSelection(s, limit, targets)
    ensures Losers(GovernAll(s, s, ArchiveDuplicate, targets, at).0) == Losers(s) - Ids(targets)
    ensures |Losers(AfterGovern(s, targets, [], backfill, at))| == if |Losers(s)| <= limit then 0
            else |Losers(s)| - limit
  {
    var t := GovernAll(s, s, ArchiveDuplicate, targets, at).0;
    ArchiveLoopOnlyArchives(s, s, targets, at);
    forall x | x in targets
      ensures x.id in s.records && StatusRecallable(s.records[x.id].status)
    {
      assert x.id in Ids(targets);
      assert x.id in Losers(s);
    }
    FullLoopArchivesAll(s, s, targets, at);
    forall id
      ensures id in Losers(t) <==> id in Losers(s) - Ids(targets)
    {
      LosersAfter(s, t, targets, id);
    }
    DistinctIdsCount(targets);
    assert Losers(s) == Ids(targets) + Losers(t);
    RunIsArchiveThenBackfill(s, targets, backfill, at);
    SameClustersCount(t, AfterGovern(s, targets, [], backfill, at));
  }

  lemma LosersAfter(s: State, t: State, targets: seq<Target>, id: MemoryId)
    requires OnlyArchives(s, t, Ids(targets)) && Ids(targets) <= Losers(s)
    requires forall x :: x in targets ==> x.id in t.records && t.records[x.id].status.lifecycle == Archived
    ensures IsLoser(t, id) <==> IsLoser(s, id) && id !in Ids(targets)
  {
    if IsLoser(t, id) {
      var other :| InCluster(t, other, KeyOf(t.records[id])) && Beats(t, other, id);
      assert InCluster(s, other, KeyOf(s.records[id])) && Beats(s, other, id);
    }
    if IsLoser(s, id) && id !in Ids(targets) {
      var winner := ClusterHasWinner(s, id);
      assert winner !in Ids(targets) && winner != id;
      PrecedesIsStrictTotal(s.records[winner], winner, s.records[id], id, s.records[id], id);
      if !Beats(s, winner, id) {
        assert Beats(s, id, winner) && InCluster(s, id, KeyOf(s.records[winner]));
      }
      assert InCluster(t, winner, KeyOf(t.records[id])) && Beats(t, winner, id);
    }
  }

  /** A governance run that finds no test pollution. */
  datatype ArchiveRun = ArchiveRun(targets: seq<Target>, backfill: seq<Backfill>, at: int)

  function AfterRun(s: State, run: ArchiveRun): State {
    AfterGovern(s, run.targets, [], run.backfill, run.at)
  }

  /** Consecutive full runs with one limit, each at its own time and with its own backfill. */
  ghost predicate FullRuns(s: State, limit: nat, runs: seq<ArchiveRun>)
    decreases |runs|
  {
    runs == [] || (FullSelection(s, limit, runs[0].targets) && FullRuns(AfterRun(s, runs[0]), limit, runs[1..]))
  }

  function AfterRuns(s: State, runs: seq<ArchiveRun>): State
    decreases |runs|
  {
    if runs == [] then s else AfterRuns(AfterRun(s, runs[0]), runs[1..])
  }

  /** Of two records in one cluster, one is a loser. */
  lemma TwoInClusterLose(s: State, key: Key, i: MemoryId, j: MemoryId)
    requires InCluster(s, i, key) && InCluster(s, j, key)
    ensures i == j || i in Losers(s) || j in Losers(s)
  {
    PrecedesIsStrictTotal(s.records[i], i, s.records[j], j, s.records[j], j);
    if i != j {
      assert Beats(s, i, j) || Beats(s, j, i);
    }
  }

  lemma OneRunLess(losers: nat, limit: nat, runs: nat)
    requires losers <= limit * (runs + 1)
    ensures (if losers <= limit then 0 else losers - limit) <= limit * runs
  {
  }

  /** Enough full runs leave every cluster with exactly one record, and never fewer. */
  lemma {:induction false} RunsLeaveOneSurvivor(s: State, limit: nat, runs: seq<ArchiveRun>, key: Key)
    requires FullRuns(s, limit, runs)
    requires |Losers(s)| <= limit * |runs|
    ensures HasContent(AfterRuns(s, runs), key) <==> HasContent(s, key)
    ensures forall i, j :: InCluster(AfterRuns(s, runs), i, key) && InCluster(AfterRuns(s, runs), j, key) ==> i == j
    decreases |runs|
  {
    if runs == [] {
      forall i, j | InCluster(s, i, key) && InCluster(s, j, key)
        ensures i == j
      {
        TwoInClusterLose(s, key, i, j);
      }
    } else {
      var run := runs[0];
      RunRemovesLosers(s, limit, run.targets, run.backfill, run.at);
      ArchivingLosersKeepsContent(s, run.targets, run.backfill, run.at, key);
      OneRunLess(|Losers(s)|, limit, |runs[1..]|);
      RunsLeaveOneSurvivor(AfterRun(s, run), limit, runs[1..], key);
    }
  }
}
