/** The report of a calibration cell and the recommendation drawn from all of them
    (scripts/embedding-calibration.ts). Durations are parameters; percentiles and rates are exact numbers. */
module CalibrationReport {
  import opened Options
  import opened Collections
  import opened StableSort
  import opened Calibration

  datatype CellReport = CellReport(
    cell: Cell, attempted: nat, success: nat, status429: nat, status503: nat, failed: int,
    p50: int, p95: int, p99: int, throughput: real, effective: real, stoppedEarly: bool, errors: multiset<ErrorKey>)

  predicate AtMost(x: int, y: int) { x <= y }

  /** Nearest-rank percentile; 0 for no values. */
  function Percentile(values: seq<int>, p: nat): int
    requires 1 <= p <= 100
  {
    if values == [] then 0
    else
      RankWithin(|values|, p);
      Sort(values, AtMost)[(p * |values| + 99) / 100 - 1]
  }

  lemma RankWithin(n: nat, p: nat)
    requires 1 <= p <= 100 && n > 0
    ensures 1 <= (p * n + 99) / 100 <= n
    ensures 100 * ((p * n + 99) / 100) >= p * n > 100 * ((p * n + 99) / 100 - 1)
  {
    var product := p * n;
    assert product >= 1 by { assert product == (p - 1) * n + n; }
    assert product <= 100 * n by { assert 100 * n - product == (100 - p) * n; }
  }

  function UpTo(v: int): int -> bool { x => x <= v }
  function Under(v: int): int -> bool { x => x < v }

  /** Around position `k` of the sorted values. */
  lemma SortedCounts(values: seq<int>, k: nat)
    requires k < |values|
    ensures var v := Sort(values, AtMost)[k];
            v in values && Count(values, UpTo(v)) >= k + 1 && Count(values, Under(v)) <= k
  {
    var sorted := Sort(values, AtMost);
    var v := sorted[k];
    SortSorts(values, AtMost);
    SortMembers(values, AtMost);
    assert v in sorted;
    CountSorted(values, AtMost, UpTo(v));
    CountSorted(values, AtMost, Under(v));
    forall i | 0 <= i < |sorted|
      ensures (i <= k ==> sorted[i] <= v) && (i >= k ==> sorted[i] >= v)
    {
      assert i < k ==> AtMost(sorted[i], sorted[k]);
      assert i > k ==> AtMost(sorted[k], sorted[i]);
    }
    CountAtPrefix(sorted, k + 1, UpTo(v));
    CountAtPrefix(sorted, k, Under(v));
  }

  /** A percentile is one of the values: at least `p` percent are no larger, fewer than `p` percent smaller. */
  lemma PercentileIsNearestRank(values: seq<int>, p: nat)
    requires 1 <= p <= 100 && values != []
    ensures var v := Percentile(values, p);
            && v in values
            && 100 * Count(values, UpTo(v)) >= p * |values|
            && 100 * Count(values, Under(v)) < p * |values|
  {
    RankWithin(|values|, p);
    SortedCounts(values, (p * |values| + 99) / 100 - 1);
  }

  /** A rate over `elapsed` seconds, a millisecond at least. */
  function PerSecond(count: nat, elapsed: real): (r: real)
    ensures elapsed >= 0.001 ==> r * elapsed == count as real
    ensures elapsed < 0.001 ==> r == 1000.0 * count as real
  {
    count as real / if elapsed < 0.001 then 0.001 else elapsed
  }

  function ReportOf(c: Cell, s: State, elapsed: real): CellReport {
    CellReport(c, |s.latencies|, s.success, s.status429, s.status503, |s.latencies| - s.success,
               Percentile(s.latencies, 50), Percentile(s.latencies, 95), Percentile(s.latencies, 99),
               PerSecond(|s.latencies|, elapsed), PerSecond(s.success, elapsed), s.stoppedEarly, s.errors)
  }

  /** What a report says about the probes: `arrived` lists the launches in order of answer. */
  ghost predicate Accounts(r: CellReport, arrived: seq<nat>, answer: nat -> Probe) {
    var answers := seq(|arrived|, k requires 0 <= k < |arrived| => answer(arrived[k]));
    && r.attempted == |arrived|
    && r.success == Count(answers, Succeeded)
    && r.status429 == Count(answers, Limited429) && r.status503 == Count(answers, Limited503)
    && r.failed == |r.errors| == r.attempted - r.success && r.failed >= r.status429 + r.status503
    && ErrorsOf(r.errors, answers)
    && (r.stoppedEarly <==> r.attempted < r.cell.requests)
    && (r.stoppedEarly ==> exists k :: LimitedPair(answers, k))
  }

  /** The percentiles and rates of a report, for a cell that took `elapsed` seconds. */
  ghost predicate Measures(r: CellReport, arrived: seq<nat>, answer: nat -> Probe, elapsed: real) {
    var latencies := seq(|arrived|, k requires 0 <= k < |arrived| => answer(arrived[k]).latency);
    && r.p50 == Percentile(latencies, 50) && r.p95 == Percentile(latencies, 95) && r.p99 == Percentile(latencies, 99)
    && r.throughput == PerSecond(|arrived|, elapsed) && r.effective == PerSecond(r.success, elapsed)
  }

  /** The launches of a finished cell are 1, 2, … up to the number attempted, each answered once. */
  ghost predicate EachOnce(arrived: seq<nat>) {
    && (forall j, k :: 0 <= j < k < |arrived| ==> arrived[j] != arrived[k])
    && (forall i :: i in arrived <==> 1 <= i <= |arrived|)
  }

  lemma DoneAccounts(c: Cell, s: State, elapsed: real, answer: nat -> Probe)
    requires Paced(c, s) && Tallied(s) && Arrived(s, answer) && s.phase == Done
    ensures Accounts(ReportOf(c, s, elapsed), s.arrived, answer) && EachOnce(s.arrived)
  {
    assert s.waiting == {};
    assert s.answers == seq(|s.arrived|, k requires 0 <= k < |s.arrived| => answer(s.arrived[k]));
  }

  lemma DoneMeasures(c: Cell, s: State, elapsed: real, answer: nat -> Probe)
    requires Tallied(s) && Arrived(s, answer)
    ensures Measures(ReportOf(c, s, elapsed), s.arrived, answer, elapsed)
  {
    assert s.latencies == seq(|s.arrived|, k requires 0 <= k < |s.arrived| => answer(s.arrived[k]).latency);
  }

  /** `runCell`: the launcher and its probes take turns in any order the runtime chooses. */
  method RunCell(c: Cell, answer: nat -> Probe, elapsed: real) returns (report: CellReport, arrived: seq<nat>)
    requires c.concurrency >= 1
    ensures report.cell == c
    ensures Accounts(report, arrived, answer) && EachOnce(arrived)
    ensures Measures(report, arrived, answer, elapsed)
    ensures (forall i :: !answer(i).ok && answer(i).status in {429, 503}) ==> report.attempted <= c.concurrency + 2
  {
    var s := Start(c);
    StartIsPaced(c, answer);
    while s.phase != Done
      invariant Paced(c, s) && Tallied(s) && Arrived(s, answer) && Braked(c, s)
      decreases Rank(c, s)
    {
      StuckIff(c, s);
      var e :| e in Choices(c, s);
      StepKeepsBraked(c, s, e, answer);
      StepKeepsPaced(c, s, e, answer);
      StepKeepsTallied(c, s, e, answer);
      StepKeepsArrived(c, s, e, answer);
      StepLowersRank(c, s, e, answer);
      s := Step(c, s, e, answer);
    }
    assert (forall i :: !answer(i).ok && answer(i).status in {429, 503}) ==> AllLimited(s.answers);
    DoneAccounts(c, s, elapsed, answer);
    DoneMeasures(c, s, elapsed, answer);
    report, arrived := ReportOf(c, s, elapsed), s.arrived;
  }

  predicate Stable(r: CellReport) {
    r.attempted == r.cell.requests && r.status429 == 0 && r.status503 == 0 && r.failed == 0
  }

  predicate Unlimited(r: CellReport) {
    r.status429 == 0 && r.status503 == 0
  }

  predicate FasterFirst(a: CellReport, b: CellReport) {
    a.effective > b.effective || (a.effective == b.effective &&
    (a.p95 < b.p95 || (a.p95 == b.p95 && a.cell.interval <= b.cell.interval)))
  }

  predicate FewerFailuresFirst(a: CellReport, b: CellReport) {
    a.failed < b.failed || (a.failed == b.failed && a.effective >= b.effective)
  }

  predicate LessLimitedFirst(a: CellReport, b: CellReport) {
    a.status429 + a.status503 <= b.status429 + b.status503
  }

  function First(cells: seq<CellReport>): Option<CellReport> {
    if cells == [] then None else Some(cells[0])
  }

  /** The recommended cell, and the list of reports as it is left: only the last fallback sorts it in place. */
  function Recommend(cells: seq<CellReport>): (Option<CellReport>, seq<CellReport>) {
    var stable := Sort(Filter(cells, Stable), FasterFirst);
    if stable != [] then (First(stable), cells)
    else
      var unlimited := Sort(Filter(cells, Unlimited), FewerFailuresFirst);
      if unlimited != [] then (First(unlimited), cells)
      else
        var sorted := Sort(cells, LessLimitedFirst);
        (First(sorted), sorted)
  }

  /** The head of a sorted list is a best element of the original, and the earliest of the best. */
  lemma HeadIsBest(cells: seq<CellReport>, le: (CellReport, CellReport) -> bool)
    requires TotalPreorder(le) && cells != []
    ensures var best := Sort(cells, le)[0];
            && best in cells && (forall r :: r in cells ==> le(best, r))
            && Ties(cells, best, le) != [] && Ties(cells, best, le)[0] == best
  {
    var sorted := Sort(cells, le);
    SortSorts(cells, le);
    SortMembers(cells, le);
    SortIsStable(cells, sorted[0], le);
    forall r | r in cells
      ensures le(sorted[0], r)
    {
      assert r in sorted;
    }
  }

  /** No lower effective rate; at the same rate no higher 95th percentile; at the same of both no longer interval. */
  predicate NoSlower(best: CellReport, r: CellReport) {
    && best.effective >= r.effective
    && (best.effective == r.effective ==> best.p95 <= r.p95)
    && (best.effective == r.effective && best.p95 == r.p95 ==> best.cell.interval <= r.cell.interval)
  }

  /** When a stable cell exists the recommendation is a stable one that no stable cell beats, and the earliest of
      those it ties with. */
  lemma RecommendsBestStable(cells: seq<CellReport>)
    requires exists r :: r in cells && Stable(r)
    ensures var (selected, left) := Recommend(cells);
            && selected.Some? && left == cells
            && selected.value in cells && Stable(selected.value)
            && (forall r :: r in cells && Stable(r) ==> NoSlower(selected.value, r))
            && First(Ties(Filter(cells, Stable), selected.value, FasterFirst)) == selected
  {
    FilterMembers(cells, Stable);
    var r :| r in cells && Stable(r);
    assert r in Filter(cells, Stable);
    HeadIsBest(Filter(cells, Stable), FasterFirst);
  }

  /** Without a stable cell the recommendation still avoids rate limiting whenever some cell did, with the fewest
      failures; otherwise it is a least limited cell. It is empty only without cells. */
  lemma RecommendsLeastBad(cells: seq<CellReport>)
    requires forall r :: r in cells ==> !Stable(r)
    ensures var (selected, left) := Recommend(cells);
            && (selected == None <==> cells == [])
            && (selected.Some? ==> selected.value in cells)
            && ((exists r :: r in cells && r.status429 == 0 && r.status503 == 0) ==>
                  selected.Some? && selected.value.status429 == 0 && selected.value.status503 == 0 && left == cells
                  && forall r :: r in cells && r.status429 == 0 && r.status503 == 0 ==>
                       && selected.value.failed <= r.failed
                       && (selected.value.failed == r.failed ==> selected.value.effective >= r.effective))
            && ((forall r :: r in cells ==> r.status429 > 0 || r.status503 > 0) && selected.Some? ==>
                  forall r :: r in cells ==>
                    selected.value.status429 + selected.value.status503 <= r.status429 + r.status503)
            && multiset(left) == multiset(cells)
  {
    FilterMembers(cells, Stable);
    FilterMembers(cells, Unlimited);
    if Filter(cells, Stable) != [] {
      assert Filter(cells, Stable)[0] in Filter(cells, Stable);
    }
    if Filter(cells, Unlimited) != [] {
      HeadIsBest(Filter(cells, Unlimited), FewerFailuresFirst);
      assert Filter(cells, Unlimited)[0] in Filter(cells, Unlimited);
    } else if cells != [] {
      HeadIsBest(cells, LessLimitedFirst);
      SortSorts(cells, LessLimitedFirst);
    }
  }

  /** The reports come from cells that were run, so a stable recommendation never stopped early. */
  lemma StableNeverStoppedEarly(r: CellReport, arrived: seq<nat>, answer: nat -> Probe)
    requires Accounts(r, arrived, answer) && Stable(r)
    ensures !r.stoppedEarly && r.success == r.cell.requests && r.errors == multiset{}
  {
  }

  /** A report that `RunCell` produced. */
  ghost predicate Ran(r: CellReport) {
    exists arrived: seq<nat>, answer: nat -> Probe :: Accounts(r, arrived, answer)
  }

  /** All requests were sent and none failed. */
  predicate Clean(r: CellReport) {
    r.attempted == r.cell.requests && r.failed == 0
  }

  lemma StableIffClean(r: CellReport)
    requires Ran(r)
    ensures Stable(r) <==> Clean(r)
  {
  }

  /** From the cells to the recommendation: if some cell that was run is clean, the one recommended is a best clean one,
      was never stopped early, and all of its probes succeeded. */
  lemma RecommendedCellSucceeded(cells: seq<CellReport>)
    requires forall r :: r in cells ==> Ran(r)
    requires exists r :: r in cells && Clean(r)
    ensures var selected := Recommend(cells).0;
            && selected.Some? && selected.value in cells && Clean(selected.value)
            && (forall r :: r in cells && Clean(r) ==> NoSlower(selected.value, r))
            && !selected.value.stoppedEarly && selected.value.success == selected.value.cell.requests
            && selected.value.errors == multiset{}
  {
    forall r | r in cells
      ensures Stable(r) <==> Clean(r)
    {
      StableIffClean(r);
    }
    RecommendsBestStable(cells);
    var best := Recommend(cells).0.value;
    assert Ran(best);
    var arrived, answer: nat -> Probe :| Accounts(best, arrived, answer);
    StableNeverStoppedEarly(best, arrived, answer);
  }

  /** `recommend` sorts the caller's list of reports in its last fallback. */
  method RecommendIn(cells: array<CellReport>) returns (selected: Option<CellReport>)
    modifies cells
    ensures (selected, cells[..]) == Recommend(old(cells[..]))
  {
    var stable := Sort(Filter(cells[..], Stable), FasterFirst);
    if stable != [] { return Some(stable[0]); }
    var unlimited := Sort(Filter(cells[..], Unlimited), FewerFailuresFirst);
    if unlimited != [] { return Some(unlimited[0]); }
    var sorted := Sort(cells[..], LessLimitedFirst);
    forall i | 0 <= i < cells.Length {
      cells[i] := sorted[i];
    }
    assert cells[..] == sorted;
    selected := First(sorted);
  }
}
