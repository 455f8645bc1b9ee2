/** One cell of the embedding calibration: a launcher that paces probes and stops after two limited answers in
    a row, interleaved with the probes it has in flight (scripts/embedding-calibration.ts). */
module Calibration {
  import opened Collections

  datatype Cell = Cell(concurrency: int, interval: int, requests: int)

  /** What a probe answers. `error` names the failure when no HTTP status was received. */
  datatype Probe = Probe(ok: bool, status: int, latency: int, error: string)

  datatype ErrorKey = Http(status: int) | Message(text: string)

  predicate IsLimited(p: Probe) {
    !p.ok && (p.status == 429 || p.status == 503)
  }

  function KeyOf(p: Probe): ErrorKey {
    if p.status > 0 then Http(p.status) else Message(p.error)
  }

  /** Where the launcher awaits: for a slot, for its pacing timer, for the last probes, or not at all. */
  datatype Phase = Racing | Sleeping | Draining | Done

  /** `active` is the set the launcher tests; a probe leaves it one microtask after its answer was recorded,
      and `waiting` are the probes without an answer yet. `arrived` and `answers` are in order of arrival. */
  datatype State = State(
    phase: Phase, launched: nat, active: set<nat>, waiting: set<nat>, arrived: seq<nat>, answers: seq<Probe>,
    latencies: seq<int>, success: nat, status429: nat, status503: nat, errors: multiset<ErrorKey>,
    consecutiveLimited: nat, stoppedEarly: bool)

  datatype Event = Wake | Answer(index: nat) | Leave(index: nat)

  function Launch(s: State): State {
    var index := s.launched + 1;
    s.(phase := Sleeping, launched := index, active := s.active + {index}, waiting := s.waiting + {index})
  }

  /** The inner loop: launch as soon as a slot is free. */
  function AtGate(c: Cell, s: State): State {
    if |s.active| >= c.concurrency then s.(phase := Racing) else Launch(s)
  }

  /** The head of the outer loop. */
  function AtHead(c: Cell, s: State): State {
    if s.launched >= c.requests then s.(phase := Draining)
    else if s.consecutiveLimited >= 2 then s.(phase := Draining, stoppedEarly := true)
    else AtGate(c, s)
  }

  function Start(c: Cell): State {
    AtHead(c, State(Racing, 0, {}, {}, [], [], [], 0, 0, 0, multiset{}, 0, false))
  }

  /** An answer is recorded. */
  function Record(s: State, p: Probe): State {
    var t := s.(latencies := s.latencies + [p.latency], answers := s.answers + [p]);
    if p.ok then t.(success := s.success + 1, consecutiveLimited := 0)
    else
      var u := t.(errors := s.errors + multiset{KeyOf(p)});
      if p.status == 429 then u.(status429 := s.status429 + 1, consecutiveLimited := s.consecutiveLimited + 1)
      else if p.status == 503 then u.(status503 := s.status503 + 1, consecutiveLimited := s.consecutiveLimited + 1)
      else u.(consecutiveLimited := 0)
  }

  /** A race among the active probes is won once one of them has left; a drain ends when all have. */
  predicate Enabled(c: Cell, s: State, e: Event) {
    match e
    case Wake =>
      (match s.phase
       case Racing => |s.active| < c.concurrency
       case Sleeping => true
       case Draining => s.active == {}
       case Done => false)
    case Answer(i) => i in s.waiting
    case Leave(i) => i in s.active - s.waiting
  }

  function Step(c: Cell, s: State, e: Event, answer: nat -> Probe): State
    requires Enabled(c, s, e)
  {
    match e
    case Wake =>
      (match s.phase
       case Racing => AtGate(c, s)
       case Sleeping => AtHead(c, s)
       case _ => s.(phase := Done))
    case Answer(i) => Record(s.(waiting := s.waiting - {i}, arrived := s.arrived + [i]), answer(i))
    case Leave(i) => s.(active := s.active - {i})
  }

  /** How many of the latest answers, counted back from the last one, were limited. */
  function LimitedSuffix(answers: seq<Probe>): nat {
    if answers == [] || !IsLimited(answers[|answers| - 1]) then 0
    else 1 + LimitedSuffix(answers[..|answers| - 1])
  }

  predicate Succeeded(p: Probe) { p.ok }
  predicate Limited429(p: Probe) { !p.ok && p.status == 429 }
  predicate Limited503(p: Probe) { !p.ok && p.status == 503 }

  /** The pacing half of the invariant: slots, launches and the reason for stopping. */
  ghost predicate Paced(c: Cell, s: State) {
    && s.waiting <= s.active && (forall i :: i in s.active ==> 1 <= i <= s.launched)
    && |s.active| <= (if c.concurrency > 0 then c.concurrency else 0)
    && s.launched == |s.answers| + |s.waiting|
    && (s.launched == 0 || s.launched <= c.requests)
    && (s.phase == Racing ==> s.launched < c.requests)
    && (s.phase == Racing || s.phase == Sleeping ==> !s.stoppedEarly)
    && (s.phase == Draining || s.phase == Done ==> (s.stoppedEarly <==> s.launched < c.requests))
    && (s.phase == Done ==> s.active == {})
    && (s.stoppedEarly ==> exists k :: LimitedPair(s.answers, k))
  }

  predicate LimitedPair(answers: seq<Probe>, k: nat) {
    k + 1 < |answers| && IsLimited(answers[k]) && IsLimited(answers[k + 1])
  }

  /** The counting half: every counter is what the answers so far amount to. */
  ghost predicate Tallied(s: State) {
    && LatenciesOf(s.latencies, s.answers)
    && s.success == Count(s.answers, Succeeded)
    && s.status429 == Count(s.answers, Limited429)
    && s.status503 == Count(s.answers, Limited503)
    && ErrorsCover(s) && ErrorsOf(s.errors, s.answers)
    && s.consecutiveLimited == LimitedSuffix(s.answers)
  }

  ghost predicate LatenciesOf(latencies: seq<int>, answers: seq<Probe>) {
    |latencies| == |answers| && forall i :: 0 <= i < |answers| ==> latencies[i] == answers[i].latency
  }

  /** The failures a key names: those with its status, or, without a status, those with its text. */
  function FailedWith(key: ErrorKey): Probe -> bool {
    match key
    case Http(status) => (p: Probe) => !p.ok && p.status > 0 && p.status == status
    case Message(text) => (p: Probe) => !p.ok && p.status <= 0 && p.error == text
  }

  /** Each key counts the failed answers that it names. */
  ghost predicate ErrorsOf(errors: multiset<ErrorKey>, answers: seq<Probe>) {
    forall key :: errors[key] == Count(answers, FailedWith(key))
  }

  ghost predicate ErrorsCover(s: State) {
    && s.success + |s.errors| == |s.answers|
    && s.status429 <= s.errors[Http(429)] && s.status503 <= s.errors[Http(503)]
    && s.status429 + s.status503 <= |s.errors|
  }

  /** Every launched probe is either still waited for or arrived exactly once, with its own answer. */
  ghost predicate Arrived(s: State, answer: nat -> Probe) {
    ArrivedOnce(s.arrived, s.waiting, s.launched) && AnswersOf(s.arrived, s.answers, answer)
  }

  ghost predicate ArrivedOnce(arrived: seq<nat>, waiting: set<nat>, launched: nat) {
    && (forall k :: 0 <= k < |arrived| ==> arrived[k] !in waiting)
    && (forall j, k :: 0 <= j < k < |arrived| ==> arrived[j] != arrived[k])
    && (forall i :: i in arrived || i in waiting <==> 1 <= i <= launched)
  }

  ghost predicate AnswersOf(arrived: seq<nat>, answers: seq<Probe>, answer: nat -> Probe) {
    |arrived| == |answers| && forall k :: 0 <= k < |arrived| ==> answers[k] == answer(arrived[k])
  }

  lemma HeadKeepsPaced(c: Cell, s: State)
    requires Paced(c, s.(phase := Sleeping))
    requires s.consecutiveLimited == LimitedSuffix(s.answers)
    ensures Paced(c, AtHead(c, s))
  {
    if s.launched < c.requests && s.consecutiveLimited >= 2 {
      var n := |s.answers|;
      assert s.answers[..n - 1][n - 2] == s.answers[n - 2];
      assert LimitedPair(s.answers, n - 2);
    } else if s.launched < c.requests {
      GateKeepsPaced(c, s);
    }
  }

  lemma GateKeepsPaced(c: Cell, s: State)
    requires Paced(c, s.(phase := Sleeping)) && s.launched < c.requests
    ensures Paced(c, AtGate(c, s))
  {
  }

  lemma StartIsPaced(c: Cell, answer: nat -> Probe)
    ensures Paced(c, Start(c)) && Tallied(Start(c)) && Arrived(Start(c), answer)
  {
  }

  lemma RecordKeepsErrorsCover(s: State, p: Probe)
    requires ErrorsCover(s)
    ensures ErrorsCover(Record(s, p))
  {
  }

  lemma ErrorsOneMore(errors: multiset<ErrorKey>, answers: seq<Probe>, p: Probe)
    requires ErrorsOf(errors, answers)
    ensures ErrorsOf(if p.ok then errors else errors + multiset{KeyOf(p)}, answers + [p])
  {
    forall key
      ensures Count(answers + [p], FailedWith(key)) == Count(answers, FailedWith(key)) + if !p.ok
              && KeyOf(p) == key then 1 else 0
    {
      CountOneMore(answers, p, FailedWith(key));
    }
  }

  lemma RecordKeepsTallied(s: State, p: Probe)
    requires Tallied(s)
    ensures Tallied(Record(s, p))
  {
    RecordKeepsErrorsCover(s, p);
    ErrorsOneMore(s.errors, s.answers, p);
    CountOneMore(s.answers, p, Succeeded);
    CountOneMore(s.answers, p, Limited429);
    CountOneMore(s.answers, p, Limited503);
    assert (s.answers + [p])[..|s.answers|] == s.answers;
  }

  lemma HeadLaunchesAtMostOne(c: Cell, s: State)
    ensures AtHead(c, s) == Launch(s) || (exists p, b :: AtHead(c, s) == s.(phase := p, stoppedEarly := b))
    ensures AtGate(c, s) == Launch(s) || AtGate(c, s) == s.(phase := Racing)
  {
    assert AtHead(c, s) == Launch(s) || AtHead(c, s)
        == s.(phase := AtHead(c, s).phase, stoppedEarly := AtHead(c, s).stoppedEarly);
  }

  /** An event other than an answer either launches the next probe or leaves launches and answers alone. */
  lemma OtherEventsLaunchAtMostOne(c: Cell, s: State, e: Event, answer: nat -> Probe)
    requires Enabled(c, s, e) && !e.Answer?
    ensures var t := Step(c, s, e, answer);
            && t.arrived == s.arrived && t.answers == s.answers
            && t.latencies == s.latencies && t.success == s.success && t.status429 == s.status429
                 && t.status503 == s.status503
            && t.errors == s.errors && t.consecutiveLimited == s.consecutiveLimited
            && (t == Launch(s) || (t.waiting == s.waiting && t.launched == s.launched))
  {
    HeadLaunchesAtMostOne(c, s);
  }

  lemma StepKeepsTallied(c: Cell, s: State, e: Event, answer: nat -> Probe)
    requires Tallied(s) && Enabled(c, s, e)
    ensures Tallied(Step(c, s, e, answer))
  {
    if e.Answer? {
      RecordKeepsTallied(s.(waiting := s.waiting - {e.index}, arrived := s.arrived + [e.index]), answer(e.index));
    } else {
      OtherEventsLaunchAtMostOne(c, s, e, answer);
    }
  }

  lemma LaunchedOneMore(arrived: seq<nat>, waiting: set<nat>, launched: nat)
    requires ArrivedOnce(arrived, waiting, launched)
    ensures ArrivedOnce(arrived, waiting + {launched + 1}, launched + 1)
  {
  }

  lemma ArrivedOneMore(arrived: seq<nat>, waiting: set<nat>, launched: nat, i: nat)
    requires ArrivedOnce(arrived, waiting, launched) && i in waiting
    ensures ArrivedOnce(arrived + [i], waiting - {i}, launched)
  {
  }

  lemma AnswerArrives(c: Cell, s: State, i: nat, answer: nat -> Probe)
    requires Enabled(c, s, Answer(i))
    ensures var t := Step(c, s, Answer(i), answer);
            && t.arrived == s.arrived + [i] && t.answers == s.answers + [answer(i)] && t.waiting == s.waiting - {i}
            && t.launched == s.launched && t.active == s.active
            && t.phase == s.phase && t.stoppedEarly == s.stoppedEarly
  {
  }

  lemma StepKeepsArrived(c: Cell, s: State, e: Event, answer: nat -> Probe)
    requires Arrived(s, answer) && Enabled(c, s, e)
    ensures Arrived(Step(c, s, e, answer), answer)
  {
    if e.Answer? {
      AnswerArrives(c, s, e.index, answer);
      ArrivedOneMore(s.arrived, s.waiting, s.launched, e.index);
      AnswersOneMore(s.arrived, s.answers, e.index, answer);
    } else {
      OtherEventsLaunchAtMostOne(c, s, e, answer);
      LaunchedOneMore(s.arrived, s.waiting, s.launched);
    }
  }

  lemma AnswersOneMore(arrived: seq<nat>, answers: seq<Probe>, i: nat, answer: nat -> Probe)
    requires AnswersOf(arrived, answers, answer)
    ensures AnswersOf(arrived + [i], answers + [answer(i)], answer)
  {
  }

  lemma StepKeepsPaced(c: Cell, s: State, e: Event, answer: nat -> Probe)
    requires Paced(c, s) && s.consecutiveLimited == LimitedSuffix(s.answers) && Enabled(c, s, e)
    ensures Paced(c, Step(c, s, e, answer))
  {
    match e
    case Wake =>
      if s.phase == Racing { GateKeepsPaced(c, s); }
      if s.phase == Sleeping { HeadKeepsPaced(c, s); }
    case Answer(i) => AnswerKeepsPaced(c, s, i, answer);
    case Leave(i) =>
  }

  lemma AnswerKeepsPaced(c: Cell, s: State, i: nat, answer: nat -> Probe)
    requires Paced(c, s) && i in s.waiting
    ensures Paced(c, Step(c, s, Answer(i), answer))
  {
    AnswerArrives(c, s, i, answer);
    if s.stoppedEarly {
      var k :| LimitedPair(s.answers, k);
      assert LimitedPair(s.answers + [answer(i)], k);
    }
  }

  // --- When the launcher stops ---

  /** The last two answers were rate-limited. */
  predicate JustLimitedTwice(answers: seq<Probe>) {
    |answers| >= 2 && forall k :: |answers| - 2 <= k < |answers| ==> !answers[k].ok && answers[k].status in {429, 503}
  }

  lemma SuffixOfTwo(answers: seq<Probe>)
    ensures LimitedSuffix(answers) >= 2 <==> JustLimitedTwice(answers)
  {
    var n := |answers|;
    if n >= 2 {
      assert answers[..n - 1][n - 2] == answers[n - 2];
    }
  }

  /** When the pacing timer fires and requests are left, the launcher stops early exactly if the last two answers were
      limited; it then launches nothing more. */
  lemma StopsIffJustLimitedTwice(c: Cell, s: State, answer: nat -> Probe)
    requires Tallied(s) && s.phase == Sleeping && !s.stoppedEarly && s.launched < c.requests
    ensures var t := Step(c, s, Wake, answer);
            && (t.stoppedEarly <==> JustLimitedTwice(s.answers))
            && (t.stoppedEarly ==> t.phase == Draining && t.launched == s.launched)
  {
    SuffixOfTwo(s.answers);
  }

  function Slots(c: Cell): nat {
    if c.concurrency > 0 then c.concurrency else 0
  }

  predicate AllLimited(answers: seq<Probe>) {
    forall k :: 0 <= k < |answers| ==> !answers[k].ok && answers[k].status in {429, 503}
  }

  /** As long as all answers are limited, at most two launches follow those that filled the slots. */
  ghost predicate Braked(c: Cell, s: State) {
    AllLimited(s.answers) ==> s.launched <= Slots(c) + if s.phase == Racing then 1 else 2
  }

  lemma GateKeepsBraked(c: Cell, s: State)
    requires |s.active| <= Slots(c) && s.waiting <= s.active && s.launched == |s.answers| + |s.waiting|
    requires AllLimited(s.answers) ==> |s.answers| <= 1
    ensures Braked(c, AtGate(c, s))
  {
    SubsetSize(s.waiting, s.active);
  }

  lemma StepKeepsBraked(c: Cell, s: State, e: Event, answer: nat -> Probe)
    requires Paced(c, s) && Tallied(s) && Braked(c, s) && Enabled(c, s, e)
    ensures Braked(c, Step(c, s, e, answer))
  {
    match e
    case Wake =>
      if s.phase == Sleeping && s.launched < c.requests {
        SuffixOfTwo(s.answers);
        if s.consecutiveLimited < 2 {
          GateKeepsBraked(c, s);
        }
      }
    case Answer(i) =>
      AnswerArrives(c, s, i, answer);
      assert forall k :: 0 <= k < |s.answers| ==> (s.answers + [answer(i)])[k] == s.answers[k];
    case Leave(i) =>
  }

  /** A bound on the events still to come. */
  function Rank(c: Cell, s: State): nat {
    4 * (if s.launched <= c.requests then c.requests - s.launched else 0) + |s.active| + |s.waiting|
    + (match s.phase case Racing => 2 case Sleeping => 3 case Draining => 1 case Done => 0)
  }

  lemma LaunchLowersRank(c: Cell, s: State)
    requires Paced(c, s.(phase := Sleeping)) && s.launched < c.requests
    ensures Rank(c, Launch(s)) == Rank(c, s.(phase := Sleeping)) - 2
  {
    var index := s.launched + 1;
    assert index !in s.active && index !in s.waiting;
  }

  lemma WakeLowersRank(c: Cell, s: State)
    requires Paced(c, s) && Enabled(c, s, Wake)
    ensures Rank(c, if s.phase == Racing then AtGate(c, s) else if s.phase == Sleeping then AtHead(c, s)
            else s.(phase := Done)) < Rank(c, s)
  {
    if s.launched < c.requests && !s.stoppedEarly {
      LaunchLowersRank(c, s);
    }
  }

  lemma StepLowersRank(c: Cell, s: State, e: Event, answer: nat -> Probe)
    requires Paced(c, s) && Enabled(c, s, e)
    ensures Rank(c, Step(c, s, e, answer)) < Rank(c, s)
  {
    match e
    case Wake => WakeLowersRank(c, s);
    case Answer(i) => assert Record(s.(waiting := s.waiting - {i}, arrived := s.arrived + [i]), answer(i)).waiting
        == s.waiting - {i};
    case Leave(i) =>
  }

  /** The events that may happen next, as a finite set. */
  function Choices(c: Cell, s: State): (r: set<Event>)
    ensures forall e :: e in r <==> Enabled(c, s, e)
  {
    (if Enabled(c, s, Wake) then {Wake} else {})
    + (set i | i in s.waiting :: Answer(i)) + (set i | i in s.active - s.waiting :: Leave(i))
  }

  /** A cell that is not done stands still exactly when it has requests but no slot to send them in. */
  lemma StuckIff(c: Cell, s: State)
    requires Paced(c, s)
    ensures Choices(c, s) == {} <==> s.phase == Done || (s.phase == Racing && c.concurrency <= 0)
  {
    if s.active != {} {
      var i :| i in s.active;
      assert Enabled(c, s, if i in s.waiting then Answer(i) else Leave(i));
    } else if (s.phase == Racing && c.concurrency > 0) || s.phase == Sleeping || s.phase == Draining {
      assert Enabled(c, s, Wake);
    } else {
      assert s.waiting == {};
    }
  }

  ghost predicate Plays(c: Cell, s: State, events: seq<Event>, answer: nat -> Probe)
    decreases |events|
  {
    events == [] || (Enabled(c, s, events[0]) && Plays(c, Step(c, s, events[0], answer), events[1..], answer))
  }

  function Play(c: Cell, s: State, events: seq<Event>, answer: nat -> Probe): State
    requires Plays(c, s, events, answer)
    decreases |events|
  {
    if events == [] then s else Play(c, Step(c, s, events[0], answer), events[1..], answer)
  }

  lemma {:induction false} PlayKeepsAccounts(c: Cell, s: State, events: seq<Event>, answer: nat -> Probe)
    requires Paced(c, s) && Tallied(s) && Arrived(s, answer) && Plays(c, s, events, answer)
    ensures var t := Play(c, s, events, answer);
            Paced(c, t) && Tallied(t) && Arrived(t, answer) && |events| + Rank(c, t) <= Rank(c, s)
    decreases |events|
  {
    if events == [] {
    } else {
      StepKeepsPaced(c, s, events[0], answer);
      StepKeepsTallied(c, s, events[0], answer);
      StepKeepsArrived(c, s, events[0], answer);
      StepLowersRank(c, s, events[0], answer);
      PlayKeepsAccounts(c, Step(c, s, events[0], answer), events[1..], answer);
    }
  }

  /** In every reachable state: slots are respected, and after every interleaving the cell has played a bounded
      number of events. */
  lemma EveryInterleavingIsPaced(c: Cell, events: seq<Event>, answer: nat -> Probe)
    requires Plays(c, Start(c), events, answer)
    ensures var s := Play(c, Start(c), events, answer);
            && (c.concurrency >= 0 ==> |s.waiting| <= |s.active| <= c.concurrency)
            && |s.latencies| == s.success + |s.errors| == |s.answers|
            && s.launched == |s.answers| + |s.waiting|
    ensures |events| <= 4 * (if c.requests > 0 then c.requests else 0) + 3
  {
    StartIsPaced(c, answer);
    PlayKeepsAccounts(c, Start(c), events, answer);
    var s := Play(c, Start(c), events, answer);
    SubsetSize(s.waiting, s.active);
  }
}
