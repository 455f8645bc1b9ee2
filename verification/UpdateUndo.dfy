/** Auto-updates replace one recallable record by another, and rolling them back in reverse order undoes
    them. */
module UpdateUndo {
  import opened Options
  import opened Ledger

  /** A single apply takes the old record out of recall and puts the candidate in, provided the candidate's
      own recall policy is the default one; nothing else changes. */
  lemma ApplyReplaces(s: State, r: ApplyRequest)
    requires ApplyOutcome(s, r) == None
    ensures RecallableIds(AfterApply(s, r))
         == RecallableIds(s) - {OldOf(s, r)} + (if s.records[r.candidate].policy == DefaultPolicy then {r.candidate}
             else {})
    ensures forall id :: id in s.records && id != OldOf(s, r) && id != r.candidate ==>
            AfterApply(s, r).records[id] == s.records[id]
  {
  }

  predicate AcceptedReview(review: Review) {
    review != Pending && review != ReviewRejected
  }

  /** Rolling a decision back at once restores the recallable set exactly when the candidate was not recallable, and the
      old record, unless it is the candidate itself, was recallable or is kept out for good by its policy or a rejected
      review. */
  lemma RollbackUndoesApplyIff(s: State, r: ApplyRequest, at: int)
    requires ApplyOutcome(s, r) == None
    ensures RollbackOutcome(AfterApply(s, r), |s.actions|) == None
    ensures RecallableIds(AfterRollback(AfterApply(s, r), |s.actions|, at)) == RecallableIds(s)
       <==> !IsRecallable(s, r.candidate) && (OldOf(s, r) == r.candidate || ComesBack(s, OldOf(s, r)))
  {
    var prior := OldOf(s, r);
    var t := AfterRollback(AfterApply(s, r), |s.actions|, at);
    assert t.records.Keys == s.records.Keys;
    assert forall id :: id in s.records && id != prior && id != r.candidate ==> t.records[id] == s.records[id];
    assert r.candidate !in RecallableIds(t);
    if prior != r.candidate {
      var was := s.records[prior];
      assert prior in RecallableIds(t) <==> was.policy == DefaultPolicy && was.status.review != ReviewRejected;
    }
    assert r.candidate in RecallableIds(s) <==> IsRecallable(s, r.candidate);
    assert prior in RecallableIds(s) <==> IsRecallable(s, prior);
    if RecallableIds(t) != RecallableIds(s) {
      var id :| id in RecallableIds(t) <==> id !in RecallableIds(s);
      assert id == prior || id == r.candidate;
    }
  }

  /** An old record that a rollback puts into recall was there before. */
  predicate ComesBack(s: State, id: MemoryId)
    requires id in s.records
  {
    var r := s.records[id];
    r.policy == DefaultPolicy && r.status.review != ReviewRejected ==> StatusRecallable(r.status)
  }

  /** Each apply of a chain succeeds, replaces a recallable record and promotes one that is not. */
  ghost predicate GoodChain(s: State, rs: seq<ApplyRequest>)
    decreases |rs|
  {
    rs == [] ||
    (&& ApplyOutcome(s, rs[0]) == None
     && IsRecallable(s, OldOf(s, rs[0]))
     && !IsRecallable(s, rs[0].candidate)
     && GoodChain(AfterApply(s, rs[0]), rs[1..]))
  }

  /** All applies in order, then the rollbacks of their decisions in reverse order. The first decision gets
      number `first`. */
  function ThereAndBack(rs: seq<ApplyRequest>, first: nat, at: int): seq<Command> {
    if rs == [] then []
    else [Apply(rs[0])] + ThereAndBack(rs[1..], first + 1, at) + [Rollback(first, at)]
  }

  /** What no apply and no rollback takes away: policies, facts, accepted reviews and the earlier actions. */
  ghost predicate Carried(s: State, t: State) {
    && t.records.Keys == s.records.Keys
    && (forall id :: id in s.records ==>
          t.records[id].policy == s.records[id].policy && t.records[id].facts == s.records[id].facts)
    && (forall id :: id in s.records && AcceptedReview(s.records[id].status.review) ==>
          AcceptedReview(t.records[id].status.review))
    && |s.actions| <= |t.actions|
    && (forall i :: 0 <= i < |s.actions| ==> t.actions[i] == s.actions[i])
  }

  /** What an undone chain leaves in place, next to the recallable set. */
  ghost predicate Undone(s: State, t: State) {
    Carried(s, t) && RecallableIds(t) == RecallableIds(s)
  }

  lemma ApplyCarries(s: State, r: ApplyRequest)
    requires ApplyOutcome(s, r) == None
    ensures Carried(s, AfterApply(s, r))
    ensures var t := AfterApply(s, r);
            && |t.actions| == |s.actions| + 1 && t.actions[|s.actions|].kind == AutoUpdateDecision
            && t.actions[|s.actions|].related == Some(OldOf(s, r)) && t.actions[|s.actions|].memory == r.candidate
  {
  }

  /** A rollback touches the status of the two records it names and the decision itself. */
  lemma RollbackEffect(t: State, decision: nat, at: int)
    requires RollbackOutcome(t, decision) == None
    requires t.actions[decision].related.value != t.actions[decision].memory
    ensures var prior, cand := t.actions[decision].related.value, t.actions[decision].memory;
            var u := AfterRollback(t, decision, at);
            && Carried(t.(actions := t.actions[..decision]), u)
            && (forall id :: id in t.records && id != prior && id != cand ==> u.records[id] == t.records[id])
            && (t.records[prior].policy == DefaultPolicy && AcceptedReview(t.records[prior].status.review) ==>
                  IsRecallable(u, prior))
            && !IsRecallable(u, cand)
  {
  }

  /** Undoing one apply after everything applied on top of it has been undone. */
  lemma RollbackClosesApply(s: State, r: ApplyRequest, t: State, at: int)
    requires ApplyOutcome(s, r) == None && IsRecallable(s, OldOf(s, r)) && !IsRecallable(s, r.candidate)
    requires Undone(AfterApply(s, r), t)
    ensures RollbackOutcome(t, |s.actions|) == None
    ensures Undone(s, AfterRollback(t, |s.actions|, at))
  {
    var mid, prior := AfterApply(s, r), OldOf(s, r);
    ApplyCarries(s, r);
    ApplyReplaces(s, r);
    assert t.actions[|s.actions|] == mid.actions[|s.actions|];
    RollbackEffect(t, |s.actions|, at);
    var u := AfterRollback(t, |s.actions|, at);
    CarriedThrough(s, mid, t, u);
    RecallAfterUndo(s, t, u, prior, r.candidate);
  }

  lemma CarriedThrough(s: State, mid: State, t: State, u: State)
    requires Carried(s, mid) && Carried(mid, t) && Carried(t.(actions := t.actions[..|s.actions|]), u)
    ensures Carried(s, u)
  {
  }

  lemma RecallAfterUndo(s: State, t: State, u: State, prior: MemoryId, cand: MemoryId)
    requires u.records.Keys == t.records.Keys
    requires forall id :: id in t.records && id != prior && id != cand ==> u.records[id] == t.records[id]
    requires forall id :: id != prior && id != cand ==> (id in RecallableIds(t) <==> id in RecallableIds(s))
    requires IsRecallable(s, prior) && IsRecallable(u, prior) && !IsRecallable(s, cand) && !IsRecallable(u, cand)
    ensures RecallableIds(u) == RecallableIds(s)
  {
  }

  /** For any chain of applies, A to B to C included, rolling back in reverse order restores exactly the
      original recallable set. */
  lemma {:induction false} LifoUndoRestores(s: State, rs: seq<ApplyRequest>, at: int, pendingSkip: bool)
    requires GoodChain(s, rs)
    ensures Undone(s, Run(s, ThereAndBack(rs, |s.actions|, at), pendingSkip))
    decreases |rs|
  {
    if rs == [] {
    } else {
      var mid := AfterApply(s, rs[0]);
      var inner := ThereAndBack(rs[1..], |s.actions| + 1, at);
      var t := Run(mid, inner, pendingSkip);
      LifoUndoRestores(mid, rs[1..], at, pendingSkip);
      RollbackClosesApply(s, rs[0], t, at);
      RunConcat(s, [Apply(rs[0])] + inner, [Rollback(|s.actions|, at)], pendingSkip);
      RunConcat(s, [Apply(rs[0])], inner, pendingSkip);
      RunOne(s, Apply(rs[0]), pendingSkip);
      RunOne(t, Rollback(|s.actions|, at), pendingSkip);
    }
  }

  lemma RunOne(s: State, c: Command, pendingSkip: bool)
    ensures Run(s, [c], pendingSkip) == Step(s, c, pendingSkip)
  {
  }
}
