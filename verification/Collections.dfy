/** Filtering, counting and sizes. */
module Collections {

  function Filter<T>(xs: seq<T>, test: T -> bool): seq<T> {
    if xs == [] then [] else (if test(xs[0]) then [xs[0]] else []) + Filter(xs[1..], test)
  }

  function Count<T>(xs: seq<T>, test: T -> bool): (n: nat)
    ensures n <= |xs|
  {
    if xs == [] then 0 else (if test(xs[0]) then 1 else 0) + Count(xs[1..], test)
  }

  lemma FilterCons<T>(x: T, xs: seq<T>, test: T -> bool)
    ensures Filter([x] + xs, test) == (if test(x) then [x] else []) + Filter(xs, test)
  {
    assert ([x] + xs)[1..] == xs;
  }

  lemma {:induction false} FilterMembers<T>(xs: seq<T>, test: T -> bool)
    ensures forall x :: x in Filter(xs, test) <==> x in xs && test(x)
  {
    if xs == [] {
    } else {
      FilterMembers(xs[1..], test);
      assert forall x :: x in xs <==> x == xs[0] || x in xs[1..];
    }
  }

  lemma {:induction false} FilterKeepsAll<T>(xs: seq<T>, test: T -> bool)
    requires forall x :: x in xs ==> test(x)
    ensures Filter(xs, test) == xs
  {
    if xs == [] {
    } else {
      FilterKeepsAll(xs[1..], test);
    }
  }

  lemma {:induction false} CountOneMore<T>(xs: seq<T>, x: T, test: T -> bool)
    ensures Count(xs + [x], test) == Count(xs, test) + if test(x) then 1 else 0
  {
    if xs == [] {
    } else {
      assert (xs + [x])[1..] == xs[1..] + [x];
      CountOneMore(xs[1..], x, test);
    }
  }

  lemma {:induction false} CountAtPrefix<T>(xs: seq<T>, k: nat, test: T -> bool)
    requires k <= |xs|
    ensures (forall i :: 0 <= i < k ==> test(xs[i])) ==> Count(xs, test) >= k
    ensures (forall i :: k <= i < |xs| ==> !test(xs[i])) ==> Count(xs, test) <= k
  {
    if xs == [] {
    } else {
      CountAtPrefix(xs[1..], if k == 0 then 0 else k - 1, test);
    }
  }

  lemma SubsetSize<T>(a: set<T>, b: set<T>)
    requires a <= b
    ensures |a| <= |b| && (a < b ==> |a| < |b|)
  {
    assert b == a + (b - a);
  }
}
