/** A reference definition of the stable sort behind `Array.prototype.sort`, for any comparator that
    is a total preorder. Insertion keeps an element in front of the later ones it ties with. */
module StableSort {
  import opened Collections

  ghost predicate TotalPreorder<T(!new)>(le: (T, T) -> bool) {
    && (forall x, y :: le(x, y) || le(y, x))
    && (forall x, y, z :: le(x, y) && le(y, z) ==> le(x, z))
  }

  ghost predicate Sorted<T>(xs: seq<T>, le: (T, T) -> bool) {
    forall i, j :: 0 <= i < j < |xs| ==> le(xs[i], xs[j])
  }

  function Insert<T>(x: T, xs: seq<T>, le: (T, T) -> bool): (r: seq<T>)
    ensures |r| == |xs| + 1
  {
    if xs == [] || le(x, xs[0]) then [x] + xs else [xs[0]] + Insert(x, xs[1..], le)
  }

  function Sort<T>(xs: seq<T>, le: (T, T) -> bool): (r: seq<T>)
    ensures |r| == |xs|
  {
    if xs == [] then [] else Insert(xs[0], Sort(xs[1..], le), le)
  }

  function TiesWith<T>(x: T, le: (T, T) -> bool): T -> bool {
    y => le(x, y) && le(y, x)
  }

  /** The elements of `xs` that tie with `x`, in their order. */
  function Ties<T>(xs: seq<T>, x: T, le: (T, T) -> bool): seq<T> {
    Filter(xs, TiesWith(x, le))
  }

  lemma {:induction false} InsertPermutes<T>(x: T, xs: seq<T>, le: (T, T) -> bool)
    ensures multiset(Insert(x, xs, le)) == multiset{x} + multiset(xs)
  {
    if xs == [] || le(x, xs[0]) {
    } else {
      InsertPermutes(x, xs[1..], le);
      assert xs == [xs[0]] + xs[1..];
    }
  }

  lemma {:induction false} InsertSorts<T(!new)>(x: T, xs: seq<T>, le: (T, T) -> bool)
    requires TotalPreorder(le) && Sorted(xs, le)
    ensures Sorted(Insert(x, xs, le), le)
  {
    if xs == [] || le(x, xs[0]) {
    } else {
      InsertSorts(x, xs[1..], le);
      InsertPermutes(x, xs[1..], le);
      var rest := Insert(x, xs[1..], le);
      forall j | 0 <= j < |rest|
        ensures le(xs[0], rest[j])
      {
        assert rest[j] in multiset(rest);
        assert rest[j] == x || rest[j] in xs[1..];
      }
    }
  }

  lemma {:induction false} SortSorts<T(!new)>(xs: seq<T>, le: (T, T) -> bool)
    requires TotalPreorder(le)
    ensures Sorted(Sort(xs, le), le)
    ensures multiset(Sort(xs, le)) == multiset(xs)
  {
    if xs == [] {
    } else {
      SortSorts(xs[1..], le);
      InsertSorts(xs[0], Sort(xs[1..], le), le);
      InsertPermutes(xs[0], Sort(xs[1..], le), le);
      assert xs == [xs[0]] + xs[1..];
    }
  }

  lemma {:induction false} InsertKeepsTies<T(!new)>(x: T, xs: seq<T>, y: T, le: (T, T) -> bool)
    requires TotalPreorder(le)
    ensures Ties(Insert(x, xs, le), y, le) == Ties([x] + xs, y, le)
  {
    if xs == [] || le(x, xs[0]) {
    } else {
      InsertKeepsTies(x, xs[1..], y, le);
      FilterCons(xs[0], Insert(x, xs[1..], le), TiesWith(y, le));
      FilterCons(x, xs, TiesWith(y, le));
      FilterCons(x, xs[1..], TiesWith(y, le));
    }
  }

  /** Ties keep their original order: this is what makes the sort stable. */
  lemma {:induction false} SortIsStable<T(!new)>(xs: seq<T>, y: T, le: (T, T) -> bool)
    requires TotalPreorder(le)
    ensures Ties(Sort(xs, le), y, le) == Ties(xs, y, le)
  {
    if xs == [] {
    } else {
      var rest := Sort(xs[1..], le);
      SortIsStable(xs[1..], y, le);
      InsertKeepsTies(xs[0], rest, y, le);
      assert ([xs[0]] + rest)[1..] == rest;
    }
  }

  lemma {:induction false} CountInserted<T>(x: T, xs: seq<T>, le: (T, T) -> bool, test: T -> bool)
    ensures Count(Insert(x, xs, le), test) == (if test(x) then 1 else 0) + Count(xs, test)
  {
    if xs == [] || le(x, xs[0]) {
      assert ([x] + xs)[1..] == xs;
    } else {
      CountInserted(x, xs[1..], le, test);
      assert ([xs[0]] + Insert(x, xs[1..], le))[1..] == Insert(x, xs[1..], le);
    }
  }

  /** Sorting changes no count. */
  lemma {:induction false} CountSorted<T>(xs: seq<T>, le: (T, T) -> bool, test: T -> bool)
    ensures Count(Sort(xs, le), test) == Count(xs, test)
  {
    if xs == [] {
    } else {
      CountSorted(xs[1..], le, test);
      CountInserted(xs[0], Sort(xs[1..], le), le, test);
    }
  }

  /** Membership in the sorted sequence is membership in the original. */
  lemma SortMembers<T(!new)>(xs: seq<T>, le: (T, T) -> bool)
    requires TotalPreorder(le)
    ensures forall x :: x in Sort(xs, le) <==> x in xs
  {
    SortSorts(xs, le);
    forall x
      ensures x in Sort(xs, le) <==> x in xs
    {
      assert x in Sort(xs, le) <==> x in multiset(Sort(xs, le));
    }
  }

  lemma InsertInFront<T(!new)>(x: T, xs: seq<T>, le: (T, T) -> bool)
    requires forall j :: 0 <= j < |xs| ==> le(x, xs[j])
    ensures Insert(x, xs, le) == [x] + xs
  {
  }

  /** A sorted block that is nowhere after what follows it stays in front, untouched. */
  lemma {:induction false} SortKeepsFront<T(!new)>(front: seq<T>, back: seq<T>, le: (T, T) -> bool)
    requires TotalPreorder(le) && Sorted(front, le)
    requires forall x, y :: x in front && y in back ==> le(x, y)
    ensures Sort(front + back, le) == front + Sort(back, le)
  {
    if front == [] {
      assert front + back == back;
    } else {
      SortKeepsFront(front[1..], back, le);
      assert (front + back)[1..] == front[1..] + back;
      var rest := front[1..] + Sort(back, le);
      SortMembers(back, le);
      forall j | 0 <= j < |rest|
        ensures le(front[0], rest[j])
      {
        assert j < |front| - 1 ==> rest[j] == front[j + 1];
        assert j >= |front| - 1 ==> rest[j] in Sort(back, le);
      }
      InsertInFront(front[0], rest, le);
      assert [front[0]] + rest == front + Sort(back, le);
    }
  }

  lemma SortOfSorted<T(!new)>(xs: seq<T>, le: (T, T) -> bool)
    requires TotalPreorder(le) && Sorted(xs, le)
    ensures Sort(xs, le) == xs
  {
  }
}
