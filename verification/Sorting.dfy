/** Sorting with a Go comparator. `SortFunc` may return any sorted permutation, so a
    caller that wants a deterministic list must rule ties out; `StableSort` is the one
    list `SortStableFunc` returns for a comparator that orders the elements, and, being plain
    insertion, what it returns for any comparator on a short list. */
module Sorting {

  ghost predicate SortedBy<T(!new)>(xs: seq<T>, cmp: (T, T) -> int) {
    forall i, j :: 0 <= i < j < |xs| ==> cmp(xs[i], xs[j]) <= 0
  }

  /** What `slices.SortFunc` promises: the same elements, in order. */
  ghost predicate SortOf<T(!new)>(sorted: seq<T>, input: seq<T>, cmp: (T, T) -> int) {
    multiset(sorted) == multiset(input) && SortedBy(sorted, cmp)
  }

  /** Two values that compare equal are the same value. */
  ghost predicate NoTies<T(!new)>(xs: seq<T>, cmp: (T, T) -> int) {
    forall x, y :: x in xs && y in xs && cmp(x, y) <= 0 && cmp(y, x) <= 0 ==> x == y
  }

  /** Without ties there is one sorted permutation. */
  lemma {:induction false} SortedUnique<T(!new)>(xs: seq<T>, ys: seq<T>, cmp: (T, T) -> int)
    requires multiset(xs) == multiset(ys)
    requires SortedBy(xs, cmp) && SortedBy(ys, cmp)
    requires NoTies(xs, cmp)
    ensures xs == ys
    decreases |xs|
  {
    SameElements(xs, ys);
    if |xs| > 0 {
      SameFirst(xs, ys, cmp);
      assert xs == [xs[0]] + xs[1..] && ys == [ys[0]] + ys[1..];
      assert multiset(xs[1..]) == multiset(ys[1..]) by { TailMultiset(xs); TailMultiset(ys); }
      NoTiesTail(xs, cmp);
      SortedUnique(xs[1..], ys[1..], cmp);
    }
  }

  lemma TailMultiset<T>(xs: seq<T>)
    requires |xs| > 0
    ensures multiset(xs[1..]) == multiset(xs) - multiset{xs[0]}
  {
    assert xs == [xs[0]] + xs[1..];
  }

  lemma NoTiesTail<T(!new)>(xs: seq<T>, cmp: (T, T) -> int)
    requires |xs| > 0 && NoTies(xs, cmp)
    ensures NoTies(xs[1..], cmp)
  {
    forall x, y | x in xs[1..] && y in xs[1..] && cmp(x, y) <= 0 && cmp(y, x) <= 0 ensures x == y {
      assert x in xs && y in xs;
    }
  }

  lemma SameFirst<T(!new)>(xs: seq<T>, ys: seq<T>, cmp: (T, T) -> int)
    requires |xs| > 0 && |ys| > 0
    requires multiset(xs) == multiset(ys)
    requires SortedBy(xs, cmp) && SortedBy(ys, cmp)
    requires NoTies(xs, cmp)
    ensures xs[0] == ys[0]
  {
    assert ys[0] in multiset(xs) by { assert ys[0] in multiset(ys); }
    assert xs[0] in multiset(ys) by { assert xs[0] in multiset(xs); }
    assert xs[0] in ys && ys[0] in xs;
    var i :| 0 <= i < |xs| && xs[i] == ys[0];
    var j :| 0 <= j < |ys| && ys[j] == xs[0];
    if i > 0 && j > 0 {
      assert cmp(xs[0], ys[0]) <= 0 && cmp(ys[0], xs[0]) <= 0;
    }
  }

  /** Any two sorts of two orderings of the same elements agree. */
  lemma SortFuncDeterministic<T(!new)>(a: seq<T>, b: seq<T>, sa: seq<T>, sb: seq<T>, cmp: (T, T) -> int)
    requires multiset(a) == multiset(b)
    requires SortOf(sa, a, cmp) && SortOf(sb, b, cmp)
    requires NoTies(a, cmp)
    ensures sa == sb
  {
    SameElements(sa, a);
    SortedUnique(sa, sb, cmp);
  }

  lemma SameElements<T>(a: seq<T>, b: seq<T>)
    requires multiset(a) == multiset(b)
    ensures |a| == |b|
    ensures forall x :: x in a <==> x in b
  {
    assert |multiset(a)| == |a| && |multiset(b)| == |b|;
    forall x ensures x in a <==> x in b {
      assert x in a <==> x in multiset(a);
      assert x in b <==> x in multiset(b);
    }
  }

  /** The last element of one ordering, found in another and taken out of both. */
  lemma TakeOut<T>(a: seq<T>, b: seq<T>) returns (j: nat)
    requires multiset(a) == multiset(b) && a != []
    ensures j < |b| && b[j] == a[|a| - 1]
    ensures multiset(a[..|a| - 1]) == multiset(b[..j] + b[j + 1..])
    ensures b == b[..j] + [b[j]] + b[j + 1..]
  {
    SameElements(a, b);
    var front, x := a[..|a| - 1], a[|a| - 1];
    assert x in a;
    j :| 0 <= j < |b| && b[j] == x;
    assert a == front + [x] + [];
    assert b == b[..j] + [x] + b[j + 1..];
    MiddleOut(front, x, []);
    assert front + [] == front;
    MiddleOut(b[..j], x, b[j + 1..]);
    SameRest(multiset(front), multiset(b[..j] + b[j + 1..]), x);
  }

  lemma SameRest<T>(a: multiset<T>, b: multiset<T>, x: T)
    requires a + multiset{x} == b + multiset{x}
    ensures a == b
  {
    assert a == a + multiset{x} - multiset{x};
    assert b == b + multiset{x} - multiset{x};
  }

  lemma MiddleOut<T>(p: seq<T>, x: T, q: seq<T>)
    ensures multiset(p + [x] + q) == multiset(p + q) + multiset{x}
  {
  }

  /** Put `x` after every element that does not sort above it. */
  function Insert<T>(x: T, ys: seq<T>, cmp: (T, T) -> int): seq<T>
    decreases |ys|
  {
    if ys == [] || cmp(ys[|ys| - 1], x) <= 0 then ys + [x]
    else Insert(x, ys[..|ys| - 1], cmp) + [ys[|ys| - 1]]
  }

  function StableSort<T>(xs: seq<T>, cmp: (T, T) -> int): seq<T>
    decreases |xs|
  {
    if xs == [] then [] else Insert(xs[|xs| - 1], StableSort(xs[..|xs| - 1], cmp), cmp)
  }

  /** The comparator is a total preorder on the listed elements. */
  ghost predicate TotalPreorder<T(!new)>(xs: seq<T>, cmp: (T, T) -> int) {
    && (forall x, y {:trigger cmp(x, y)} :: x in xs && y in xs ==> cmp(x, y) <= 0 || cmp(y, x) <= 0)
    && (forall x, y, z {:trigger cmp(x, y), cmp(y, z)} ::
        x in xs && y in xs && z in xs && cmp(x, y) <= 0 && cmp(y, z) <= 0 ==> cmp(x, z) <= 0)
  }

  lemma {:induction false} InsertPermutes<T>(x: T, ys: seq<T>, cmp: (T, T) -> int)
    ensures multiset(Insert(x, ys, cmp)) == multiset(ys) + multiset{x}
    decreases |ys|
  {
    if ys != [] && cmp(ys[|ys| - 1], x) > 0 {
      InsertPermutes(x, ys[..|ys| - 1], cmp);
      assert ys == ys[..|ys| - 1] + [ys[|ys| - 1]];
    }
  }

  lemma {:induction false} StableSortPermutes<T>(xs: seq<T>, cmp: (T, T) -> int)
    ensures multiset(StableSort(xs, cmp)) == multiset(xs)
    decreases |xs|
  {
    if xs != [] {
      StableSortPermutes(xs[..|xs| - 1], cmp);
      InsertPermutes(xs[|xs| - 1], StableSort(xs[..|xs| - 1], cmp), cmp);
      assert xs == xs[..|xs| - 1] + [xs[|xs| - 1]];
    }
  }

  /** Elements below the last one are below whatever follows it. */
  lemma BelowLast<T(!new)>(x: T, ys: seq<T>, cmp: (T, T) -> int)
    requires ys != [] && SortedBy(ys, cmp) && cmp(ys[|ys| - 1], x) <= 0
    requires TotalPreorder(ys + [x], cmp)
    ensures SortedBy(ys + [x], cmp)
  {
    var all, last := ys + [x], ys[|ys| - 1];
    assert all[|ys| - 1] == last && all[|ys|] == x;
    forall i | 0 <= i < |ys| ensures cmp(ys[i], x) <= 0 {
      if i < |ys| - 1 {
        assert all[i] == ys[i];
        assert ys[i] in all && last in all && x in all;
      }
    }
  }

  lemma TotalPreorderSub<T(!new)>(xs: seq<T>, ys: seq<T>, cmp: (T, T) -> int)
    requires TotalPreorder(ys, cmp)
    requires forall x :: x in xs ==> x in ys
    ensures TotalPreorder(xs, cmp)
  {}

  lemma SortedSnoc<T(!new)>(xs: seq<T>, last: T, cmp: (T, T) -> int)
    requires SortedBy(xs, cmp)
    requires forall x :: x in xs ==> cmp(x, last) <= 0
    ensures SortedBy(xs + [last], cmp)
  {}

  lemma InsertBelow<T(!new)>(x: T, front: seq<T>, last: T, cmp: (T, T) -> int)
    requires SortedBy(front + [last], cmp) && cmp(x, last) <= 0
    ensures forall y :: y in Insert(x, front, cmp) ==> cmp(y, last) <= 0
  {
    InsertPermutes(x, front, cmp);
    SameElements(Insert(x, front, cmp), front + [x]);
    var all := front + [last];
    forall y | y in Insert(x, front, cmp) ensures cmp(y, last) <= 0 {
      if y != x {
        var i :| 0 <= i < |front| && front[i] == y;
        assert all[i] == y && all[|front|] == last;
      }
    }
  }

  lemma SortedFront<T(!new)>(front: seq<T>, last: T, cmp: (T, T) -> int)
    requires SortedBy(front + [last], cmp)
    ensures SortedBy(front, cmp)
  {
    forall i, j | 0 <= i < j < |front| ensures cmp(front[i], front[j]) <= 0 {
      assert (front + [last])[i] == front[i] && (front + [last])[j] == front[j];
    }
  }

  lemma {:induction false} InsertSorted<T(!new)>(x: T, ys: seq<T>, cmp: (T, T) -> int)
    requires SortedBy(ys, cmp)
    requires TotalPreorder(ys + [x], cmp)
    ensures SortedBy(Insert(x, ys, cmp), cmp)
    decreases |ys|
  {
    if ys != [] {
      var front, last := ys[..|ys| - 1], ys[|ys| - 1];
      assert ys == front + [last];
      if cmp(last, x) <= 0 {
        BelowLast(x, ys, cmp);
      } else {
        assert x in ys + [x] && last in ys + [x];
        SortedFront(front, last, cmp);
        TotalPreorderSub(front + [x], ys + [x], cmp);
        InsertSorted(x, front, cmp);
        InsertBelow(x, front, last, cmp);
        SortedSnoc(Insert(x, front, cmp), last, cmp);
      }
    }
  }

  /** `SortStableFunc` sorts, for a comparator that orders the listed elements. */
  lemma {:induction false} StableSortSorts<T(!new)>(xs: seq<T>, cmp: (T, T) -> int)
    requires TotalPreorder(xs, cmp)
    ensures SortOf(StableSort(xs, cmp), xs, cmp)
    decreases |xs|
  {
    StableSortPermutes(xs, cmp);
    if xs != [] {
      var front, last := xs[..|xs| - 1], xs[|xs| - 1];
      TotalPreorderSub(front, xs, cmp);
      StableSortSorts(front, cmp);
      SameElements(StableSort(front, cmp), front);
      TotalPreorderSub(StableSort(front, cmp) + [last], xs, cmp);
      InsertSorted(last, StableSort(front, cmp), cmp);
    }
  }

  /** A stable sort of a permuted list is the same list when nothing ties. */
  lemma StableSortDeterministic<T(!new)>(a: seq<T>, b: seq<T>, cmp: (T, T) -> int)
    requires multiset(a) == multiset(b)
    requires TotalPreorder(a, cmp) && NoTies(a, cmp)
    ensures StableSort(a, cmp) == StableSort(b, cmp)
  {
    SameElements(a, b);
    TotalPreorderSub(b, a, cmp);
    StableSortSorts(a, cmp);
    StableSortSorts(b, cmp);
    SortFuncDeterministic(a, b, StableSort(a, cmp), StableSort(b, cmp), cmp);
  }

  ghost predicate NoRepeats<T>(s: seq<T>) { forall i, j :: 0 <= i < j < |s| ==> s[i] != s[j] }

  lemma {:induction false} NoRepeatsCounts<T>(s: seq<T>)
    ensures NoRepeats(s) <==> forall x :: x in s ==> multiset(s)[x] == 1
    decreases |s|
  {
    if s != [] {
      var front, last := s[..|s| - 1], s[|s| - 1];
      assert s == front + [last];
      NoRepeatsCounts(front);
      assert last in front <==> multiset(s)[last] > 1;
      forall x | x in front ensures x != last ==> multiset(s)[x] == multiset(front)[x] {}
      if NoRepeats(s) {
        forall x | x in s ensures multiset(s)[x] == 1 { assert x != last ==> x in front; }
      } else if NoRepeats(front) {
        assert last in front;
        assert multiset(s)[last] > 1;
      } else {
        var x :| x in front && multiset(front)[x] != 1;
        assert multiset(s)[x] >= multiset(front)[x] > 1;
      }
    }
  }

  lemma NoRepeatsAnyOrder<T>(a: seq<T>, b: seq<T>)
    requires multiset(a) == multiset(b) && NoRepeats(a)
    ensures NoRepeats(b)
  {
    NoRepeatsCounts(a);
    NoRepeatsCounts(b);
    SameElements(a, b);
  }

  lemma SwapTied<T(!new)>(s: seq<T>, i: nat, j: nat, cmp: (T, T) -> int)
    requires i < j < |s| && cmp(s[j], s[i]) <= 0
    requires SortedBy(s, cmp) && TotalPreorder(s, cmp)
    ensures SortOf(s[i := s[j]][j := s[i]], s, cmp)
  {
    var t := s[i := s[j]][j := s[i]];
    forall p, q | 0 <= p < q < |t| ensures cmp(t[p], t[q]) <= 0 {
      assert s[p] in s && s[q] in s && s[i] in s && s[j] in s;
      if p == i && q != j {
        assert cmp(s[j], s[i]) <= 0 && cmp(s[i], s[q]) <= 0;
      } else if q == j && p != i {
        assert cmp(s[p], s[j]) <= 0 && cmp(s[j], s[i]) <= 0;
      }
    }
  }

  lemma TwoSorts<T(!new)>(xs: seq<T>, s: seq<T>, i: nat, j: nat, cmp: (T, T) -> int) returns (t: seq<T>)
    requires TotalPreorder(xs, cmp) && SortOf(s, xs, cmp)
    requires i < j < |s| && cmp(s[j], s[i]) <= 0 && s[i] != s[j]
    ensures SortOf(t, xs, cmp) && t != s
  {
    SameElements(s, xs);
    TotalPreorderSub(s, xs, cmp);
    t := s[i := s[j]][j := s[i]];
    SwapTied(s, i, j, cmp);
    assert t[j] != s[j];
  }

  lemma TiesGiveTwoSorts<T(!new)>(xs: seq<T>, x: T, y: T, cmp: (T, T) -> int) returns (s: seq<T>, t: seq<T>)
    requires TotalPreorder(xs, cmp)
    requires x in xs && y in xs && cmp(x, y) <= 0 && cmp(y, x) <= 0 && x != y
    ensures SortOf(s, xs, cmp) && SortOf(t, xs, cmp) && s != t
  {
    s := StableSort(xs, cmp);
    StableSortSorts(xs, cmp);
    SameElements(s, xs);
    var i :| 0 <= i < |s| && s[i] == x;
    var j :| 0 <= j < |s| && s[j] == y;
    t := TwoSorts(xs, s, if i < j then i else j, if i < j then j else i, cmp);
  }

  /** A sort has one answer exactly when no two different elements tie. */
  lemma OneSortIffNoTies<T(!new)>(xs: seq<T>, cmp: (T, T) -> int)
    requires TotalPreorder(xs, cmp)
    ensures (forall s, t :: SortOf(s, xs, cmp) && SortOf(t, xs, cmp) ==> s == t) <==> NoTies(xs, cmp)
  {
    if NoTies(xs, cmp) {
      forall s, t | SortOf(s, xs, cmp) && SortOf(t, xs, cmp) ensures s == t
      { SortFuncDeterministic(xs, xs, s, t, cmp); }
    } else {
      var x, y :| x in xs && y in xs && cmp(x, y) <= 0 && cmp(y, x) <= 0 && x != y;
      var s, t := TiesGiveTwoSorts(xs, x, y, cmp);
    }
  }

  /** A list computed element by element. */
  function FlatMap<S, T>(xs: seq<S>, f: S -> seq<T>): seq<T> {
    if xs == [] then [] else FlatMap(xs[..|xs| - 1], f) + f(xs[|xs| - 1])
  }

  lemma {:induction false} FlatMapConcat<S, T>(a: seq<S>, b: seq<S>, f: S -> seq<T>)
    ensures FlatMap(a + b, f) == FlatMap(a, f) + FlatMap(b, f)
    decreases |b|
  {
    if b == [] {
      assert a + b == a;
    } else {
      assert (a + b)[..|a + b| - 1] == a + b[..|b| - 1];
      FlatMapConcat(a, b[..|b| - 1], f);
    }
  }

  lemma FlatMapRemove<S, T>(head: seq<S>, x: S, tail: seq<S>, f: S -> seq<T>)
    ensures multiset(FlatMap(head + [x] + tail, f)) == multiset(FlatMap(head + tail, f)) + multiset(f(x))
  {
    FlatMapConcat(head + [x], tail, f);
    assert (head + [x])[..|head|] == head;
    FlatMapConcat(head, tail, f);
  }

  /** Reordering a list reorders what is computed from its elements. */
  lemma {:induction false} FlatMapAnyOrder<S, T>(a: seq<S>, b: seq<S>, f: S -> seq<T>)
    requires multiset(a) == multiset(b)
    ensures multiset(FlatMap(a, f)) == multiset(FlatMap(b, f))
    decreases |a|
  {
    SameElements(a, b);
    if a != [] {
      var j := TakeOut(a, b);
      FlatMapAnyOrder(a[..|a| - 1], b[..j] + b[j + 1..], f);
      FlatMapRemove(b[..j], b[j], b[j + 1..], f);
    }
  }
}
