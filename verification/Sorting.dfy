/** A stable sort, and the facts about it that the callers rely on.

    Every `sorted(...)` of the sources (and `torch.sort`) is modelled by `Sort`: the result is a
    permutation of the input, is in order, and keeps ties in input order.
 */
module Sorting {

  ghost predicate TotalPreorder<T(!new)>(le: (T, T) -> bool) {
    && (forall x, y :: le(x, y) || le(y, x))
    && (forall x, y, z :: le(x, y) && le(y, z) ==> le(x, z))
  }

  ghost predicate SortedBy<T>(xs: seq<T>, le: (T, T) -> bool) {
    forall i, j :: 0 <= i < j < |xs| ==> le(xs[i], xs[j])
  }

  ghost predicate Distinct<T>(xs: seq<T>) {
    forall i, j :: 0 <= i < j < |xs| ==> xs[i] != xs[j]
  }

  function Insert<T>(x: T, ys: seq<T>, le: (T, T) -> bool): seq<T> {
    if ys == [] then [x]
    else if le(x, ys[0]) then [x] + ys
    else [ys[0]] + Insert(x, ys[1..], le)
  }

  function Sort<T>(xs: seq<T>, le: (T, T) -> bool): seq<T> {
    if xs == [] then [] else Insert(xs[0], Sort(xs[1..], le), le)
  }

  function Filter<T>(xs: seq<T>, p: T -> bool): seq<T> {
    if xs == [] then [] else (if p(xs[0]) then [xs[0]] else []) + Filter(xs[1..], p)
  }

  function Not<T>(p: T -> bool): T -> bool {
    x => !p(x)
  }

  lemma {:induction false} InsertMultiset<T>(x: T, ys: seq<T>, le: (T, T) -> bool)
    ensures multiset(Insert(x, ys, le)) == multiset{x} + multiset(ys)
  {
    if ys != [] && !le(x, ys[0]) {
      assert ys == [ys[0]] + ys[1..];
      InsertMultiset(x, ys[1..], le);
    }
  }

  /** A sort only reorders. */
  lemma {:induction false} SortMultiset<T>(xs: seq<T>, le: (T, T) -> bool)
    ensures multiset(Sort(xs, le)) == multiset(xs)
    ensures |Sort(xs, le)| == |xs|
  {
    if xs != [] {
      assert xs == [xs[0]] + xs[1..];
      SortMultiset(xs[1..], le);
      InsertMultiset(xs[0], Sort(xs[1..], le), le);
    }
    var s := Sort(xs, le);
    assert multiset(s) == multiset(xs);
    assert |s| == |multiset(s)| == |multiset(xs)| == |xs|;
  }

  lemma {:induction false} DistinctCount<T>(xs: seq<T>, x: T)
    requires Distinct(xs)
    ensures multiset(xs)[x] <= 1
  {
    if xs != [] {
      assert xs == [xs[0]] + xs[1..];
      DistinctCount(xs[1..], x);
      if x == xs[0] { assert x !in xs[1..]; assert x !in multiset(xs[1..]); }
    }
  }

  lemma TwoPlaces<T>(xs: seq<T>, i: nat, j: nat)
    requires i < j < |xs| && xs[i] == xs[j]
    ensures multiset(xs)[xs[i]] >= 2
  {
    assert xs == xs[..j] + xs[j..] && xs[i] in xs[..j] && xs[j] in xs[j..];
    assert xs[i] in multiset(xs[..j]) && xs[i] in multiset(xs[j..]);
    assert multiset(xs) == multiset(xs[..j]) + multiset(xs[j..]);
  }

  /** Having no duplicates does not depend on the order. */
  lemma DistinctByMultiset<T>(xs: seq<T>, ys: seq<T>)
    requires Distinct(xs) && multiset(ys) == multiset(xs)
    ensures Distinct(ys)
  {
    forall i, j | 0 <= i < j < |ys| ensures ys[i] != ys[j] {
      if ys[i] == ys[j] {
        TwoPlaces(ys, i, j);
        DistinctCount(xs, ys[i]);
      }
    }
  }

  lemma SortMember<T>(xs: seq<T>, le: (T, T) -> bool, x: T)
    ensures x in Sort(xs, le) <==> x in xs
  {
    SortMultiset(xs, le);
    assert x in Sort(xs, le) <==> x in multiset(Sort(xs, le));
    assert x in xs <==> x in multiset(xs);
  }

  lemma {:induction false} InsertSorted<T(!new)>(x: T, ys: seq<T>, le: (T, T) -> bool)
    requires TotalPreorder(le) && SortedBy(ys, le)
    ensures SortedBy(Insert(x, ys, le), le)
  {
    if ys == [] {
    } else if le(x, ys[0]) {
      var r := [x] + ys;
      forall i, j | 0 <= i < j < |r| ensures le(r[i], r[j]) {
        if i == 0 && j > 1 { assert le(ys[0], ys[j - 1]); }
      }
    } else {
      InsertSorted(x, ys[1..], le);
      InsertMultiset(x, ys[1..], le);
      var t := Insert(x, ys[1..], le);
      forall k | 0 <= k < |t| ensures le(ys[0], t[k]) {
        assert t[k] in multiset(t);
        if t[k] != x {
          assert t[k] in multiset(ys[1..]);
          assert t[k] in ys[1..];
        }
      }
    }
  }

  /** The result is in order. */
  lemma {:induction false} SortSorted<T(!new)>(xs: seq<T>, le: (T, T) -> bool)
    requires TotalPreorder(le)
    ensures SortedBy(Sort(xs, le), le)
  {
    if xs != [] {
      SortSorted(xs[1..], le);
      InsertSorted(xs[0], Sort(xs[1..], le), le);
    }
  }

  /** A list already in order is left alone. */
  lemma {:induction false} SortOfSorted<T>(xs: seq<T>, le: (T, T) -> bool)
    requires SortedBy(xs, le)
    ensures Sort(xs, le) == xs
  {
    if xs != [] {
      SortOfSorted(xs[1..], le);
      assert |xs| > 1 ==> le(xs[0], xs[1]);
    }
  }

  lemma {:induction false} InsertCongruence<T>(x: T, ys: seq<T>, le: (T, T) -> bool, le': (T, T) -> bool)
    requires forall y :: y in ys ==> le(x, y) == le'(x, y)
    ensures Insert(x, ys, le) == Insert(x, ys, le')
  {
    if ys != [] { InsertCongruence(x, ys[1..], le, le'); }
  }

  lemma {:induction false} FilterMembers<T>(xs: seq<T>, p: T -> bool)
    ensures forall x :: x in Filter(xs, p) <==> x in xs && p(x)
    ensures |Filter(xs, p)| <= |xs|
  {
    if xs != [] { FilterMembers(xs[1..], p); }
  }

  lemma {:induction false} InsertLeft<T>(x: T, ys: seq<T>, zs: seq<T>, le: (T, T) -> bool)
    requires forall z :: z in zs ==> le(x, z)
    ensures Insert(x, ys + zs, le) == Insert(x, ys, le) + zs
  {
    if ys == [] {
      assert ys + zs == zs;
    } else {
      var r := ys + zs;
      assert r[0] == ys[0] && r[1..] == ys[1..] + zs;
      if le(x, ys[0]) {
        assert [x] + r == ([x] + ys) + zs;
      } else {
        InsertLeft(x, ys[1..], zs, le);
        assert [ys[0]] + (Insert(x, ys[1..], le) + zs) == ([ys[0]] + Insert(x, ys[1..], le)) + zs;
      }
    }
  }

  lemma {:induction false} InsertRight<T>(x: T, ys: seq<T>, zs: seq<T>, le: (T, T) -> bool)
    requires forall y :: y in ys ==> !le(x, y)
    ensures Insert(x, ys + zs, le) == ys + Insert(x, zs, le)
  {
    if ys == [] {
      assert ys + zs == zs;
    } else {
      var r := ys + zs;
      assert r[0] == ys[0] && r[1..] == ys[1..] + zs;
      InsertRight(x, ys[1..], zs, le);
      assert [ys[0]] + (ys[1..] + Insert(x, zs, le)) == ys + Insert(x, zs, le);
    }
  }

  ghost predicate Separates<T>(p: T -> bool, xs: seq<T>, le: (T, T) -> bool) {
    forall x, y :: x in xs && y in xs && p(x) && !p(y) ==> le(x, y) && !le(y, x)
  }

  /** When every element of p comes strictly before every other element, sorting the whole is
      sorting the two parts and joining them. */
  lemma {:induction false} SortSplit<T>(xs: seq<T>, p: T -> bool, le: (T, T) -> bool)
    requires Separates(p, xs, le)
    ensures Sort(xs, le) == Sort(Filter(xs, p), le) + Sort(Filter(xs, Not(p)), le)
  {
    if xs != [] {
      var x, rest := xs[0], xs[1..];
      assert Separates(p, rest, le) by { assert forall y :: y in rest ==> y in xs; }
      SortSplit(rest, p, le);
      SplitStep(x, rest, p, le);
    }
  }

  lemma {:induction false} SplitStep<T>(x: T, rest: seq<T>, p: T -> bool, le: (T, T) -> bool)
    requires Separates(p, [x] + rest, le)
    ensures Insert(x, Sort(Filter(rest, p), le) + Sort(Filter(rest, Not(p)), le), le)
         == Sort(Filter([x] + rest, p), le) + Sort(Filter([x] + rest, Not(p)), le)
  {
    var fp, fn := Filter(rest, p), Filter(rest, Not(p));
    var a, b := Sort(fp, le), Sort(fn, le);
    assert ([x] + rest)[1..] == rest;
    if p(x) {
      forall z | z in b ensures le(x, z) {
        SortMember(fn, le, z);
        FilterMembers(rest, Not(p));
        assert z in [x] + rest && x in [x] + rest;
      }
      InsertLeft(x, a, b, le);
      assert Filter([x] + rest, p) == [x] + fp && Filter([x] + rest, Not(p)) == fn;
      assert ([x] + fp)[1..] == fp;
    } else {
      forall z | z in a ensures !le(x, z) {
        SortMember(fp, le, z);
        FilterMembers(rest, p);
        assert z in [x] + rest && x in [x] + rest;
      }
      InsertRight(x, a, b, le);
      assert Filter([x] + rest, p) == fp && Filter([x] + rest, Not(p)) == [x] + fn;
      assert ([x] + fn)[1..] == fn;
    }
  }

  /** Ties keep their input order: restricted to one class of ties, sorting changes nothing. */
  lemma {:induction false} SortStable<T(!new)>(xs: seq<T>, le: (T, T) -> bool, p: T -> bool)
    requires TotalPreorder(le)
    requires forall x, y :: x in xs && y in xs && p(x) && p(y) ==> le(x, y)
    ensures Filter(Sort(xs, le), p) == Filter(xs, p)
  {
    if xs != [] {
      SortStable(xs[1..], le, p);
      forall y | y in Sort(xs[1..], le) && p(xs[0]) && p(y) ensures le(xs[0], y) {
        SortMember(xs[1..], le, y);
        assert y in xs && xs[0] in xs;
      }
      InsertStable(xs[0], Sort(xs[1..], le), le, p);
    }
  }

  lemma FilterCons<T>(x: T, xs: seq<T>, p: T -> bool)
    ensures Filter([x] + xs, p) == (if p(x) then [x] else []) + Filter(xs, p)
  {
    assert ([x] + xs)[1..] == xs;
  }

  lemma FilterSwap<T>(x: T, y: T, xs: seq<T>, p: T -> bool)
    requires !(p(x) && p(y))
    ensures Filter([y] + ([x] + xs), p) == Filter([x] + ([y] + xs), p)
  {
    FilterCons(y, [x] + xs, p);
    FilterCons(x, xs, p);
    FilterCons(x, [y] + xs, p);
    FilterCons(y, xs, p);
  }

  lemma {:induction false} InsertStable<T>(x: T, ys: seq<T>, le: (T, T) -> bool, p: T -> bool)
    requires forall y :: y in ys && p(x) && p(y) ==> le(x, y)
    ensures Filter(Insert(x, ys, le), p) == Filter([x] + ys, p)
  {
    if ys != [] && !le(x, ys[0]) {
      var y, rest := ys[0], ys[1..];
      assert ys == [y] + rest && y in ys;
      InsertStable(x, rest, le, p);
      FilterCons(y, Insert(x, rest, le), p);
      FilterCons(y, [x] + rest, p);
      FilterSwap(x, y, rest, p);
    }
  }

  /** No two different elements tie. */
  ghost predicate NoTies<T>(xs: seq<T>, le: (T, T) -> bool) {
    forall x, y :: x in xs && y in xs && le(x, y) && le(y, x) ==> x == y
  }

  lemma NoTiesAmong<T>(xs: seq<T>, ys: seq<T>, le: (T, T) -> bool)
    requires NoTies(xs, le) && forall y :: y in ys ==> y in xs
    ensures NoTies(ys, le)
  {
  }

  /** When no two different elements tie, there is only one order: any sorted arrangement of the
      same elements is the sort. */
  lemma {:induction false} SortUnique<T(!new)>(xs: seq<T>, ys: seq<T>, le: (T, T) -> bool)
    requires TotalPreorder(le)
    requires multiset(xs) == multiset(ys) && SortedBy(ys, le)
    requires NoTies(xs, le)
    ensures Sort(xs, le) == ys
  {
    SortMultiset(xs, le);
    SortSorted(xs, le);
    forall x | x in Sort(xs, le) ensures x in xs { SortMember(xs, le, x); }
    NoTiesAmong(xs, Sort(xs, le), le);
    SortedUnique(Sort(xs, le), ys, le);
  }

  lemma {:induction false} SortedUnique<T>(xs: seq<T>, ys: seq<T>, le: (T, T) -> bool)
    requires multiset(xs) == multiset(ys) && SortedBy(xs, le) && SortedBy(ys, le)
    requires NoTies(xs, le)
    ensures xs == ys
  {
    assert |xs| == |multiset(xs)| == |multiset(ys)| == |ys|;
    if xs != [] {
      TailMultiset(xs);
      TailMultiset(ys);
      HeadsAgree(xs, ys, le);
      NoTiesAmong(xs, xs[1..], le);
      SortedUnique(xs[1..], ys[1..], le);
      assert xs == [xs[0]] + xs[1..] && ys == [ys[0]] + ys[1..];
    }
  }

  lemma HeadsAgree<T>(xs: seq<T>, ys: seq<T>, le: (T, T) -> bool)
    requires xs != [] && ys != [] && multiset(xs) == multiset(ys)
    requires SortedBy(xs, le) && SortedBy(ys, le) && NoTies(xs, le)
    ensures xs[0] == ys[0]
  {
    assert xs[0] in multiset(ys) && ys[0] in multiset(xs);
    FirstIsLeast(xs, ys[0], le);
    FirstIsLeast(ys, xs[0], le);
  }

  lemma FirstIsLeast<T>(xs: seq<T>, y: T, le: (T, T) -> bool)
    requires xs != [] && SortedBy(xs, le) && y in multiset(xs)
    ensures y in xs
    ensures xs[0] == y || le(xs[0], y)
  {
    var j :| 0 <= j < |xs| && xs[j] == y;
  }

  lemma TailMultiset<T>(xs: seq<T>)
    requires xs != []
    ensures multiset(xs[1..]) == multiset(xs) - multiset{xs[0]}
    ensures xs[0] in multiset(xs)
  {
    assert xs == [xs[0]] + xs[1..];
  }

  /** Sorting depends only on the elements, not on the order they came in, when no two tie. */
  lemma {:induction false} SortOrderIndependent<T(!new)>(xs: seq<T>, ys: seq<T>, le: (T, T) -> bool)
    requires TotalPreorder(le)
    requires multiset(xs) == multiset(ys)
    requires NoTies(xs, le)
    ensures Sort(xs, le) == Sort(ys, le)
  {
    SortMultiset(ys, le);
    SortSorted(ys, le);
    SortUnique(xs, Sort(ys, le), le);
  }
}
