/** Sharing a number of slots among environments: a floor for each, then the rest by largest remainder.
    Numbers are exact.
 */
module Apportionment {
  import opened Sorting

  // ---------- sums over a list of names ----------

  function SumInt(names: seq<string>, f: string -> int): int {
    if names == [] then 0 else f(names[0]) + SumInt(names[1..], f)
  }

  function SumReal(names: seq<string>, f: string -> real): real {
    if names == [] then 0.0 else f(names[0]) + SumReal(names[1..], f)
  }

  lemma {:induction false} SumIntSame(names: seq<string>, f: string -> int, g: string -> int)
    requires forall e :: e in names ==> f(e) == g(e)
    ensures SumInt(names, f) == SumInt(names, g)
  {
    if names != [] { SumIntSame(names[1..], f, g); }
  }

  lemma {:induction false} SumIntAdd(names: seq<string>, f: string -> int, g: string -> int, h: string -> int)
    requires forall e :: e in names ==> f(e) == g(e) + h(e)
    ensures SumInt(names, f) == SumInt(names, g) + SumInt(names, h)
  {
    if names != [] { SumIntAdd(names[1..], f, g, h); }
  }

  lemma {:induction false} SumIntConst(names: seq<string>, f: string -> int, c: int)
    requires forall e :: e in names ==> f(e) == c
    ensures SumInt(names, f) == c * |names|
  {
    if names != [] { SumIntConst(names[1..], f, c); }
  }

  /** Changing one name's value by d changes the sum by d. */
  lemma {:induction false} SumIntBump(names: seq<string>, f: string -> int, g: string -> int, x: string, d: int)
    requires Distinct(names) && x in names
    requires f(x) == g(x) + d && forall e :: e in names && e != x ==> f(e) == g(e)
    ensures SumInt(names, f) == SumInt(names, g) + d
  {
    assert names == [names[0]] + names[1..];
    assert Distinct(names[1..]);
    if names[0] == x {
      assert x !in names[1..];
      SumIntSame(names[1..], f, g);
    } else {
      SumIntBump(names[1..], f, g, x, d);
    }
  }

  function Indicator(chosen: seq<string>): string -> int {
    (e: string) => if e in chosen then 1 else 0
  }

  lemma {:induction false} SumIndicator(names: seq<string>, chosen: seq<string>)
    requires Distinct(names) && Distinct(chosen) && forall e :: e in chosen ==> e in names
    ensures SumInt(names, Indicator(chosen)) == |chosen|
  {
    if chosen == [] {
      SumIntConst(names, Indicator([]), 0);
    } else {
      assert chosen == [chosen[0]] + chosen[1..];
      assert Distinct(chosen[1..]) && chosen[0] !in chosen[1..];
      SumIndicator(names, chosen[1..]);
      SumIntBump(names, Indicator(chosen), Indicator(chosen[1..]), chosen[0], 1);
    }
  }

  lemma {:induction false} SumRealAdd(names: seq<string>, f: string -> real, g: string -> int, h: string -> real)
    requires forall e :: e in names ==> f(e) == g(e) as real + h(e)
    ensures SumReal(names, f) == SumInt(names, g) as real + SumReal(names, h)
  {
    if names != [] { SumRealAdd(names[1..], f, g, h); }
  }

  lemma {:induction false} SumRealScale(names: seq<string>, f: string -> real, g: string -> real, c: real)
    requires forall e :: e in names ==> f(e) == c * g(e)
    ensures SumReal(names, f) == c * SumReal(names, g)
  {
    if names != [] {
      SumRealScale(names[1..], f, g, c);
      Distribute(c, g(names[0]), SumReal(names[1..], g));
    }
  }

  lemma Distribute(c: real, x: real, y: real)
    ensures c * (x + y) == c * x + c * y
  {
  }

  lemma {:induction false} SumRealPositive(names: seq<string>, f: string -> real)
    requires forall e :: e in names ==> f(e) > 0.0
    ensures SumReal(names, f) >= 0.0 && (names != [] ==> SumReal(names, f) > 0.0)
  {
    if names != [] { SumRealPositive(names[1..], f); }
  }

  /** A sum below an integer sum, by at least one if some value is. */
  lemma {:induction false} SumBelow(names: seq<string>, f: string -> real, g: string -> int, x: string)
    requires forall e :: e in names ==> 0.0 <= f(e) <= g(e) as real
    ensures 0.0 <= SumReal(names, f) <= SumInt(names, g) as real
    ensures x in names && f(x) <= g(x) as real - 1.0 ==> SumReal(names, f) <= SumInt(names, g) as real - 1.0
  {
    if names != [] {
      assert names == [names[0]] + names[1..];
      SumBelow(names[1..], f, g, x);
    }
  }

  // ---------- the allocation ----------

  /** What an allocation depends on; weights are positive. */
  datatype Mix = Mix(envs: seq<string>, floor: int, total: int, weight: string -> real)

  ghost predicate ValidMix(m: Mix) {
    m.envs != [] && Distinct(m.envs) && forall e :: e in m.envs ==> m.weight(e) > 0.0
  }

  function Rest(m: Mix): int {
    m.total - m.floor * |m.envs|
  }

  function QuotaFn(m: Mix): string -> real
    requires SumReal(m.envs, m.weight) != 0.0
  {
    (e: string) => Rest(m) as real * m.weight(e) / SumReal(m.envs, m.weight)
  }

  function BaseFn(q: string -> real): string -> int { (e: string) => q(e).Floor }

  function RemainderFn(q: string -> real): string -> real { (e: string) => q(e) - q(e).Floor as real }

  /** Largest remainder first; equal remainders stay in the order of the list. */
  function ByRemainder(q: string -> real): (string, string) -> bool {
    (a: string, b: string) => RemainderFn(q)(a) >= RemainderFn(q)(b)
  }

  function Leftover(m: Mix, q: string -> real): int {
    Rest(m) - SumInt(m.envs, BaseFn(q))
  }

  /** The names that get one more than their quota rounded down. */
  function Favoured(m: Mix, q: string -> real): seq<string>
    requires 0 <= Leftover(m, q) <= |m.envs|
  {
    SortMultiset(m.envs, ByRemainder(q));
    Sort<string>(m.envs, ByRemainder(q))[..Leftover(m, q)]
  }

  lemma ScaleBack(r: real, s: real, w: real)
    requires s != 0.0
    ensures r * w / s == (r / s) * w
    ensures (r / s) * s == r
  {
    var k := r / s;
    assert k * s == r;
    assert r * w == k * s * w == (k * w) * s;
  }

  lemma QuotaSum(m: Mix)
    requires ValidMix(m)
    ensures SumReal(m.envs, m.weight) > 0.0 && SumReal(m.envs, QuotaFn(m)) == Rest(m) as real
  {
    SumRealPositive(m.envs, m.weight);
    var r, s := Rest(m) as real, SumReal(m.envs, m.weight);
    forall e ensures QuotaFn(m)(e) == (r / s) * m.weight(e) { ScaleBack(r, s, m.weight(e)); }
    SumRealScale(m.envs, QuotaFn(m), m.weight, r / s);
    ScaleBack(r, s, s);
  }

  /** The leftover is the sum of the remainders. */
  lemma LeftoverIsRemainders(m: Mix, q: string -> real)
    requires SumReal(m.envs, q) == Rest(m) as real
    ensures Leftover(m, q) as real == SumReal(m.envs, RemainderFn(q))
  {
    SumRealAdd(m.envs, q, BaseFn(q), RemainderFn(q));
  }

  lemma LeftoverInRange(m: Mix, q: string -> real)
    requires SumReal(m.envs, q) == Rest(m) as real
    ensures 0 <= Leftover(m, q) <= |m.envs|
  {
    LeftoverIsRemainders(m, q);
    var one := (e: string) => 1;
    SumBelow(m.envs, RemainderFn(q), one, "");
    SumIntConst(m.envs, one, 1);
  }

  function Shares(m: Mix, q: string -> real): string -> int
    requires SumReal(m.envs, q) == Rest(m) as real
  {
    LeftoverInRange(m, q);
    var favoured := Favoured(m, q);
    (e: string) => m.floor + q(e).Floor + if e in favoured then 1 else 0
  }

  /** What an even split leaves over. */
  function OddCount(m: Mix): (n: nat)
    requires m.envs != []
    ensures n < |m.envs|
  {
    m.total - m.total / |m.envs| * |m.envs|
  }

  /** The floors alone are over budget: an even split, the first names taking the odd ones. */
  function EvenSplit(m: Mix): string -> int
    requires m.envs != []
  {
    var each, odd := m.total / |m.envs|, m.envs[..OddCount(m)];
    (e: string) => each + if e in odd then 1 else 0
  }

  ghost function Slots(m: Mix): string -> int
    requires ValidMix(m)
  {
    if Rest(m) < 0 then EvenSplit(m)
    else if Rest(m) == 0 then (e: string) => m.floor
    else QuotaSum(m); Shares(m, QuotaFn(m))
  }

  // ---------- the sum ----------

  lemma PrefixFacts(names: seq<string>, n: nat)
    requires Distinct(names) && n <= |names|
    ensures Distinct(names[..n]) && forall e :: e in names[..n] ==> e in names
  {
  }

  lemma SortedDistinct(names: seq<string>, le: (string, string) -> bool)
    requires Distinct(names)
    ensures Distinct(Sort<string>(names, le)) && |Sort<string>(names, le)| == |names|
    ensures forall e :: e in Sort<string>(names, le) <==> e in names
  {
    SortMultiset(names, le);
    DistinctByMultiset(names, Sort<string>(names, le));
    forall e ensures e in Sort<string>(names, le) <==> e in names { SortMember(names, le, e); }
  }

  /** However the yields stand, the slots add up to the total. */
  lemma SlotsSum(m: Mix)
    requires ValidMix(m)
    ensures SumInt(m.envs, Slots(m)) == m.total
  {
    if Rest(m) < 0 {
      var each := m.total / |m.envs|;
      var odd := m.envs[..OddCount(m)];
      PrefixFacts(m.envs, |odd|);
      SumIndicator(m.envs, odd);
      SumIntConst(m.envs, (e: string) => each, each);
      SumIntAdd(m.envs, Slots(m), (e: string) => each, Indicator(odd));
    } else if Rest(m) == 0 {
      SumIntConst(m.envs, Slots(m), m.floor);
    } else {
      QuotaSum(m);
      SharesSum(m, QuotaFn(m));
    }
  }

  lemma SharesSum(m: Mix, q: string -> real)
    requires Distinct(m.envs) && SumReal(m.envs, q) == Rest(m) as real
    ensures SumInt(m.envs, Shares(m, q)) == m.total
  {
    LeftoverInRange(m, q);
    var favoured := Favoured(m, q);
    SortedDistinct(m.envs, ByRemainder(q));
    PrefixFacts(Sort<string>(m.envs, ByRemainder(q)), |favoured|);
    SumIndicator(m.envs, favoured);
    var floors: string -> int, rounded: string -> int := (e: string) => m.floor, (e: string) => m.floor + BaseFn(q)(e);
    SumIntConst(m.envs, floors, m.floor);
    SumIntAdd(m.envs, rounded, floors, BaseFn(q));
    SumIntAdd(m.envs, Shares(m, q), rounded, Indicator(favoured));
  }

  // ---------- rounding ----------

  /** A larger remainder is favoured before a smaller one. */
  lemma FavouredFirst(m: Mix, q: string -> real, a: string, b: string)
    requires 0 <= Leftover(m, q) <= |m.envs|
    requires a in m.envs && b in Favoured(m, q) && RemainderFn(q)(a) > RemainderFn(q)(b)
    ensures a in Favoured(m, q)
  {
    var le := ByRemainder(q);
    var order, n := Sort<string>(m.envs, le), Leftover(m, q);
    SortMember(m.envs, le, a);
    SortMultiset(m.envs, le);
    assert TotalPreorder(le);
    SortSorted(m.envs, le);
    var i :| 0 <= i < |order| && order[i] == a;
    var j :| 0 <= j < n && order[j] == b;
    forall k | n <= k < |order| ensures order[k] != a { assert le(order[j], order[k]); }
    assert order[..n][i] == a;
  }

  /** Only a quota with a fraction is rounded up. */
  lemma FavouredHasRemainder(m: Mix, q: string -> real, x: string)
    requires Distinct(m.envs) && SumReal(m.envs, q) == Rest(m) as real
    requires 0 <= Leftover(m, q) <= |m.envs| && x in Favoured(m, q)
    ensures RemainderFn(q)(x) > 0.0
  {
    var favoured, f := Favoured(m, q), RemainderFn(q);
    SortedDistinct(m.envs, ByRemainder(q));
    PrefixFacts(Sort<string>(m.envs, ByRemainder(q)), |favoured|);
    if f(x) <= 0.0 {
      forall e | e in m.envs ensures 0.0 <= f(e) <= Indicator(favoured)(e) as real {
        if e !in favoured && f(e) > f(x) { FavouredFirst(m, q, e, x); }
      }
      SumBelow(m.envs, f, Indicator(favoured), x);
      SumIndicator(m.envs, favoured);
      LeftoverIsRemainders(m, q);
      assert false;
    }
  }

  lemma SharesRounded(m: Mix, q: string -> real, e: string)
    requires Distinct(m.envs) && SumReal(m.envs, q) == Rest(m) as real && e in m.envs && q(e) >= 0.0
    ensures var extra := Shares(m, q)(e) - m.floor;
      extra as real - 1.0 < q(e) < extra as real + 1.0 && extra >= 0
  {
    LeftoverInRange(m, q);
    if e in Favoured(m, q) { FavouredHasRemainder(m, q, e); }
  }

  lemma QuotaSign(r: real, s: real, w: real)
    requires s > 0.0 && w > 0.0 && r >= 0.0
    ensures r * w / s >= 0.0 && (r == 0.0 ==> r * w / s == 0.0)
  {
    assert r * w >= 0.0;
  }

  lemma QuotaNonNegative(m: Mix, e: string)
    requires ValidMix(m) && Rest(m) >= 0 && e in m.envs
    ensures SumReal(m.envs, m.weight) > 0.0 && QuotaFn(m)(e) >= 0.0 && (Rest(m) == 0 ==> QuotaFn(m)(e) == 0.0)
  {
    QuotaSum(m);
    QuotaSign(Rest(m) as real, SumReal(m.envs, m.weight), m.weight(e));
  }

  /** When the floors fit, every name gets its floor and its quota rounded down or up. */
  lemma SlotsRounded(m: Mix, e: string)
    requires ValidMix(m) && Rest(m) >= 0 && e in m.envs
    ensures SumReal(m.envs, m.weight) > 0.0
    ensures var extra := Slots(m)(e) - m.floor;
      extra as real - 1.0 < QuotaFn(m)(e) < extra as real + 1.0 && extra >= 0
  {
    QuotaNonNegative(m, e);
    if Rest(m) > 0 {
      QuotaSum(m);
      SharesRounded(m, QuotaFn(m), e);
    }
  }

  lemma QuotaOrder(r: real, s: real, a: real, b: real)
    requires s > 0.0 && r > 0.0 && a > b
    ensures r * a / s > r * b / s
  {
    assert r * a > r * b;
    assert (r * a - r * b) / s > 0.0;
  }

  lemma QuotasOrdered(m: Mix, a: string, b: string, r: real, s: real)
    requires r == Rest(m) as real && s == SumReal(m.envs, m.weight)
    requires s > 0.0 && r > 0.0 && m.weight(a) > m.weight(b)
    ensures QuotaFn(m)(a) > QuotaFn(m)(b)
  {
    QuotaOrder(r, s, m.weight(a), m.weight(b));
  }

  /** A strictly larger weight never gets fewer slots. */
  lemma MoreWeightMoreSlots(m: Mix, a: string, b: string)
    requires ValidMix(m) && Rest(m) >= 0 && a in m.envs && b in m.envs && m.weight(a) > m.weight(b)
    ensures Slots(m)(a) >= Slots(m)(b)
  {
    if Rest(m) > 0 {
      QuotaSum(m);
      QuotasOrdered(m, a, b, Rest(m) as real, SumReal(m.envs, m.weight));
      SharesOrder(m, QuotaFn(m), a, b);
    }
  }

  lemma SharesOrder(m: Mix, q: string -> real, a: string, b: string)
    requires SumReal(m.envs, q) == Rest(m) as real && a in m.envs && b in m.envs && q(a) > q(b)
    ensures Shares(m, q)(a) >= Shares(m, q)(b)
  {
    LeftoverInRange(m, q);
    if b in Favoured(m, q) && q(a).Floor == q(b).Floor { FavouredFirst(m, q, a, b); }
  }

  // ---------- ties ----------

  ghost predicate ListedBefore(names: seq<string>, a: string, b: string) {
    exists i, j :: 0 <= i < j < |names| && names[i] == a && names[j] == b
  }

  lemma {:induction false} FilterNone(xs: seq<string>, p: string -> bool)
    requires forall k :: 0 <= k < |xs| ==> !p(xs[k])
    ensures Filter<string>(xs, p) == []
  {
    if xs != [] { FilterNone(xs[1..], p); }
  }

  lemma {:induction false} FilterOne(xs: seq<string>, j: nat, p: string -> bool)
    requires j < |xs| && forall k :: 0 <= k < |xs| ==> (p(xs[k]) <==> k == j)
    ensures Filter<string>(xs, p) == [xs[j]]
  {
    if j == 0 { FilterNone(xs[1..], p); } else { FilterOne(xs[1..], j - 1, p); }
  }

  lemma {:induction false} FilterTwo(xs: seq<string>, i: nat, j: nat, p: string -> bool)
    requires i < j < |xs| && forall k :: 0 <= k < |xs| ==> (p(xs[k]) <==> k == i || k == j)
    ensures Filter<string>(xs, p) == [xs[i], xs[j]]
  {
    if i == 0 { FilterOne(xs[1..], j - 1, p); } else { FilterTwo(xs[1..], i - 1, j - 1, p); }
  }

  function EitherOf(a: string, b: string): string -> bool { (e: string) => e == a || e == b }

  lemma StablePair(names: seq<string>, q: string -> real, a: string, b: string)
    requires RemainderFn(q)(a) == RemainderFn(q)(b)
    ensures Filter<string>(Sort<string>(names, ByRemainder(q)), EitherOf(a, b)) == Filter<string>(names, EitherOf(a, b))
  {
    assert TotalPreorder(ByRemainder(q));
    SortStable(names, ByRemainder(q), EitherOf(a, b));
  }

  lemma PairInOrder(names: seq<string>, order: seq<string>, i: nat, j: nat, x: nat, y: nat)
    requires Distinct(names) && Distinct(order) && i < j < |names| && x < |order| && y < |order|
    requires order[x] == names[i] && order[y] == names[j]
    requires Filter<string>(order, EitherOf(names[i], names[j])) == Filter<string>(names, EitherOf(names[i], names[j]))
    ensures x < y
  {
    FilterTwo(names, i, j, EitherOf(names[i], names[j]));
    if y < x { FilterTwo(order, y, x, EitherOf(names[i], names[j])); }
  }

  /** Among names with equal remainders the earlier ones are favoured first, since the sort is stable. */
  lemma EarlierFavoured(m: Mix, q: string -> real, a: string, b: string)
    requires Distinct(m.envs) && ListedBefore(m.envs, a, b) && RemainderFn(q)(a) == RemainderFn(q)(b)
    requires 0 <= Leftover(m, q) <= |m.envs| && b in Favoured(m, q)
    ensures a in Favoured(m, q)
  {
    var order := Sort<string>(m.envs, ByRemainder(q));
    var i, j :| 0 <= i < j < |m.envs| && m.envs[i] == a && m.envs[j] == b;
    SortedDistinct(m.envs, ByRemainder(q));
    assert a in order;
    var x :| 0 <= x < |order| && order[x] == a;
    var y :| 0 <= y < Leftover(m, q) && order[y] == b;
    StablePair(m.envs, q, a, b);
    PairInOrder(m.envs, order, i, j, x, y);
  }

  lemma SharesTie(m: Mix, q: string -> real, a: string, b: string)
    requires Distinct(m.envs) && SumReal(m.envs, q) == Rest(m) as real && q(a) == q(b)
    requires ListedBefore(m.envs, a, b)
    ensures Shares(m, q)(a) >= Shares(m, q)(b)
  {
    LeftoverInRange(m, q);
    if b in Favoured(m, q) { EarlierFavoured(m, q, a, b); }
  }

  lemma QuotasTie(m: Mix, a: string, b: string)
    requires SumReal(m.envs, m.weight) != 0.0 && m.weight(a) == m.weight(b)
    ensures QuotaFn(m)(a) == QuotaFn(m)(b)
  {
  }

  /** When the floors alone are over budget the total is split evenly, up to one slot. */
  lemma OverBudgetEven(m: Mix, a: string, b: string)
    requires ValidMix(m) && m.floor * |m.envs| > m.total
    ensures Slots(m)(a) <= Slots(m)(b) + 1
  {
  }

  /** Of two names with the same weight, or when the floors alone are over budget, the one listed first
      never gets fewer slots. */
  lemma ListedFirstNoFewer(m: Mix, a: string, b: string)
    requires ValidMix(m) && ListedBefore(m.envs, a, b) && (Rest(m) < 0 || m.weight(a) == m.weight(b))
    ensures Slots(m)(a) >= Slots(m)(b)
  {
    if Rest(m) < 0 {
      EvenSplitOrder(m, a, b);
    } else if Rest(m) > 0 {
      QuotaSum(m);
      QuotasTie(m, a, b);
      SharesTie(m, QuotaFn(m), a, b);
    }
  }

  lemma EvenSplitOrder(m: Mix, a: string, b: string)
    requires m.envs != [] && Distinct(m.envs) && ListedBefore(m.envs, a, b)
    ensures EvenSplit(m)(a) >= EvenSplit(m)(b)
  {
    if b in m.envs[..OddCount(m)] { PrefixOrder(m.envs, OddCount(m), a, b); }
  }

  lemma PrefixOrder(names: seq<string>, n: nat, a: string, b: string)
    requires Distinct(names) && n <= |names| && ListedBefore(names, a, b) && b in names[..n]
    ensures a in names[..n]
  {
    var i, j :| 0 <= i < j < |names| && names[i] == a && names[j] == b;
    var k :| 0 <= k < n && names[..n][k] == b;
    assert names[k] == names[j];
    assert names[..n][i] == a;
  }
}
