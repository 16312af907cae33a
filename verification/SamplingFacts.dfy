/** What the sampler computes, and that the fast forms compute the same. */
module SamplingFacts {
  import opened Sorting
  import opened ForcedSampling

  // ---------- arithmetic ----------

  lemma RatioOrder(a: real, b: real, z: real)
    requires z > 0.0
    ensures Ratio(a, z) >= Ratio(b, z) <==> a >= b
    ensures Ratio(a, z) > 0.0 <==> a > 0.0
    ensures Ratio(a, z) == 0.0 <==> a == 0.0
  {
    var x, y := a / z, b / z;
    assert x * z == a && y * z == b;
    if x >= y { assert x * z >= y * z; } else { assert x * z < y * z; }
    if x > 0.0 { assert x * z > 0.0; } else { assert x * z <= 0.0; }
  }

  ghost predicate NonNegative(xs: seq<real>) {
    forall i :: 0 <= i < |xs| ==> xs[i] >= 0.0
  }

  lemma SumSnoc(xs: seq<real>, x: real)
    ensures Sum(xs + [x]) == Sum(xs) + x
  {
    assert (xs + [x])[..|xs|] == xs;
  }

  lemma SumPrefix(xs: seq<real>, i: nat)
    requires i < |xs|
    ensures Sum(xs[..i + 1]) == Sum(xs[..i]) + xs[i]
  {
    assert xs[..i + 1] == xs[..i] + [xs[i]];
    SumSnoc(xs[..i], xs[i]);
  }

  lemma {:induction false} SumMonotone(xs: seq<real>, i: nat, j: nat)
    requires NonNegative(xs) && i <= j <= |xs|
    ensures 0.0 <= Sum(xs[..i]) <= Sum(xs[..j])
    decreases j
  {
    if i < j {
      SumMonotone(xs, i, j - 1);
      SumPrefix(xs, j - 1);
    } else if j > 0 {
      SumMonotone(xs, j - 1, j - 1);
      SumPrefix(xs, j - 1);
    }
  }

  lemma SumPositive(xs: seq<real>, i: nat)
    requires NonNegative(xs) && i < |xs| && xs[i] > 0.0
    ensures Sum(xs) > 0.0
  {
    assert xs[..|xs|] == xs;
    SumMonotone(xs, 0, i);
    SumPrefix(xs, i);
    SumMonotone(xs, i + 1, |xs|);
  }

  lemma NormalizeFacts(xs: seq<real>)
    requires NonNegative(xs) && Sum(xs) > 0.0
    ensures NonNegative(Normalize(xs))
    ensures forall i :: 0 <= i < |xs| ==> (Normalize(xs)[i] > 0.0 <==> xs[i] > 0.0)
    ensures forall i, j :: 0 <= i < |xs| && 0 <= j < |xs| ==>
      (Normalize(xs)[i] >= Normalize(xs)[j] <==> xs[i] >= xs[j])
  {
    forall i, j | 0 <= i < |xs| && 0 <= j < |xs|
      ensures Normalize(xs)[i] >= 0.0 && (Normalize(xs)[i] > 0.0 <==> xs[i] > 0.0)
      ensures Normalize(xs)[i] >= Normalize(xs)[j] <==> xs[i] >= xs[j]
    {
      RatioOrder(xs[i], xs[j], Sum(xs));
      RatioOrder(xs[i], 0.0, Sum(xs));
    }
  }

  // ---------- top-k ----------

  lemma DescendingLogitsTotal(lg: seq<Logit>)
    ensures TotalPreorder(DescendingLogits(lg))
  {
  }

  lemma DescendingByTotal(xs: seq<real>)
    ensures TotalPreorder(DescendingBy(xs))
  {
  }

  lemma SortedIndices(n: nat, le: (nat, nat) -> bool)
    ensures |Sort(Indices(n), le)| == n && Distinct(Sort(Indices(n), le))
    ensures forall i: nat :: i in Sort(Indices(n), le) <==> i < n
  {
    var xs, s := Indices(n), Sort(Indices(n), le);
    SortMultiset(xs, le);
    forall i: nat ensures i in s <==> i < n {
      SortMember(xs, le, i);
      if i < n { assert xs[i] == i; }
    }
    DistinctByMultiset(xs, s);
  }

  lemma {:induction false} SameMultiset(xs: seq<nat>, ys: seq<nat>)
    requires Distinct(xs) && Distinct(ys)
    requires forall x :: x in xs <==> x in ys
    ensures multiset(xs) == multiset(ys)
  {
    forall x ensures multiset(xs)[x] == multiset(ys)[x] {
      DistinctCount(xs, x);
      DistinctCount(ys, x);
      assert x in multiset(xs) <==> x in xs;
      assert x in multiset(ys) <==> x in ys;
    }
  }

  function Elements(xs: seq<nat>): set<nat> {
    set x | x in xs
  }

  lemma {:induction false} ElementsSize(xs: seq<nat>)
    requires Distinct(xs)
    ensures |Elements(xs)| == |xs|
  {
    if xs == [] {
      assert Elements(xs) == {};
    } else {
      ElementsSize(xs[1..]);
      assert Elements(xs) == {xs[0]} + Elements(xs[1..]);
      assert xs[0] !in xs[1..];
    }
  }

  lemma Pigeonhole(xs: seq<nat>, ys: seq<nat>)
    requires Distinct(xs) && Distinct(ys)
    requires forall x :: x in xs ==> x in ys
    ensures |xs| <= |ys|
    ensures |xs| == |ys| ==> forall y :: y in ys ==> y in xs
  {
    ElementsSize(xs);
    ElementsSize(ys);
    var a, b := Elements(xs), Elements(ys);
    assert b == a + (b - a);
    if |xs| == |ys| {
      assert |b - a| == 0;
      forall y | y in ys ensures y in xs { assert y in b; }
    }
  }

  /** Whatever way topk breaks ties, the last value it reports is the same. */
  lemma TopKLast(lg: seq<Logit>, k: nat, a: seq<nat>, b: seq<nat>)
    requires k > 0 && IsTopK(lg, k, a) && IsTopK(lg, k, b)
    ensures Geq(LogitAt(lg, b[k - 1]), LogitAt(lg, a[k - 1]))
  {
    if !Geq(LogitAt(lg, b[k - 1]), LogitAt(lg, a[k - 1])) {
      forall x | x in a ensures x in b[..k - 1] {
        var j :| 0 <= j < k && a[j] == x;
        assert Geq(LogitAt(lg, a[j]), LogitAt(lg, a[k - 1]));
      }
      Pigeonhole(a, b[..k - 1]);
    }
  }

  lemma SortIsTopK(lg: seq<Logit>, k: nat)
    requires 0 < k <= |lg|
    ensures |Sort(Indices(|lg|), DescendingLogits(lg))| == |lg|
    ensures IsTopK(lg, k, Sort(Indices(|lg|), DescendingLogits(lg))[..k])
  {
    var s := Sort(Indices(|lg|), DescendingLogits(lg));
    DescendingLogitsTotal(lg);
    SortSorted(Indices(|lg|), DescendingLogits(lg));
    SortedIndices(|lg|, DescendingLogits(lg));
    forall j | 0 <= j < k ensures s[..k][j] < |lg| { assert s[j] in s; }
    forall i: nat, j | i < |lg| && i !in s[..k] && 0 <= j < k
      ensures Geq(LogitAt(lg, s[..k][j]), LogitAt(lg, i))
    {
      assert i in s && s == s[..k] + s[k..];
      var m :| 0 <= m < |s[k..]| && s[k..][m] == i;
      assert DescendingLogits(lg)(s[j], s[k + m]);
    }
    forall i, j | 0 <= i < j < k ensures Geq(LogitAt(lg, s[..k][i]), LogitAt(lg, s[..k][j])) {
      assert DescendingLogits(lg)(s[i], s[j]);
    }
  }

  lemma KthValueUnique(lg: seq<Logit>, k: nat, top: seq<nat>)
    requires 0 < k <= |lg| && IsTopK(lg, k, top)
    ensures KthValue(lg, k) == LogitAt(lg, top[k - 1])
  {
    SortIsTopK(lg, k);
    var s := Sort(Indices(|lg|), DescendingLogits(lg))[..k];
    TopKLast(lg, k, top, s);
    TopKLast(lg, k, s, top);
  }

  lemma FilterDistinct(n: nat, q: nat -> bool)
    ensures Distinct(Filter(Indices(n), q))
    ensures forall i: nat :: i in Filter(Indices(n), q) <==> i < n && q(i)
  {
    FilterAscending(Indices(n), q);
    forall i: nat ensures i in Filter(Indices(n), q) <==> i < n && q(i) {
      FilterMembers(Indices(n), q);
      if i < n { assert Indices(n)[i] == i; }
    }
  }

  lemma {:induction false} FilterAscending(xs: seq<nat>, q: nat -> bool)
    requires forall i, j :: 0 <= i < j < |xs| ==> xs[i] < xs[j]
    ensures forall i, j :: 0 <= i < j < |Filter(xs, q)| ==> Filter(xs, q)[i] < Filter(xs, q)[j]
  {
    if xs != [] {
      var t := Filter(xs[1..], q);
      FilterAscending(xs[1..], q);
      FilterMembers(xs[1..], q);
      forall j | 0 <= j < |t| ensures xs[0] < t[j] {
        assert t[j] in xs[1..];
      }
      if q(xs[0]) {
        assert Filter(xs, q) == [xs[0]] + t;
      } else {
        assert Filter(xs, q) == t;
      }
    }
  }

  /** The tokens with strictly larger logits. */
  function StrictlyAbove(lg: seq<Logit>, i: nat): nat -> bool {
    (j: nat) => !Geq(LogitAt(lg, i), LogitAt(lg, j))
  }

  /** Top-k, without sorting: fewer than k tokens beat this one. */
  ghost predicate InTopK(lg: seq<Logit>, topK: int, i: nat)
    requires i < |lg|
  {
    topK > 0 ==> |Filter(Indices(|lg|), StrictlyAbove(lg, i))| < Min(topK, |lg|)
  }

  lemma FirstAreAbove(lg: seq<Logit>, k: nat, s: seq<nat>, i: nat)
    requires i < |lg| && k > 0 && IsTopK(lg, k, s) && !Geq(lg[i], LogitAt(lg, s[k - 1]))
    ensures forall x :: x in s ==> x in Filter(Indices(|lg|), StrictlyAbove(lg, i))
  {
    FilterDistinct(|lg|, StrictlyAbove(lg, i));
    forall x | x in s ensures x in Filter(Indices(|lg|), StrictlyAbove(lg, i)) {
      var j :| 0 <= j < k && s[j] == x;
      assert Geq(LogitAt(lg, s[j]), LogitAt(lg, s[k - 1]));
    }
  }

  lemma TopKMeaning(lg: seq<Logit>, topK: int, i: nat)
    requires i < |lg|
    ensures TopK(lg, topK)[i] == if InTopK(lg, topK, i) then lg[i] else NegInf
  {
    if topK > 0 {
      var k := Min(topK, |lg|);
      SortIsTopK(lg, k);
      var s := Sort(Indices(|lg|), DescendingLogits(lg))[..k];
      var above := Filter(Indices(|lg|), StrictlyAbove(lg, i));
      FilterDistinct(|lg|, StrictlyAbove(lg, i));
      if Geq(lg[i], LogitAt(lg, s[k - 1])) {
        AboveAreFirst(lg, k, s, i);
        Pigeonhole(above, s[..k - 1]);
      } else {
        FirstAreAbove(lg, k, s, i);
        Pigeonhole(s, above);
      }
    }
  }

  lemma AboveAreFirst(lg: seq<Logit>, k: nat, s: seq<nat>, i: nat)
    requires i < |lg| && k > 0 && IsTopK(lg, k, s) && Geq(lg[i], LogitAt(lg, s[k - 1]))
    ensures forall x :: x in Filter(Indices(|lg|), StrictlyAbove(lg, i)) ==> x in s[..k - 1]
  {
    FilterDistinct(|lg|, StrictlyAbove(lg, i));
    forall x | x in Filter(Indices(|lg|), StrictlyAbove(lg, i)) ensures x in s[..k - 1] {
      assert x !in s ==> Geq(LogitAt(lg, s[k - 1]), LogitAt(lg, x));
      assert x in s;
      var j :| 0 <= j < k && s[j] == x;
      assert s == s[..k - 1] + [s[k - 1]];
    }
  }

  lemma TopKUsable(lg: seq<Logit>, topK: int)
    requires Usable(lg)
    ensures Usable(TopK(lg, topK))
  {
    if topK > 0 {
      var k := Min(topK, |lg|);
      SortIsTopK(lg, k);
      var s := Sort(Indices(|lg|), DescendingLogits(lg));
      SortIsTopK(lg, 1);
      var i :| 0 <= i < |lg| && lg[i].Fin?;
      var a := s[0];
      assert a in s[..k] && s[..k][0] == a && s[..1][0] == a;
      if a != i { assert i !in s[..1]; assert Geq(LogitAt(lg, s[..1][0]), LogitAt(lg, i)); }
      if k > 1 { assert Geq(LogitAt(lg, s[..k][0]), LogitAt(lg, s[..k][k - 1])); }
      assert TopK(lg, topK)[a].Fin?;
    }
  }

  // ---------- softmax ----------

  lemma WeightOrder(p: Params, a: Logit, b: Logit)
    requires ValidParams(p)
    ensures Weight(p.weight, a) >= 0.0
    ensures Weight(p.weight, a) > 0.0 <==> a.Fin?
    ensures Weight(p.weight, a) >= Weight(p.weight, b) <==> Geq(a, b)
  {
  }

  lemma SoftmaxFacts(p: Params, lg: seq<Logit>)
    requires ValidParams(p) && Usable(lg)
    ensures var probs := Softmax(p.weight, lg);
      && Sum(Weights(p.weight, lg)) > 0.0
      && NonNegative(Weights(p.weight, lg)) && NonNegative(probs)
      && (forall i :: 0 <= i < |lg| ==> (probs[i] > 0.0 <==> lg[i].Fin?))
      && (forall i, j :: 0 <= i < |lg| && 0 <= j < |lg| ==> (probs[i] >= probs[j] <==> Geq(lg[i], lg[j])))
  {
    var ws, probs := Weights(p.weight, lg), Softmax(p.weight, lg);
    forall i, j | 0 <= i < |lg| && 0 <= j < |lg|
      ensures ws[i] >= 0.0 && (ws[i] > 0.0 <==> lg[i].Fin?) && (ws[i] >= ws[j] <==> Geq(lg[i], lg[j]))
    {
      WeightOrder(p, lg[i], lg[j]);
    }
    var i :| 0 <= i < |lg| && lg[i].Fin?;
    SumPositive(ws, i);
    NormalizeFacts(ws);
  }

  // ---------- top-p ----------

  lemma {:induction false} LookupAt(ids: seq<nat>, vals: seq<real>, j: nat)
    requires |ids| == |vals| && Distinct(ids) && j < |ids|
    ensures Lookup(ids[j], ids, vals) == vals[j]
  {
    if j > 0 {
      LookupAt(ids[1..], vals[1..], j - 1);
      assert ids[1..][j - 1] == ids[j];
    }
  }

  lemma {:induction false} LookupAbsent(i: nat, ids: seq<nat>, vals: seq<real>)
    requires |ids| == |vals| && i !in ids
    ensures Lookup(i, ids, vals) == 0.0
  {
    if ids != [] { LookupAbsent(i, ids[1..], vals[1..]); }
  }

  lemma TopPAt(probs: seq<real>, order: seq<nat>, topP: real, j: nat)
    requires Distinct(order) && j < |order| && order[j] < |probs|
    ensures TopP(probs, order, topP)[order[j]]
         == if Sum(Gather(probs, order)[..j]) < topP then probs[order[j]] else 0.0
  {
    var sp := Gather(probs, order);
    var kept := seq(|sp|, i requires 0 <= i < |sp| => if Cumsum(sp)[i] - sp[i] < topP then sp[i] else 0.0);
    SumPrefix(sp, j);
    LookupAt(order, kept, j);
  }

  lemma TopPAbsent(probs: seq<real>, order: seq<nat>, topP: real, i: nat)
    requires i < |probs| && i !in order
    ensures TopP(probs, order, topP)[i] == 0.0
  {
    var sp := Gather(probs, order);
    var kept := seq(|sp|, i requires 0 <= i < |sp| => if Cumsum(sp)[i] - sp[i] < topP then sp[i] else 0.0);
    LookupAbsent(i, order, kept);
  }

  lemma TopPNonNegative(probs: seq<real>, order: seq<nat>, topP: real)
    requires NonNegative(probs) && Distinct(order)
    ensures NonNegative(TopP(probs, order, topP))
  {
    forall i: nat | i < |probs| ensures TopP(probs, order, topP)[i] >= 0.0 {
      if i in order {
        var j :| 0 <= j < |order| && order[j] == i;
        TopPAt(probs, order, topP, j);
      } else {
        TopPAbsent(probs, order, topP, i);
      }
    }
  }

  /** Entries of zero probability at the end of the order do not matter. */
  lemma TopPExtend(probs: seq<real>, a: seq<nat>, z: seq<nat>, topP: real)
    requires Distinct(a + z)
    requires forall x :: x in a ==> x < |probs|
    requires forall x :: x in z ==> x < |probs| && probs[x] == 0.0
    ensures TopP(probs, a + z, topP) == TopP(probs, a, topP)
  {
    assert Distinct(a) by {
      forall i, j | 0 <= i < j < |a| ensures a[i] != a[j] { assert (a + z)[i] == a[i] && (a + z)[j] == a[j]; }
    }
    forall i: nat | i < |probs| ensures TopP(probs, a + z, topP)[i] == TopP(probs, a, topP)[i] {
      if i in a {
        var j :| 0 <= j < |a| && a[j] == i;
        assert (a + z)[j] == i;
        TopPAt(probs, a, topP, j);
        TopPAt(probs, a + z, topP, j);
        assert Gather(probs, a + z)[..j] == Gather(probs, a)[..j];
      } else {
        TopPAbsent(probs, a, topP, i);
        if i in z {
          var j :| 0 <= j < |z| && z[j] == i;
          assert (a + z)[|a| + j] == i;
          TopPAt(probs, a + z, topP, |a| + j);
        } else {
          TopPAbsent(probs, a + z, topP, i);
        }
      }
    }
  }

  // ---------- the restricted sort ----------

  function ZeroOrder(probs: seq<real>): seq<nat> {
    Sort<nat>(Filter<nat>(Indices(|probs|), Not<nat>(PositiveIn(probs))), DescendingBy(probs))
  }

  lemma SurvivorOrder(probs: seq<real>)
    requires NonNegative(probs)
    ensures Order(probs) == Sort(Survivors(probs), DescendingBy(probs)) + ZeroOrder(probs)
    ensures forall x :: x in ZeroOrder(probs) ==> x < |probs| && probs[x] == 0.0
  {
    SortSplit<nat>(Indices(|probs|), PositiveIn(probs), DescendingBy(probs));
    var zs := Filter<nat>(Indices(|probs|), Not<nat>(PositiveIn(probs)));
    FilterDistinct(|probs|, Not<nat>(PositiveIn(probs)));
    forall x | x in ZeroOrder(probs) ensures x < |probs| && probs[x] == 0.0 {
      SortMember<nat>(zs, DescendingBy(probs), x);
      assert x in zs;
    }
  }

  lemma RestrictedTopP(probs: seq<real>, topP: real)
    requires NonNegative(probs)
    ensures TopP(probs, Order(probs), topP)
         == TopP(probs, Sort(Survivors(probs), DescendingBy(probs)), topP)
  {
    var a, z := Sort(Survivors(probs), DescendingBy(probs)), ZeroOrder(probs);
    SurvivorOrder(probs);
    SortedIndices(|probs|, DescendingBy(probs));
    forall x | x in a ensures x < |probs| { assert x in a + z; }
    TopPExtend(probs, a, z, topP);
  }

  lemma ScaledUsable(logits: seq<Logit>, t: real)
    requires Usable(logits)
    ensures Usable(Scaled(logits, t))
  {
    var i :| 0 <= i < |logits| && logits[i].Fin?;
    assert Scaled(logits, t)[i].Fin?;
  }

  /** The restricted sort gives the very same distribution. */
  lemma WarpFastEqualsWarp(logits: seq<Logit>, p: Params)
    requires ValidParams(p) && Usable(logits)
    ensures WarpFast(logits, p) == Warp(logits, p)
  {
    ScaledUsable(logits, p.temperature);
    TopKUsable(Scaled(logits, p.temperature), p.topK);
    SoftmaxFacts(p, TopK(Scaled(logits, p.temperature), p.topK));
    RestrictedTopP(Softmax(p.weight, TopK(Scaled(logits, p.temperature), p.topK)), p.topP);
  }

  // ---------- the restricted pick ----------

  lemma {:induction false} SumSkip(xs: seq<real>, i: nat, j: nat)
    requires i <= j <= |xs| && forall k :: i <= k < j ==> xs[k] == 0.0
    ensures Sum(xs[..j]) == Sum(xs[..i])
    decreases j
  {
    if i < j {
      SumSkip(xs, i, j - 1);
      SumPrefix(xs, j - 1);
    }
  }

  ghost predicate StrictlyAscending(ids: seq<nat>) {
    forall i, j :: 0 <= i < j < |ids| ==> ids[i] < ids[j]
  }

  ghost predicate Covers(asc: seq<nat>, probs: seq<real>) {
    && StrictlyAscending(asc)
    && (forall x :: x in asc ==> x < |probs|)
    && (forall i: nat :: i < |probs| && i !in asc ==> probs[i] == 0.0)
  }

  function Bound(asc: seq<nat>, m: nat, n: nat): nat {
    if m < |asc| then asc[m] else n
  }

  /** The restricted cumulative sum agrees with the full one at every survivor. */
  lemma {:induction false} PrefixMass(probs: seq<real>, asc: seq<nat>, m: nat)
    requires Covers(asc, probs) && m <= |asc|
    ensures Bound(asc, m, |probs|) <= |probs|
    ensures Sum(probs[..Bound(asc, m, |probs|)]) == Sum(Gather(probs, asc)[..m])
  {
    var b, g := Bound(asc, m, |probs|), Gather(probs, asc);
    if m < |asc| { assert asc[m] in asc; }
    if m == 0 {
      forall k: nat | k < b ensures probs[k] == 0.0 { NotSurvivor(probs, asc, 0, k); }
      SumSkip(probs, 0, b);
    } else {
      var a := asc[m - 1];
      assert a in asc;
      PrefixMass(probs, asc, m - 1);
      SumPrefix(g, m - 1);
      SumPrefix(probs, a);
      forall k: nat | a + 1 <= k < b ensures probs[k] == 0.0 { NotSurvivor(probs, asc, m, k); }
      SumSkip(probs, a + 1, b);
    }
  }

  lemma NotSurvivor(probs: seq<real>, asc: seq<nat>, m: nat, k: nat)
    requires Covers(asc, probs) && m <= |asc| && k < Bound(asc, m, |probs|) && k < |probs|
    requires m > 0 ==> asc[m - 1] < k
    ensures probs[k] == 0.0
  {
    forall j | 0 <= j < |asc| ensures asc[j] != k {
      if j < m { assert j < m - 1 ==> asc[j] < asc[m - 1]; } else { assert m < j ==> asc[m] < asc[j]; }
    }
  }

  lemma SearchRightIs(xs: seq<real>, u: real, r: nat)
    requires r <= |xs| && NonNegative(xs)
    requires r > 0 ==> Sum(xs[..r]) <= u
    requires r < |xs| ==> Sum(xs[..r + 1]) > u
    ensures SearchRight(Cumsum(xs), u) == r
  {
    var cdf := Cumsum(xs);
    assert r < |xs| ==> cdf[r] > u;
    forall q | 0 <= q < r ensures cdf[q] <= u { SumMonotone(xs, q + 1, r); }
  }

  /** Searching the survivors alone, in token order, finds the same token. */
  lemma PickRestricted(probs: seq<real>, asc: seq<nat>, u: real)
    requires probs != [] && NonNegative(probs) && Covers(asc, probs) && u >= 0.0
    ensures var pos := SearchRight(Cumsum(Gather(probs, asc)), u);
      Pick(probs, u) == if pos >= |asc| then |probs| - 1 else asc[pos]
  {
    var g := Gather(probs, asc);
    var pos := SearchRight(Cumsum(g), u);
    PrefixMass(probs, asc, pos);
    assert pos > 0 ==> Cumsum(g)[pos - 1] == Sum(g[..pos]);
    if pos < |asc| {
      var a := asc[pos];
      assert a in asc;
      SumPrefix(g, pos);
      SumPrefix(probs, a);
      SearchRightIs(probs, u, a);
    } else {
      assert probs[..|probs|] == probs;
      SearchRightIs(probs, u, |probs|);
    }
  }

  // ---------- the fast rows ----------

  lemma NoBoundaryTie(lg: seq<Logit>, k: nat, top: seq<nat>)
    requires 0 < k < |lg| && IsTopK(lg, k, top) && !BoundaryTie(lg, k, top)
    ensures forall i: nat :: i < |lg| ==> (i in top <==> Geq(lg[i], LogitAt(lg, top[k - 1])))
    ensures forall j :: 0 <= j < k ==> LogitAt(lg, top[j]).Fin?
  {
    var kth := LogitAt(lg, top[k - 1]);
    var keep := Filter(Indices(|lg|), AtLeast(lg, kth));
    FilterDistinct(|lg|, AtLeast(lg, kth));
    forall x | x in top ensures x in keep {
      var j :| 0 <= j < k && top[j] == x;
      assert Geq(LogitAt(lg, top[j]), kth);
    }
    Pigeonhole(top, keep);
    if kth.NegInf? {
      forall x | x in Indices(|lg|) ensures x in keep {}
      Pigeonhole(Indices(|lg|), keep);
      assert false;
    }
    forall j | 0 <= j < k ensures LogitAt(lg, top[j]).Fin? { assert top[j] in top && top[j] in keep; }
  }

  lemma TopIsSurvivorOrder(lg: seq<Logit>, k: nat, top: seq<nat>, probs: seq<real>)
    requires 0 < k < |lg| && IsTopK(lg, k, top) && |probs| == |lg|
    requires !InnerTie(lg, top)
    requires forall i: nat :: i < |lg| ==> (i in top <==> probs[i] > 0.0)
    requires forall i, j :: 0 <= i < |lg| && 0 <= j < |lg| && i in top && j in top ==>
      (probs[i] >= probs[j] <==> Geq(lg[i], lg[j]))
    requires forall j :: 0 <= j < k ==> LogitAt(lg, top[j]).Fin?
    ensures Sort(Survivors(probs), DescendingBy(probs)) == top
  {
    var le, sv := DescendingBy(probs), Survivors(probs);
    DescendingByTotal(probs);
    FilterDistinct(|probs|, PositiveIn(probs));
    SameMultiset(sv, top);
    forall i, j | 0 <= i < j < k ensures le(top[i], top[j]) && !le(top[j], top[i]) {
      assert top[i] in top && top[j] in top;
      assert LogitAt(lg, top[i + 1]) != LogitAt(lg, top[i]);
      assert Geq(LogitAt(lg, top[i]), LogitAt(lg, top[i + 1]));
      assert j > i + 1 ==> Geq(LogitAt(lg, top[i + 1]), LogitAt(lg, top[j]));
    }
    forall x, y | x in sv && y in sv && le(x, y) && le(y, x) ensures x == y {
      assert x in top && y in top;
      var i, j :| 0 <= i < k && 0 <= j < k && top[i] == x && top[j] == y;
    }
    SortUnique(sv, top, le);
  }

  lemma AscendingSort(top: seq<nat>, probs: seq<real>)
    requires Distinct(top) && forall x :: x in top ==> x < |probs|
    requires forall i: nat :: i < |probs| && i !in top ==> probs[i] == 0.0
    ensures Covers(Sort(top, Ascending), probs) && |Sort(top, Ascending)| == |top|
  {
    var asc := Sort(top, Ascending);
    SortMultiset(top, Ascending);
    SortSorted(top, Ascending);
    DistinctByMultiset(top, asc);
    forall x: nat ensures x in asc <==> x in top { SortMember(top, Ascending, x); }
    forall i, j | 0 <= i < j < |asc| ensures asc[i] < asc[j] { assert Ascending(asc[i], asc[j]); }
  }

  lemma NormalizeZero(xs: seq<real>)
    requires NonNegative(xs)
    ensures NonNegative(Normalize(xs))
    ensures forall i :: 0 <= i < |xs| && xs[i] == 0.0 ==> Normalize(xs)[i] == 0.0
  {
    assert xs[..|xs|] == xs;
    SumMonotone(xs, |xs|, |xs|);
    if Sum(xs) > 0.0 { NormalizeFacts(xs); }
    forall i | 0 <= i < |xs| && xs[i] == 0.0 ensures Normalize(xs)[i] == 0.0 {
      if Sum(xs) > 0.0 { RatioOrder(xs[i], 0.0, Sum(xs)); }
    }
  }

  /** Without ties the mask is the reference's, and topk's order is the survivors' sorted order. */
  lemma FastOrder(lg: seq<Logit>, p: Params, top: seq<nat>)
    requires ValidParams(p) && Usable(lg) && 0 < p.topK < |lg|
    requires IsTopK(lg, p.topK, top) && !BoundaryTie(lg, p.topK, top) && !InnerTie(lg, top)
    ensures MaskBelow(lg, LogitAt(lg, top[p.topK - 1])) == TopK(lg, p.topK)
    ensures var probs := Softmax(p.weight, TopK(lg, p.topK));
      && NonNegative(probs)
      && (forall i: nat :: i < |lg| && i !in top ==> probs[i] == 0.0)
      && Sort(Survivors(probs), DescendingBy(probs)) == top
  {
    var k, masked := p.topK, TopK(lg, p.topK);
    var probs := Softmax(p.weight, masked);
    KthValueUnique(lg, k, top);
    TopKUsable(lg, k);
    SoftmaxFacts(p, masked);
    NoBoundaryTie(lg, k, top);
    forall i: nat | i < |lg| ensures (i in top <==> probs[i] > 0.0) && (i in top ==> masked[i] == lg[i]) {
      if i in top { var j :| 0 <= j < k && top[j] == i; assert LogitAt(lg, top[j]).Fin?; }
    }
    TopIsSurvivorOrder(lg, k, top, probs);
  }

  lemma FastPick(probs: seq<real>, p: Params, top: seq<nat>, u: real)
    requires NonNegative(probs) && probs != [] && Distinct(top) && u >= 0.0
    requires forall x :: x in top ==> x < |probs|
    requires forall i: nat :: i < |probs| && i !in top ==> probs[i] == 0.0
    ensures |Sort(top, Ascending)| == |top|
    ensures var fin := Normalize(if TopPActive(p.topP) then TopP(probs, top, p.topP) else probs);
      var pos := SearchRight(Cumsum(Gather(fin, Sort(top, Ascending))), u);
      Pick(fin, u) == if pos >= |top| then |probs| - 1 else Sort(top, Ascending)[pos]
  {
    var kept := if TopPActive(p.topP) then TopP(probs, top, p.topP) else probs;
    TopPNonNegative(probs, top, p.topP);
    forall i: nat | i < |kept| && i !in top ensures kept[i] == 0.0 { TopPAbsent(probs, top, p.topP, i); }
    NormalizeZero(kept);
    AscendingSort(top, Normalize(kept));
    PickRestricted(Normalize(kept), Sort(top, Ascending), u);
  }

  /** One row of the tie-free branch picks the reference token. */
  lemma FastRowEquals(logits: seq<Logit>, u: real, p: Params, top: seq<nat>)
    requires ValidParams(p) && Usable(logits) && u >= 0.0 && 0 < p.topK < |logits|
    requires IsTopK(Scaled(logits, p.temperature), p.topK, top)
    requires !BoundaryTie(Scaled(logits, p.temperature), p.topK, top) && !InnerTie(Scaled(logits, p.temperature), top)
    ensures FastRow(logits, u, p, top) == ForceRow(logits, u, p)
  {
    var lg := Scaled(logits, p.temperature);
    ScaledUsable(logits, p.temperature);
    FastOrder(lg, p, top);
    var probs := Softmax(p.weight, TopK(lg, p.topK));
    RestrictedTopP(probs, p.topP);
    forall x | x in top ensures x < |probs| {}
    FastPick(probs, p, top, u);
  }

  /** The fast batch returns the reference tokens, whatever topk does with ties. */
  lemma ForceRowsFastEqualsReference(rows: seq<seq<Logit>>, us: seq<real>, p: Params, vocab: nat, tops: seq<seq<nat>>)
    requires ValidParams(p) && vocab > 0 && |rows| == |us| == |tops|
    requires forall r :: 0 <= r < |rows| ==> |rows[r]| == vocab && Usable(rows[r]) && us[r] >= 0.0
    requires 0 < p.topK < vocab ==>
      forall r :: 0 <= r < |tops| ==> |tops[r]| == p.topK && IsTopK(Scaled(rows[r], p.temperature), p.topK, tops[r])
    ensures ForceRowsBatchedFast(rows, us, p, vocab, tops) == ForceRowsBatched(rows, us, p)
  {
    if 0 < p.topK < vocab && !AnyTie(rows, p, p.topK, tops) {
      forall r | 0 <= r < |rows| ensures FastRow(rows[r], us[r], p, tops[r]) == ForceRow(rows[r], us[r], p) {
        FastRowEquals(rows[r], us[r], p, tops[r]);
      }
    }
  }

  // ---------- what the sampler means ----------

  function RanksBefore(probs: seq<real>, i: nat): nat -> bool {
    (j: nat) => At(probs, j) > At(probs, i) || (At(probs, j) == At(probs, i) && j < i)
  }

  /** The mass of the tokens preferred to i: the likelier ones, and the equally likely ones with a
      smaller id. */
  function MassAhead(probs: seq<real>, i: nat): real {
    Sum(Gather(probs, Ahead(probs, i)))
  }

  function Ahead(probs: seq<real>, i: nat): seq<nat> {
    Filter<nat>(Indices(|probs|), RanksBefore(probs, i))
  }

  function LexBy(probs: seq<real>): (nat, nat) -> bool {
    (i: nat, j: nat) => At(probs, i) > At(probs, j) || (At(probs, i) == At(probs, j) && i <= j)
  }

  lemma {:induction false} SortBreaksTiesById(xs: seq<nat>, probs: seq<real>)
    requires StrictlyAscending(xs)
    ensures Sort(xs, DescendingBy(probs)) == Sort(xs, LexBy(probs))
  {
    if xs != [] {
      var t := Sort(xs[1..], DescendingBy(probs));
      SortBreaksTiesById(xs[1..], probs);
      forall y | y in t ensures DescendingBy(probs)(xs[0], y) == LexBy(probs)(xs[0], y) {
        SortMember(xs[1..], DescendingBy(probs), y);
        var j :| 0 <= j < |xs[1..]| && xs[1..][j] == y;
        assert xs[0] < xs[j + 1];
      }
      InsertCongruence(xs[0], t, DescendingBy(probs), LexBy(probs));
    }
  }

  lemma {:induction false} SumInsert(u: seq<real>, x: real, v: seq<real>)
    ensures Sum(u + [x] + v) == Sum(u + v) + x
  {
    if v == [] {
      assert u + [x] + v == u + [x] && u + v == u;
      SumSnoc(u, x);
    } else {
      var w, y := v[..|v| - 1], v[|v| - 1];
      assert u + [x] + v == (u + [x] + w) + [y] && u + v == (u + w) + [y];
      SumSnoc(u + [x] + w, y);
      SumSnoc(u + w, y);
      SumInsert(u, x, w);
    }
  }

  lemma GatherRemove(probs: seq<real>, b: seq<nat>, j: nat)
    requires j < |b|
    ensures Sum(Gather(probs, b)) == Sum(Gather(probs, b[..j] + b[j + 1..])) + At(probs, b[j])
  {
    var u, v := b[..j], b[j + 1..];
    var gu, gv, x := Gather(probs, u), Gather(probs, v), At(probs, b[j]);
    assert Gather(probs, b) == gu + [x] + gv;
    assert Gather(probs, u + v) == gu + gv;
    SumInsert(gu, x, gv);
  }

  lemma HeadElsewhere(a: seq<nat>, b: seq<nat>) returns (j: nat)
    requires a != [] && multiset(a) == multiset(b)
    ensures j < |b| && b[j] == a[0] && multiset(a[1..]) == multiset(b[..j] + b[j + 1..])
  {
    TailMultiset(a);
    assert a[0] in multiset(b);
    j :| 0 <= j < |b| && b[j] == a[0];
    assert b == b[..j] + [a[0]] + b[j + 1..];
  }

  lemma {:induction false} GatherPermutation(probs: seq<real>, a: seq<nat>, b: seq<nat>)
    requires multiset(a) == multiset(b)
    ensures Sum(Gather(probs, a)) == Sum(Gather(probs, b))
  {
    if a == [] {
      assert |multiset(b)| == |b|;
    } else {
      var j := HeadElsewhere(a, b);
      GatherPermutation(probs, a[1..], b[..j] + b[j + 1..]);
      GatherRemove(probs, b, j);
      GatherRemove(probs, a, 0);
      assert a[..0] + a[1..] == a[1..];
    }
  }

  lemma OrderElements(probs: seq<real>)
    ensures |Order(probs)| == |probs| && Distinct(Order(probs))
    ensures forall i: nat :: i in Order(probs) <==> i < |probs|
    ensures forall i, j :: 0 <= i < j < |probs| ==> LexBy(probs)(Order(probs)[i], Order(probs)[j])
  {
    SortedIndices(|probs|, DescendingBy(probs));
    SortBreaksTiesById(Indices(|probs|), probs);
    assert TotalPreorder(LexBy(probs));
    SortSorted(Indices(|probs|), LexBy(probs));
  }

  lemma SortedRank(probs: seq<real>, j: nat)
    requires j < |probs|
    ensures |Order(probs)| == |probs|
    ensures multiset(Order(probs)[..j]) == multiset(Ahead(probs, Order(probs)[j]))
  {
    var s := Order(probs);
    OrderElements(probs);
    var i := s[j];
    FilterDistinct(|probs|, RanksBefore(probs, i));
    forall x: nat ensures x in s[..j] <==> x in Ahead(probs, i) {
      if x in s[..j] {
        var m :| 0 <= m < j && s[m] == x;
        assert x in s && LexBy(probs)(s[m], s[j]);
      }
      if x in Ahead(probs, i) {
        forall m | 0 <= m < |s[j..]| ensures s[j..][m] != x {
          assert m > 0 ==> LexBy(probs)(s[j], s[j + m]);
        }
        assert x in s && s == s[..j] + s[j..];
      }
    }
    SameMultiset(s[..j], Ahead(probs, i));
  }

  /** Top-p, without sorting: a token stays iff the mass preferred to it is below topP. */
  lemma TopPMeaning(probs: seq<real>, topP: real, i: nat)
    requires i < |probs|
    ensures TopP(probs, Order(probs), topP)[i] == if MassAhead(probs, i) < topP then probs[i] else 0.0
  {
    var s := Order(probs);
    OrderElements(probs);
    assert i in s;
    var j :| 0 <= j < |s| && s[j] == i;
    SortedRank(probs, j);
    TopPAt(probs, s, topP, j);
    GatherPermutation(probs, s[..j], Ahead(probs, i));
    assert Gather(probs, s)[..j] == Gather(probs, s[..j]);
  }

  /** The weight of each token that is unmasked and within the top k of the raw logits: the softmax weight
      of its logit over the temperature. */
  ghost function AllowedWeights(logits: seq<Logit>, p: Params): (r: seq<real>)
    requires p.temperature > 0.0
    ensures |r| == |logits|
  {
    seq(|logits|, i requires 0 <= i < |logits| =>
      if logits[i].Fin? && InTopK(logits, p.topK, i) then p.weight(logits[i].value / p.temperature) else 0.0)
  }

  /** Less than the share topP of all weight is preferred to i; 0 and 1 switch the filter off. */
  ghost predicate InNucleus(ws: seq<real>, topP: real, i: nat) {
    topP != 0.0 && topP < 1.0 ==> Ratio(MassAhead(ws, i), Sum(ws)) < topP
  }

  /** The tokens the protocol allows: unmasked, within the top k, and with less than topP of the allowed
      weight preferred to them. */
  ghost predicate Kept(logits: seq<Logit>, p: Params, i: nat)
    requires i < |logits| && p.temperature > 0.0
  {
    && logits[i].Fin?
    && InTopK(logits, p.topK, i)
    && InNucleus(AllowedWeights(logits, p), p.topP, i)
  }

  ghost function KeptWeights(logits: seq<Logit>, p: Params): (r: seq<real>)
    requires p.temperature > 0.0
    ensures |r| == |logits|
  {
    seq(|logits|, i requires 0 <= i < |logits| =>
      if Kept(logits, p, i) then p.weight(logits[i].value / p.temperature) else 0.0)
  }

  lemma {:induction false} FilterSame<T>(xs: seq<T>, f: T -> bool, g: T -> bool)
    requires forall x :: x in xs ==> f(x) == g(x)
    ensures Filter(xs, f) == Filter(xs, g)
  {
    if xs != [] { FilterSame(xs[1..], f, g); }
  }

  /** A positive temperature does not change who is above whom. */
  lemma ScaledTopK(logits: seq<Logit>, t: real, topK: int, i: nat)
    requires t > 0.0 && i < |logits|
    ensures InTopK(Scaled(logits, t), topK, i) == InTopK(logits, topK, i)
  {
    var lg := Scaled(logits, t);
    forall j | j in Indices(|lg|) ensures StrictlyAbove(lg, i)(j) == StrictlyAbove(logits, i)(j) {
      if logits[i].Fin? && logits[j].Fin? { RatioOrder(logits[i].value, logits[j].value, t); }
    }
    FilterSame(Indices(|lg|), StrictlyAbove(lg, i), StrictlyAbove(logits, i));
  }

  lemma AllowedAt(logits: seq<Logit>, p: Params, i: nat)
    requires ValidParams(p) && i < |logits|
    ensures Weights(p.weight, TopK(Scaled(logits, p.temperature), p.topK))[i] == AllowedWeights(logits, p)[i]
  {
    TopKMeaning(Scaled(logits, p.temperature), p.topK, i);
    ScaledTopK(logits, p.temperature, p.topK, i);
  }

  lemma AllowedAre(logits: seq<Logit>, p: Params)
    requires ValidParams(p)
    ensures Weights(p.weight, TopK(Scaled(logits, p.temperature), p.topK)) == AllowedWeights(logits, p)
  {
    forall i | 0 <= i < |logits|
      ensures Weights(p.weight, TopK(Scaled(logits, p.temperature), p.topK))[i] == AllowedWeights(logits, p)[i]
    {
      AllowedAt(logits, p, i);
    }
  }

  lemma AheadScale(ws: seq<real>, z: real, i: nat)
    requires z > 0.0 && i < |ws|
    ensures Ahead(RatioAll(ws, z), i) == Ahead(ws, i)
  {
    var rs := RatioAll(ws, z);
    forall j | j in Indices(|ws|) ensures RanksBefore(rs, i)(j) == RanksBefore(ws, i)(j) {
      RatioOrder(ws[j], ws[i], z);
      RatioOrder(ws[i], ws[j], z);
    }
    FilterSame(Indices(|ws|), RanksBefore(rs, i), RanksBefore(ws, i));
  }

  /** The mass ahead, before and after normalisation. */
  lemma MassAheadScale(ws: seq<real>, z: real, i: nat)
    requires z > 0.0 && i < |ws|
    ensures MassAhead(RatioAll(ws, z), i) == Ratio(MassAhead(ws, i), z)
  {
    var ahead := Ahead(ws, i);
    AheadScale(ws, z, i);
    RatioOrder(0.0, 0.0, z);
    assert Gather(RatioAll(ws, z), ahead) == RatioAll(Gather(ws, ahead), z);
    RatioSum(Gather(ws, ahead), z);
  }

  function RatioAll(xs: seq<real>, z: real): (r: seq<real>)
    ensures |r| == |xs|
  {
    seq(|xs|, i requires 0 <= i < |xs| => Ratio(xs[i], z))
  }

  lemma {:induction false} RatioSum(xs: seq<real>, z: real)
    requires z > 0.0
    ensures Sum(RatioAll(xs, z)) == Ratio(Sum(xs), z)
  {
    if xs != [] {
      var w, y := xs[..|xs| - 1], xs[|xs| - 1];
      RatioSum(w, z);
      assert RatioAll(xs, z) == RatioAll(w, z) + [Ratio(y, z)];
      SumSnoc(RatioAll(w, z), Ratio(y, z));
      SumSnoc(w, y);
      assert xs == w + [y];
      RatioAdd(Sum(w), y, z);
    }
  }

  lemma RatioAdd(a: real, b: real, z: real)
    requires z > 0.0
    ensures Ratio(a, z) + Ratio(b, z) == Ratio(a + b, z)
  {
    assert a / z + b / z == (a + b) / z;
  }

  lemma RatioSelf(z: real)
    requires z > 0.0
    ensures Ratio(z, z) == 1.0
  {
  }

  lemma RatioCancel(a: real, s: real, z: real)
    requires z > 0.0 && s > 0.0
    ensures Ratio(Ratio(a, z), Ratio(s, z)) == Ratio(a, s)
  {
    var x, y, w := a / z, s / z, a / s;
    RatioOrder(s, 0.0, z);
    assert x * z == a && y * z == s && w * s == a;
    assert (w * y) * z == w * (y * z);
    assert (w * y - x) * z == 0.0;
    assert x == w * y;
    assert x / y == w;
  }

  function Filtered(probs: seq<real>, topP: real): seq<real> {
    if TopPActive(topP) then TopP(probs, Order(probs), topP) else probs
  }

  function TotalWeight(logits: seq<Logit>, p: Params): real {
    Sum(Weights(p.weight, TopK(Scaled(logits, p.temperature), p.topK)))
  }

  lemma FilteredShare(ws: seq<real>, topP: real, i: nat)
    requires Sum(ws) > 0.0 && i < |ws|
    ensures Filtered(RatioAll(ws, Sum(ws)), topP)[i] == if InNucleus(ws, topP, i) then Ratio(ws[i], Sum(ws)) else 0.0
  {
    TopPMeaning(RatioAll(ws, Sum(ws)), topP, i);
    MassAheadScale(ws, Sum(ws), i);
  }

  lemma KeptShare(logits: seq<Logit>, p: Params, i: nat)
    requires ValidParams(p) && i < |logits| && Sum(AllowedWeights(logits, p)) > 0.0
    ensures KeptWeights(logits, p)[i]
         == if InNucleus(AllowedWeights(logits, p), p.topP, i) then AllowedWeights(logits, p)[i] else 0.0
  {
  }

  lemma NucleusEntry(logits: seq<Logit>, p: Params, ws: seq<real>, i: nat)
    requires ValidParams(p) && i < |logits| && ws == AllowedWeights(logits, p) && Sum(ws) > 0.0
    ensures Filtered(RatioAll(ws, Sum(ws)), p.topP)[i] == Ratio(KeptWeights(logits, p)[i], Sum(ws))
  {
    FilteredShare(ws, p.topP, i);
    KeptShare(logits, p, i);
    RatioOrder(0.0, 0.0, Sum(ws));
  }

  /** The entries surviving the filters, before renormalisation. */
  lemma NucleusEntries(logits: seq<Logit>, p: Params)
    requires ValidParams(p) && Usable(logits)
    ensures TotalWeight(logits, p) > 0.0
    ensures Filtered(Softmax(p.weight, TopK(Scaled(logits, p.temperature), p.topK)), p.topP)
         == RatioAll(KeptWeights(logits, p), TotalWeight(logits, p))
    ensures NonNegative(KeptWeights(logits, p))
  {
    ScaledUsable(logits, p.temperature);
    TopKUsable(Scaled(logits, p.temperature), p.topK);
    SoftmaxFacts(p, TopK(Scaled(logits, p.temperature), p.topK));
    AllowedAre(logits, p);
    var ws, z := AllowedWeights(logits, p), TotalWeight(logits, p);
    assert Softmax(p.weight, TopK(Scaled(logits, p.temperature), p.topK)) == RatioAll(ws, z);
    forall i: nat | i < |logits|
      ensures Filtered(RatioAll(ws, z), p.topP)[i] == Ratio(KeptWeights(logits, p)[i], z)
    {
      NucleusEntry(logits, p, ws, i);
    }
  }

  /** The likeliest token is always kept. */
  lemma NucleusNonEmpty(probs: seq<real>, topP: real, f: nat)
    requires f < |probs| && probs[f] > 0.0 && topP >= 0.0
    ensures exists a :: 0 <= a < |probs| && Filtered(probs, topP)[a] > 0.0
  {
    var s := Order(probs);
    OrderElements(probs);
    assert f in s && s[0] in s;
    var m :| 0 <= m < |s| && s[m] == f;
    assert m > 0 ==> LexBy(probs)(s[0], s[m]);
    TopPAt(probs, s, topP, 0);
    assert Filtered(probs, topP)[s[0]] > 0.0;
  }

  lemma KeptWeightsPositive(logits: seq<Logit>, p: Params)
    requires ValidParams(p) && Usable(logits)
    ensures Sum(KeptWeights(logits, p)) > 0.0
  {
    var masked := TopK(Scaled(logits, p.temperature), p.topK);
    var probs := Softmax(p.weight, masked);
    NucleusEntries(logits, p);
    ScaledUsable(logits, p.temperature);
    TopKUsable(Scaled(logits, p.temperature), p.topK);
    SoftmaxFacts(p, masked);
    var f :| 0 <= f < |masked| && masked[f].Fin?;
    NucleusNonEmpty(probs, p.topP, f);
    var a :| 0 <= a < |probs| && Filtered(probs, p.topP)[a] > 0.0;
    RatioOrder(KeptWeights(logits, p)[a], 0.0, TotalWeight(logits, p));
    SumPositive(KeptWeights(logits, p), a);
  }

  lemma WarpIsKeptWeights(logits: seq<Logit>, p: Params)
    requires ValidParams(p) && Usable(logits)
    ensures Warp(logits, p) == RatioAll(KeptWeights(logits, p), Sum(KeptWeights(logits, p)))
  {
    var kw, z := KeptWeights(logits, p), TotalWeight(logits, p);
    NucleusEntries(logits, p);
    KeptWeightsPositive(logits, p);
    RatioSum(kw, z);
    forall i | 0 <= i < |kw| ensures Ratio(Ratio(kw[i], z), Ratio(Sum(kw), z)) == Ratio(kw[i], Sum(kw)) {
      RatioCancel(kw[i], Sum(kw), z);
    }
    assert Warp(logits, p) == Normalize(RatioAll(kw, z));
  }

  /** The distribution, without sorting: each allowed token has the softmax weight of its logit over the
      temperature, divided by the total weight of the allowed tokens; every other token has probability 0. */
  lemma WarpMeaning(logits: seq<Logit>, p: Params, i: nat)
    requires ValidParams(p) && Usable(logits) && i < |logits|
    ensures Sum(KeptWeights(logits, p)) > 0.0
    ensures Warp(logits, p)[i] == KeptWeights(logits, p)[i] / Sum(KeptWeights(logits, p))
    ensures Warp(logits, p)[i] >= 0.0 && (Warp(logits, p)[i] > 0.0 <==> Kept(logits, p, i))
  {
    var kw := KeptWeights(logits, p);
    WarpIsKeptWeights(logits, p);
    KeptWeightsPositive(logits, p);
    RatioOrder(kw[i], 0.0, Sum(kw));
    RatioOrder(0.0, 0.0, Sum(kw));
  }

  lemma WarpShares(logits: seq<Logit>, p: Params) returns (weights: seq<real>, total: real)
    requires ValidParams(p) && Usable(logits)
    ensures total > 0.0 && |weights| == |logits|
    ensures forall i :: 0 <= i < |logits| ==> Warp(logits, p)[i] == Ratio(weights[i], total)
    ensures forall i :: 0 <= i < |logits| && Warp(logits, p)[i] > 0.0 ==>
      logits[i].Fin? && weights[i] == p.weight(logits[i].value / p.temperature)
  {
    weights, total := KeptWeights(logits, p), Sum(KeptWeights(logits, p));
    KeptWeightsPositive(logits, p);
    WarpIsKeptWeights(logits, p);
    forall i: nat | i < |logits| && Warp(logits, p)[i] > 0.0
      ensures logits[i].Fin? && weights[i] == p.weight(logits[i].value / p.temperature)
    {
      WarpMeaning(logits, p, i);
    }
  }

  ghost predicate SameOdds(x: real, y: real, a: real, b: real) { x * b == y * a }

  /** Two kept tokens are as likely as their softmax weights, at the raw logits over the temperature. */
  lemma WarpOdds(logits: seq<Logit>, p: Params, i: nat, j: nat)
    requires ValidParams(p) && Usable(logits) && i < |logits| && j < |logits|
    requires Warp(logits, p)[i] > 0.0 && Warp(logits, p)[j] > 0.0
    ensures logits[i].Fin? && logits[j].Fin?
    ensures SameOdds(Warp(logits, p)[i], Warp(logits, p)[j],
                     p.weight(logits[i].value / p.temperature), p.weight(logits[j].value / p.temperature))
  {
    var weights, total := WarpShares(logits, p);
    Odds(weights[i], weights[j], total);
  }

  lemma Odds(a: real, b: real, z: real)
    requires z > 0.0
    ensures SameOdds(Ratio(a, z), Ratio(b, z), a, b)
  {
    var x, y := a / z, b / z;
    assert x * z == a && y * z == b;
    assert x * (y * z) == y * (x * z);
  }

  lemma WarpSumsToOne(logits: seq<Logit>, p: Params)
    requires ValidParams(p) && Usable(logits)
    ensures Sum(Warp(logits, p)) == 1.0 && NonNegative(Warp(logits, p))
  {
    var kw := KeptWeights(logits, p);
    WarpIsKeptWeights(logits, p);
    KeptWeightsPositive(logits, p);
    RatioSum(kw, Sum(kw));
    RatioSelf(Sum(kw));
    forall i: nat | i < |logits| ensures Warp(logits, p)[i] >= 0.0 { WarpMeaning(logits, p, i); }
  }

  /** The pick is the token whose slice of [0, 1) holds u. */
  lemma PickIsInverseCdf(probs: seq<real>, u: real, tok: int)
    requires NonNegative(probs) && Sum(probs) == 1.0 && 0.0 <= u < 1.0
    ensures probs != []
    ensures Pick(probs, u) == tok <==> 0 <= tok < |probs| && Sum(probs[..tok]) <= u < Sum(probs[..tok + 1])
  {
    PickSlice(probs, u);
    if 0 <= tok < |probs| && Sum(probs[..tok]) <= u < Sum(probs[..tok + 1]) {
      SearchRightIs(probs, u, tok);
    }
  }

  lemma PickSlice(probs: seq<real>, u: real)
    requires NonNegative(probs) && Sum(probs) == 1.0 && 0.0 <= u < 1.0
    ensures probs != [] && Sum(probs[..Pick(probs, u)]) <= u < Sum(probs[..Pick(probs, u) + 1])
  {
    assert probs[..|probs|] == probs;
    var cdf := Cumsum(probs);
    var r := SearchRight(cdf, u);
    assert r > 0 ==> cdf[r - 1] == Sum(probs[..r]);
    assert r < |probs| && cdf[r] == Sum(probs[..r + 1]);
  }

  /** Row by row, the forced token is the one whose slice of the row's own distribution holds the row's own u. */
  lemma ForceRowsMeaning(rows: seq<seq<Logit>>, us: seq<real>, p: Params, r: nat, tok: int)
    requires |rows| == |us| && forall i | 0 <= i < |rows| :: rows[i] != []
    requires r < |rows| && ValidParams(p) && Usable(rows[r]) && 0.0 <= us[r] < 1.0
    ensures ForceRowsBatched(rows, us, p)[r] == tok
       <==> 0 <= tok < |rows[r]| && Sum(Warp(rows[r], p)[..tok]) <= us[r] < Sum(Warp(rows[r], p)[..tok + 1])
  {
    WarpSumsToOne(rows[r], p);
    PickIsInverseCdf(Warp(rows[r], p), us[r], tok);
  }

  /** A forced token is always one the protocol allows. */
  lemma ForcedTokenIsKept(logits: seq<Logit>, u: real, p: Params)
    requires ValidParams(p) && Usable(logits) && 0.0 <= u < 1.0
    ensures logits != [] && Kept(logits, p, ForceRow(logits, u, p))
  {
    var probs := Warp(logits, p);
    WarpSumsToOne(logits, p);
    var tok := ForceRow(logits, u, p);
    PickIsInverseCdf(probs, u, tok);
    SumPrefix(probs, tok);
    WarpMeaning(logits, p, tok);
  }

  // ---------- the validator's check ----------

  lemma {:induction false} CountTrueImplied(xs: seq<bool>, ys: seq<bool>)
    requires |xs| == |ys| && forall i :: 0 <= i < |xs| ==> xs[i] ==> ys[i]
    ensures CountTrue(xs) <= CountTrue(ys)
    ensures CountTrue(xs) == CountTrue(ys) <==> xs == ys
  {
    if xs != [] {
      var n := |xs| - 1;
      CountTrueImplied(xs[..n], ys[..n]);
      assert xs == xs[..n] + [xs[n]] && ys == ys[..n] + [ys[n]];
    }
  }

  ghost function TrueAt(bs: seq<bool>): set<nat> {
    set i: nat | i < |bs| && bs[i]
  }

  lemma {:induction false} CountTrueSize(bs: seq<bool>)
    ensures CountTrue(bs) == |TrueAt(bs)|
  {
    if bs == [] {
      assert TrueAt(bs) == {};
    } else {
      var n := |bs| - 1;
      CountTrueSize(bs[..n]);
      assert TrueAt(bs) == TrueAt(bs[..n]) + if bs[n] then {n} else {};
    }
  }

  lemma {:induction false} MaxOfBelow(xs: seq<real>, z: real)
    requires xs != []
    ensures MaxOf(xs) < z <==> forall i :: 0 <= i < |xs| ==> xs[i] < z
  {
    if |xs| > 1 {
      MaxOfBelow(xs[1..], z);
      assert forall i :: 0 < i < |xs| ==> xs[1..][i - 1] == xs[i];
    }
  }

  /** No token of the row is as likely as the threshold. */
  ghost predicate NoneLikely(row: seq<Logit>, p: Params, threshold: real) {
    forall t :: 0 <= t < |row| ==> Warp(row, p)[t] < threshold
  }

  /** The positions that have a row, a token and a u, and where no token is as likely as the threshold. */
  ghost function Checked(rows: seq<seq<Logit>>, toks: seq<int>, us: seq<real>, p: Params, threshold: real): set<nat> {
    set i: nat | i < |rows| && i < |toks| && i < |us| && NoneLikely(rows[i], p, threshold)
  }

  ghost predicate HoldsForced(row: seq<Logit>, u: real, p: Params, tok: int) {
    row != [] && ForceRow(row, u, p) == tok
  }

  lemma CheckedAt(row: seq<Logit>, tok: int, u: real, p: Params, threshold: real)
    requires row != []
    ensures Stochastic(row, p, threshold) == NoneLikely(row, p, threshold)
    ensures Matched(row, tok, u, p, threshold) == (NoneLikely(row, p, threshold) && HoldsForced(row, u, p, tok))
  {
    MaxOfBelow(Warp(row, p), threshold);
  }

  lemma CountWhere(n: nat, bs: seq<bool>, s: set<nat>)
    requires |bs| == n && forall i: nat :: i in s <==> i < n && bs[i]
    ensures CountTrue(bs) == |s|
  {
    CountTrueSize(bs);
    assert TrueAt(bs) == s;
  }

  /** The validator counts the checked positions, and those of them that hold the forced token. */
  lemma SeedConsistencyCounts(rows: seq<seq<Logit>>, toks: seq<int>, us: seq<real>, p: Params, threshold: real)
    requires forall r :: 0 <= r < |rows| ==> rows[r] != []
    ensures var checked := Checked(rows, toks, us, p, threshold);
      && SeedConsistency(rows, toks, us, p, threshold).0 == |checked|
      && SeedConsistency(rows, toks, us, p, threshold).1
         == |set i | i in checked && HoldsForced(rows[i], us[i], p, toks[i])|
  {
    var n, checked := CheckedLength(rows, toks, us), Checked(rows, toks, us, p, threshold);
    var ss := seq(n, i requires 0 <= i < n => Stochastic(rows[i], p, threshold));
    var ms := seq(n, i requires 0 <= i < n => Matched(rows[i], toks[i], us[i], p, threshold));
    forall i: nat | i < n
      ensures ss[i] == NoneLikely(rows[i], p, threshold)
      ensures ms[i] == (NoneLikely(rows[i], p, threshold) && HoldsForced(rows[i], us[i], p, toks[i]))
    {
      CheckedAt(rows[i], toks[i], us[i], p, threshold);
    }
    CountWhere(n, ss, checked);
    CountWhere(n, ms, set i | i in checked && HoldsForced(rows[i], us[i], p, toks[i]));
  }

  /** Every stochastic position matches iff each of them carries the forced token; in particular an
      honest miner's list does. */
  lemma SeedConsistencyHonest(rows: seq<seq<Logit>>, toks: seq<int>, us: seq<real>, p: Params, threshold: real)
    requires forall r :: 0 <= r < |rows| ==> rows[r] != []
    ensures var (stoch, matched) := SeedConsistency(rows, toks, us, p, threshold);
      && matched <= stoch
      && (matched == stoch <==> forall i :: 0 <= i < CheckedLength(rows, toks, us) ==>
            Stochastic(rows[i], p, threshold) ==> ForceRow(rows[i], us[i], p) == toks[i])
  {
    var n := CheckedLength(rows, toks, us);
    var ss := seq(n, i requires 0 <= i < n => Stochastic(rows[i], p, threshold));
    var ms := seq(n, i requires 0 <= i < n => Matched(rows[i], toks[i], us[i], p, threshold));
    CountTrueImplied(ms, ss);
    if ms == ss {
      forall i | 0 <= i < n && Stochastic(rows[i], p, threshold) ensures ForceRow(rows[i], us[i], p) == toks[i] {
        assert ms[i] == ss[i];
      }
    }
  }
}
