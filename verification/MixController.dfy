/** The miner's slot controller: a reward-rate average per environment, the slots it asks for, and which
    environment to bake next.
 */
module MixController {
  import opened Wrappers
  import opened Reals
  import opened Sorting
  import opened Apportionment

  const NEUTRAL_YIELD := 0.5
  /** Weights below this count as this. */
  const LEAST_WEIGHT := 0.000000001

  type Rates = map<string, Option<real>>

  function EffectiveYield(ys: Rates, e: string): real {
    if e in ys && ys[e].Some? then ys[e].value else NEUTRAL_YIELD
  }

  function WeightFn(ys: Rates): string -> real {
    (e: string) => if EffectiveYield(ys, e) > LEAST_WEIGHT then EffectiveYield(ys, e) else LEAST_WEIGHT
  }

  function MixOf(envs: seq<string>, floor: int, total: int, ys: Rates): Mix {
    Mix(envs, floor, total, WeightFn(ys))
  }

  // ---------- the controller ----------

  /** Adds one slot for each of some names. */
  method AddOnes(alloc: map<string, int>, names: seq<string>) returns (r: map<string, int>)
    requires Distinct(names) && forall e :: e in names ==> e in alloc
    ensures r.Keys == alloc.Keys && forall e :: e in alloc ==> r[e] == alloc[e] + if e in names then 1 else 0
  {
    r := alloc;
    for i := 0 to |names|
      invariant r.Keys == alloc.Keys && forall e :: e in alloc ==> r[e] == alloc[e] + if e in names[..i] then 1 else 0
    {
      assert names[..i + 1] == names[..i] + [names[i]];
      assert names[i] !in names[..i];
      r := r[names[i] := r[names[i]] + 1];
    }
    assert names[..|names|] == names;
  }

  class MixController {
    const envs: seq<string>
    const total: int
    const floor: int
    const alpha: real
    var rates: Rates

    ghost predicate Valid()
      reads this
    {
      envs != [] && Distinct(envs) && rates.Keys == set e | e in envs
    }

    ghost predicate InUnit()
      reads this
    {
      forall e :: e in rates && rates[e].Some? ==> 0.0 <= rates[e].value <= 1.0
    }

    constructor (names: seq<string>, totalSlots: int, slotFloor: int, rate: real)
      requires names != [] && Distinct(names)
      ensures Valid() && InUnit() && envs == names && total == totalSlots && floor == slotFloor && alpha == rate
      ensures forall e :: e in rates ==> rates[e] == None
    {
      envs, total, floor, alpha := names, totalSlots, slotFloor, rate;
      rates := map e | e in names :: None;
    }

    /** Unknown environments are ignored. */
    method RecordOutcome(env: string, rewarded: bool)
      requires Valid()
      modifies this
      ensures Valid() && rates == Recorded(alpha, old(rates), (env, rewarded))
      ensures forall e :: e in rates && e != env ==> rates[e] == old(rates[e])
      ensures env in rates ==> rates[env] == Some(Blend(alpha, old(rates[env]), rewarded))
      ensures 0.0 <= alpha <= 1.0 && old(InUnit()) ==> InUnit()
    {
      if env !in rates { return; }
      if 0.0 <= alpha <= 1.0 && InUnit() { BlendInUnit(alpha, rates[env], rewarded); }
      rates := rates[env := Some(Blend(alpha, rates[env], rewarded))];
    }

    /** A poll's verdicts, in order. */
    method ApplyVerdicts(verdicts: seq<(string, bool)>)
      requires Valid()
      modifies this
      ensures Valid() && rates == RatesAfter(alpha, old(rates), verdicts)
    {
      for i := 0 to |verdicts|
        invariant Valid() && RatesAfter(alpha, rates, verdicts[i..]) == RatesAfter(alpha, old(rates), verdicts)
      {
        assert verdicts[i..][0] == verdicts[i] && verdicts[i..][1..] == verdicts[i + 1..];
        RecordOutcome(verdicts[i].0, verdicts[i].1);
      }
    }

    function CurrentMix(): Mix
      reads this
    {
      MixOf(envs, floor, total, rates)
    }

    /** The slots of every environment. */
    method TargetSlots() returns (alloc: map<string, int>)
      requires Valid()
      ensures alloc.Keys == set e | e in envs
      ensures forall e :: e in envs ==> alloc[e] == Slots(CurrentMix())(e)
      ensures SumInt(envs, SlotsIn(alloc)) == total
    {
      var m := CurrentMix();
      assert ValidMix(m);
      alloc := map e | e in envs :: floor;
      var remaining := total - floor * |envs|;
      if remaining < 0 {
        alloc := SplitEvenly(m);
      } else if remaining > 0 {
        QuotaSum(m);
        alloc := Distribute(alloc, m, QuotaFn(m));
      }
      SlotsSum(m);
      SumIntSame(envs, SlotsIn(alloc), Slots(m));
    }

    method SplitEvenly(m: Mix) returns (alloc: map<string, int>)
      requires m.envs != [] && Distinct(m.envs)
      ensures alloc.Keys == (set e | e in m.envs) && forall e :: e in m.envs ==> alloc[e] == EvenSplit(m)(e)
    {
      var each := m.total / |m.envs|;
      var odd := OddCount(m);
      PrefixFacts(m.envs, odd);
      alloc := AddOnes(map e | e in m.envs :: each, m.envs[..odd]);
    }

    /** The proportional part: quotas rounded down, then one more for the largest remainders. */
    method Distribute(floors: map<string, int>, m: Mix, q: string -> real) returns (alloc: map<string, int>)
      requires Distinct(m.envs) && SumReal(m.envs, q) == Rest(m) as real
      requires floors.Keys == (set e | e in m.envs) && forall e :: e in floors ==> floors[e] == m.floor
      ensures alloc.Keys == floors.Keys && forall e :: e in m.envs ==> alloc[e] == Shares(m, q)(e)
    {
      alloc := AddBases(floors, m.envs, q);
      LeftoverInRange(m, q);
      SortedDistinct(m.envs, ByRemainder(q));
      var order := Sort<string>(m.envs, ByRemainder(q));
      PrefixFacts(order, Leftover(m, q));
      alloc := AddOnes(alloc, order[..Leftover(m, q)]);
    }

    method AddBases(floors: map<string, int>, names: seq<string>, q: string -> real) returns (alloc: map<string, int>)
      requires Distinct(names) && forall e :: e in names ==> e in floors
      ensures alloc.Keys == floors.Keys
      ensures forall e :: e in floors ==> alloc[e] == floors[e] + if e in names then q(e).Floor else 0
    {
      alloc := floors;
      for i := 0 to |names|
        invariant alloc.Keys == floors.Keys
        invariant forall e :: e in floors ==> alloc[e] == floors[e] + if e in names[..i] then q(e).Floor else 0
      {
        var e := names[i];
        assert names[..i + 1] == names[..i] + [e];
        assert e !in names[..i];
        alloc := alloc[e := alloc[e] + q(e).Floor];
      }
      assert names[..|names|] == names;
    }
  }

  function SlotsIn(alloc: map<string, int>): string -> int {
    (e: string) => if e in alloc then alloc[e] else 0
  }

  /** The first outcome counts fully, later ones with weight alpha. */
  function Blend(alpha: real, before: Option<real>, rewarded: bool): real {
    var x := if rewarded then 1.0 else 0.0;
    match before case None => x case Some(y) => (1.0 - alpha) * y + alpha * x
  }

  lemma BlendInUnit(alpha: real, before: Option<real>, rewarded: bool)
    requires 0.0 <= alpha <= 1.0 && (before.Some? ==> 0.0 <= before.value <= 1.0)
    ensures 0.0 <= Blend(alpha, before, rewarded) <= 1.0
  {
    if before.Some? { ScaledInUnit(1.0 - alpha, before.value); }
  }

  lemma ScaledInUnit(b: real, y: real)
    requires b >= 0.0 && 0.0 <= y <= 1.0
    ensures 0.0 <= b * y <= b
  {
    assert b * (1.0 - y) >= 0.0;
    assert b * (1.0 - y) == b - b * y;
  }

  /** The first outcome is the average; a later one moves it by alpha of the way to 1 or to 0. */
  lemma BlendMeaning(alpha: real, y: real)
    ensures Blend(alpha, None, true) == 1.0 && Blend(alpha, None, false) == 0.0
    ensures Blend(alpha, Some(y), true) - y == alpha * (1.0 - y)
    ensures y - Blend(alpha, Some(y), false) == alpha * y
  {
    assert (1.0 - alpha) * y == y - alpha * y && alpha * (1.0 - y) == alpha - alpha * y;
  }

  /** An environment's pull: its average, 0.5 before the first outcome, and never less than 1e-9. */
  ghost function Pull(rates: Rates): string -> real {
    (e: string) =>
      if !(e in rates && rates[e].Some?) then 0.5
      else if rates[e].value > 0.000000001 then rates[e].value else 0.000000001
  }

  lemma PortionIs(m: Mix, e: string, rest: real, part: real, whole: real)
    requires SumReal(m.envs, m.weight) == whole != 0.0 && Rest(m) as real == rest && m.weight(e) == part
    ensures QuotaFn(m)(e) == rest * part / whole
  {
  }

  ghost predicate RoundedTo(portion: real, n: int) {
    n as real - 1.0 < portion < n as real + 1.0
  }

  /** When the floors fit, slots beyond the floor are the environment's portion of the rest, as its pull is of
      the whole pull, rounded down or up. */
  lemma SlotsProportional(envs: seq<string>, floor: int, total: int, rates: Rates, e: string,
                          rest: real, part: real, whole: real)
    requires envs != [] && Distinct(envs) && e in envs && floor * |envs| <= total
    requires rest == (total - floor * |envs|) as real
    requires part == Pull(rates)(e) && whole == SumReal(envs, Pull(rates))
    ensures whole > 0.0
    ensures Slots(MixOf(envs, floor, total, rates))(e) >= floor
    ensures RoundedTo(rest * part / whole, Slots(MixOf(envs, floor, total, rates))(e) - floor)
  {
    var m := MixOf(envs, floor, total, rates);
    SumRealSame(envs, Pull(rates), WeightFn(rates));
    SlotsRounded(m, e);
    PortionIs(m, e, rest, part, whole);
  }

  lemma {:induction false} SumRealSame(names: seq<string>, f: string -> real, g: string -> real)
    requires forall e :: e in names ==> f(e) == g(e)
    ensures SumReal(names, f) == SumReal(names, g)
  {
    if names != [] { SumRealSame(names[1..], f, g); }
  }

  // ---------- does a better environment get more? ----------

  datatype Setting = Setting(envs: seq<string>, floor: int, total: int, rates: Rates) {
    function Mixed(): Mix { MixOf(envs, floor, total, rates) }
  }

  /** a has yield ya and b has yield yb; whether the floors fit the budget; which of the two is listed
      first. */
  ghost predicate Compares(s: Setting, a: string, b: string, ya: real, yb: real, fits: bool, aFirst: bool) {
    && s.envs != [] && Distinct(s.envs)
    && (s.total - s.floor * |s.envs| >= 0 <==> fits)
    && (if aFirst then ListedBefore(s.envs, a, b) else ListedBefore(s.envs, b, a))
    && EffectiveYield(s.rates, a) == ya && EffectiveYield(s.rates, b) == yb
  }

  ghost predicate NoFewer(s: Setting, a: string, b: string)
    requires s.envs != [] && Distinct(s.envs)
  {
    Slots(s.Mixed())(a) >= Slots(s.Mixed())(b)
  }

  /** In every such setting the better environment gets no fewer slots. */
  ghost predicate NeverFewer(ya: real, yb: real, fits: bool, aFirst: bool) {
    forall s, a, b :: Compares(s, a, b, ya, yb, fits, aFirst) ==> NoFewer(s, a, b)
  }

  /** A strictly higher yield never gets fewer slots exactly when its environment is listed first, or
      the floors fit the budget and the yield is above the least weight. Otherwise both count the same
      and the odd slot goes to the environment listed first. */
  lemma HigherYieldExactly(ya: real, yb: real, fits: bool, aFirst: bool)
    requires ya > yb
    ensures NeverFewer(ya, yb, fits, aFirst) <==> aFirst || (fits && ya > 0.000000001)
  {
    if aFirst || (fits && ya > LEAST_WEIGHT) {
      forall s, a, b | Compares(s, a, b, ya, yb, fits, aFirst) ensures NoFewer(s, a, b) {
        NoFewerWhen(s, a, b, ya, yb, fits, aFirst);
      }
    } else if fits {
      var s := TyingSetting(0, map["a" := Some(ya), "b" := Some(yb)]);
      TinyYieldsTie(0, s.rates);
      assert Compares(s, "a", "b", ya, yb, fits, aFirst) && !NoFewer(s, "a", "b");
    } else {
      var s := Setting(["b", "a"], 2, 3, map["a" := Some(ya), "b" := Some(yb)]);
      OverSubscribed(s.rates);
      assert Compares(s, "a", "b", ya, yb, fits, aFirst) && !NoFewer(s, "a", "b");
    }
  }

  lemma NoFewerWhen(s: Setting, a: string, b: string, ya: real, yb: real, fits: bool, aFirst: bool)
    requires ya > yb && (aFirst || (fits && ya > LEAST_WEIGHT)) && Compares(s, a, b, ya, yb, fits, aFirst)
    ensures NoFewer(s, a, b)
  {
    if fits && ya > LEAST_WEIGHT {
      MoreWeightMoreSlots(s.Mixed(), a, b);
    } else {
      ListedFirstNoFewer(s.Mixed(), a, b);
    }
  }

  /** Two environments and one slot more than their floors. */
  function TyingSetting(floor: int, rates: Rates): Setting {
    Setting(["b", "a"], floor, 2 * floor + 1, rates)
  }

  lemma TinyYieldsTie(floor: int, ys: Rates)
    requires EffectiveYield(ys, "a") <= LEAST_WEIGHT && EffectiveYield(ys, "b") <= LEAST_WEIGHT
    ensures var s := TyingSetting(floor, ys);
      && ValidMix(s.Mixed()) && ListedBefore(s.envs, "b", "a")
      && Slots(s.Mixed())("b") == floor + 1 && Slots(s.Mixed())("a") == floor
  {
    var m := TyingSetting(floor, ys).Mixed();
    TwoNames();
    assert m.envs[0] == "b" && m.envs[1] == "a";
    QuotaSum(m);
    var q := QuotaFn(m);
    assert m.envs[1..] == ["a"] && m.envs[1..][1..] == [];
    assert SumReal(m.envs, m.weight) == LEAST_WEIGHT + (LEAST_WEIGHT + 0.0);
    assert q("a") == 0.5 && q("b") == 0.5;
    EqualQuotas(m, q);
  }

  lemma TwoNames()
    ensures "b" != "a" && Distinct(["b", "a"])
  {
    assert "b"[0] != "a"[0];
  }

  lemma EqualQuotas(m: Mix, q: string -> real)
    requires m.envs == ["b", "a"] && m.total == 2 * m.floor + 1 && q("a") == 0.5 && q("b") == 0.5
    requires SumReal(m.envs, q) == Rest(m) as real
    ensures Shares(m, q)("b") == m.floor + 1 && Shares(m, q)("a") == m.floor
  {
    TwoNames();
    assert (0.5).Floor == 0;
    assert BaseFn(q)("a") == 0 && BaseFn(q)("b") == 0;
    SumIntConst(m.envs, BaseFn(q), 0);
    var le := ByRemainder(q);
    assert RemainderFn(q)("a") == 0.5 && RemainderFn(q)("b") == 0.5;
    assert le("b", "a");
    forall i, j | 0 <= i < j < |m.envs| ensures le(m.envs[i], m.envs[j]) { assert i == 0 && j == 1; }
    SortOfSorted(m.envs, le);
    LeftoverInRange(m, q);
    assert Favoured(m, q) == ["b"];
  }

  /** Floors over budget: the split ignores the yields. */
  lemma OverSubscribed(ys: Rates)
    ensures var s := Setting(["b", "a"], 2, 3, ys);
      && ValidMix(s.Mixed()) && ListedBefore(s.envs, "b", "a") && Rest(s.Mixed()) < 0
      && Slots(s.Mixed())("b") == 2 && Slots(s.Mixed())("a") == 1
  {
    var m := Setting(["b", "a"], 2, 3, ys).Mixed();
    TwoNames();
    assert m.envs[0] == "b" && m.envs[1] == "a";
    assert OddCount(m) == 1 && m.envs[..1] == ["b"];
  }

  // ---------- a run that gets there ----------

  /** The yields after a list of verdicts. */
  function RatesAfter(alpha: real, rates: Rates, verdicts: seq<(string, bool)>): Rates
    decreases |verdicts|
  {
    if verdicts == [] then rates else RatesAfter(alpha, Recorded(alpha, rates, verdicts[0]), verdicts[1..])
  }

  function Recorded(alpha: real, rates: Rates, verdict: (string, bool)): Rates {
    if verdict.0 in rates then rates[verdict.0 := Some(Blend(alpha, rates[verdict.0], verdict.1))] else rates
  }

  function Misses(e: string, n: nat): seq<(string, bool)> { seq(n, _ => (e, false)) }

  /** A rewarded environment that is never rewarded again. */
  lemma {:induction false} MissesDecay(alpha: real, rates: Rates, e: string, n: nat, k: nat)
    requires e in rates && rates[e] == Some(Power(1.0 - alpha, k))
    ensures RatesAfter(alpha, rates, Misses(e, n)) == rates[e := Some(Power(1.0 - alpha, k + n))]
  {
    if n == 0 {
      assert rates == rates[e := rates[e]];
    } else {
      assert Misses(e, n)[0] == (e, false) && Misses(e, n)[1..] == Misses(e, n - 1);
      MissStep(alpha, Power(1.0 - alpha, k));
      PowerNext(1.0 - alpha, k);
      assert rates[e] == Some(Power(1.0 - alpha, k));
      assert Blend(alpha, rates[e], false) == Power(1.0 - alpha, k + 1);
      MissesDecay(alpha, Recorded(alpha, rates, (e, false)), e, n - 1, k + 1);
    }
  }

  lemma MissStep(alpha: real, p: real)
    ensures Blend(alpha, Some(p), false) == (1.0 - alpha) * p
  {
  }

  /** Bernoulli's bound: (1 - alpha)^n is at most 1 / (1 + n alpha). */
  lemma {:induction false} PowerBound(alpha: real, n: nat)
    requires 0.0 < alpha < 1.0
    ensures Power(1.0 - alpha, n) * (1.0 + n as real * alpha) <= 1.0
  {
    if n > 0 {
      PowerBound(alpha, n - 1);
      PowerPositive(1.0 - alpha, n - 1);
      BernoulliStep(alpha, Power(1.0 - alpha, n - 1), (n - 1) as real);
    }
  }

  lemma BernoulliStep(alpha: real, p: real, k: real)
    requires alpha > 0.0 && p > 0.0 && k >= 0.0 && p * (1.0 + k * alpha) <= 1.0
    ensures ((1.0 - alpha) * p) * (1.0 + (k + 1.0) * alpha) <= 1.0
  {
    var u := (1.0 - alpha) * (1.0 + (k + 1.0) * alpha);
    var w := (k + 1.0) * alpha * alpha;
    assert u == 1.0 + k * alpha - w;
    assert w >= 0.0 by { assert (k + 1.0) * alpha > 0.0; }
    assert ((1.0 - alpha) * p) * (1.0 + (k + 1.0) * alpha) == p * u;
    assert p * u == p * (1.0 + k * alpha) - p * w;
    assert p * w >= 0.0;
  }

  lemma PowerGetsTiny(alpha: real) returns (n: nat)
    requires 0.0 < alpha < 1.0
    ensures 0.0 < Power(1.0 - alpha, n) <= LEAST_WEIGHT
  {
    var x := 1000000000.0 / alpha;
    assert x * alpha == 1000000000.0;
    n := x.Floor + 1;
    PowerPositive(1.0 - alpha, n);
    PowerBound(alpha, n);
    TinyWhen(Power(1.0 - alpha, n), n as real * alpha, x, n as real, alpha);
  }

  lemma TinyWhen(p: real, y: real, x: real, n: real, alpha: real)
    requires p > 0.0 && alpha > 0.0 && n > x && y == n * alpha && x * alpha == 1000000000.0 && p * (1.0 + y) <= 1.0
    ensures p <= LEAST_WEIGHT
  {
    assert (n - x) * alpha > 0.0;
    assert (n - x) * alpha == n * alpha - x * alpha;
    assert y >= 1000000000.0;
    if p > LEAST_WEIGHT { TooMuch(p, y); }
  }

  lemma TooMuch(p: real, y: real)
    requires p > LEAST_WEIGHT && y >= 1000000000.0
    ensures p * (1.0 + y) > 1.0
  {
    assert (p - LEAST_WEIGHT) * (1.0 + y) > 0.0;
    assert (p - LEAST_WEIGHT) * (1.0 + y) == p * (1.0 + y) - LEAST_WEIGHT * (1.0 + y);
  }

  /** For every rate there is a run of verdicts after which two environments have different yields below
      the least weight, and the worse one, listed first, gets more slots. */
  lemma ClampIsReachable(alpha: real, floor: int) returns (verdicts: seq<(string, bool)>)
    requires 0.0 < alpha < 1.0
    ensures var s := TyingSetting(floor, RatesAfter(alpha, map["b" := None, "a" := None], verdicts));
      && 0.0 <= EffectiveYield(s.rates, "b") < EffectiveYield(s.rates, "a") <= LEAST_WEIGHT
      && ValidMix(s.Mixed()) && Slots(s.Mixed())("a") < Slots(s.Mixed())("b")
  {
    var n := PowerGetsTiny(alpha);
    var start: Rates := map["b" := None, "a" := None];
    TwoNames();
    var first := Recorded(alpha, start, ("b", false));
    var second := Recorded(alpha, first, ("a", true));
    assert second == map["b" := Some(0.0), "a" := Some(1.0)];
    MissesDecay(alpha, second, "a", n, 0);
    verdicts := [("b", false)] + ([("a", true)] + Misses("a", n));
    assert verdicts[1..] == [("a", true)] + Misses("a", n) && verdicts[1..][1..] == Misses("a", n);
    var end := second["a" := Some(Power(1.0 - alpha, n))];
    assert RatesAfter(alpha, start, verdicts) == end;
    TinyYieldsTie(floor, end);
  }

  // ---------- what to bake next ----------

  /** The largest of some deficits. */
  function Best(names: seq<string>, d: string -> int): int
    requires names != []
  {
    var last := d(names[|names| - 1]);
    if |names| == 1 then last
    else if Best(names[..|names| - 1], d) >= last then Best(names[..|names| - 1], d) else last
  }

  function WithDeficit(names: seq<string>, d: string -> int, b: int): seq<string> {
    if names == [] then []
    else WithDeficit(names[..|names| - 1], d, b) + if d(names[|names| - 1]) == b then [names[|names| - 1]] else []
  }

  function Tied(names: seq<string>, d: string -> int): seq<string>
    requires names != []
  {
    WithDeficit(names, d, Best(names, d))
  }

  lemma {:induction false} BestMeaning(names: seq<string>, d: string -> int)
    requires names != []
    ensures forall e :: e in names ==> d(e) <= Best(names, d)
    ensures exists e :: e in names && d(e) == Best(names, d)
  {
    var init, last := names[..|names| - 1], names[|names| - 1];
    assert names == init + [last];
    if init != [] { BestMeaning(init, d); }
    assert last in names;
  }

  lemma {:induction false} WithDeficitMeaning(names: seq<string>, d: string -> int, b: int)
    ensures forall e :: e in WithDeficit(names, d, b) <==> e in names && d(e) == b
  {
    if names != [] {
      WithDeficitMeaning(names[..|names| - 1], d, b);
      assert names == names[..|names| - 1] + [names[|names| - 1]];
    }
  }

  lemma TiedMeaning(names: seq<string>, d: string -> int)
    requires names != []
    ensures Tied(names, d) != []
    ensures forall e :: e in Tied(names, d) <==> e in names && forall f :: f in names ==> d(f) <= d(e)
  {
    BestMeaning(names, d);
    WithDeficitMeaning(names, d, Best(names, d));
    var e :| e in names && d(e) == Best(names, d);
    assert e in Tied(names, d);
  }

  lemma {:induction false} NoneWithDeficit(names: seq<string>, d: string -> int, b: int)
    requires forall e :: e in names ==> d(e) != b
    ensures WithDeficit(names, d, b) == []
  {
    if names != [] {
      assert names[|names| - 1] in names;
      NoneWithDeficit(names[..|names| - 1], d, b);
    }
  }

  lemma OnlyOne(e: string, d: string -> int)
    ensures Best([e], d) == d(e) && Tied([e], d) == [e]
  {
    assert WithDeficit([], d, d(e)) == [];
  }

  /** What one more name does to the tied ones. */
  lemma TiedStep(names: seq<string>, e: string, d: string -> int)
    requires names != []
    ensures Best(names + [e], d) == if d(e) > Best(names, d) then d(e) else Best(names, d)
    ensures Tied(names + [e], d)
         == if d(e) > Best(names, d) then [e] else Tied(names, d) + if d(e) == Best(names, d) then [e] else []
  {
    assert (names + [e])[..|names|] == names;
    BestMeaning(names, d);
    if d(e) > Best(names, d) {
      NoneWithDeficit(names, d, d(e));
    }
  }

  function DeficitFn(target: map<string, int>, counts: map<string, nat>): string -> int {
    (e: string) => (if e in target then target[e] else 0) - (if e in counts then counts[e] else 0)
  }

  /** The deepest deficit, ties in turn. */
  function Picked(names: seq<string>, d: string -> int, ticket: nat): string
    requires names != []
  {
    TiedMeaning(names, d); Tied(names, d)[ticket % |Tied(names, d)|]
  }

  /** The running maximum and its ties over a list of names. */
  ghost predicate Tracks(names: seq<string>, d: string -> int, best: Option<int>, tied: seq<string>) {
    if names == [] then best == None else best == Some(Best(names, d)) && tied == Tied(names, d)
  }

  lemma TracksStep(names: seq<string>, d: string -> int, best: Option<int>, tied: seq<string>, e: string)
    requires Tracks(names, d, best, tied)
    ensures best == None || d(e) > best.value ==> Tracks(names + [e], d, Some(d(e)), [e])
    ensures best != None && d(e) == best.value ==> Tracks(names + [e], d, best, tied + [e])
    ensures best != None && d(e) < best.value ==> Tracks(names + [e], d, best, tied)
  {
    if names == [] {
      assert names + [e] == [e];
      OnlyOne(e, d);
    } else {
      TiedStep(names, e, d);
    }
  }

  /** The environments with the deepest deficit, by a running maximum. */
  method FindTied(names: seq<string>, target: map<string, int>, counts: map<string, nat>) returns (tied: seq<string>)
    requires names != [] && forall e :: e in names ==> e in target
    ensures tied == Tied(names, DeficitFn(target, counts))
  {
    var best: Option<int> := None;
    tied := [];
    for i := 0 to |names|
      invariant Tracks(names[..i], DeficitFn(target, counts), best, tied)
    {
      var e := names[i];
      var deficit := target[e] - if e in counts then counts[e] else 0;
      assert names[..i + 1] == names[..i] + [e];
      TracksStep(names[..i], DeficitFn(target, counts), best, tied, e);
      if best == None || deficit > best.value {
        best, tied := Some(deficit), [e];
      } else if deficit == best.value {
        tied := tied + [e];
      }
    }
    assert names[..|names|] == names;
  }

  /** The environment to bake, and the next ticket. */
  method PickBakeEnv(names: seq<string>, target: map<string, int>, counts: map<string, nat>, ticket: nat)
    returns (env: string, next: nat)
    requires names != [] && forall e :: e in names ==> e in target
    ensures env == Picked(names, DeficitFn(target, counts), ticket)
    ensures next == if |Tied(names, DeficitFn(target, counts))| == 1 then ticket else ticket + 1
    ensures env in names
    ensures forall e :: e in names ==>
      target[e] - (if e in counts then counts[e] else 0) <= target[env] - (if env in counts then counts[env] else 0)
  {
    var tied := FindTied(names, target, counts);
    TiedMeaning(names, DeficitFn(target, counts));
    assert Picked(names, DeficitFn(target, counts), ticket) in Tied(names, DeficitFn(target, counts));
    if |tied| == 1 { return tied[0], ticket; }
    return tied[ticket % |tied|], ticket + 1;
  }

  // ---------- baking until the targets are met ----------

  function Baked(counts: map<string, nat>, env: string): map<string, nat> {
    counts[env := (if env in counts then counts[env] else 0) + 1]
  }

  /** Bakes once for each ticket, whatever the tickets are. */
  function BakeAll(names: seq<string>, target: map<string, int>, counts: map<string, nat>,
                   tickets: seq<nat>): map<string, nat>
    requires names != []
    decreases |tickets|
  {
    if tickets == [] then counts
    else BakeAll(names, target, Baked(counts, Picked(names, DeficitFn(target, counts), tickets[0])), tickets[1..])
  }

  ghost predicate OnTarget(target: map<string, int>, counts: map<string, nat>, e: string) {
    (if e in counts then counts[e] else 0) == (if e in target then target[e] else 0)
  }

  function Missing(names: seq<string>, target: map<string, int>, counts: map<string, nat>): int {
    SumInt(names, DeficitFn(target, counts))
  }

  ghost predicate NoneOver(names: seq<string>, target: map<string, int>, counts: map<string, nat>) {
    forall e :: e in names ==> DeficitFn(target, counts)(e) >= 0
  }

  lemma {:induction false} SumIntDominates(names: seq<string>, f: string -> int)
    requires forall e :: e in names ==> f(e) >= 0
    ensures forall e :: e in names ==> f(e) <= SumInt(names, f)
    ensures SumInt(names, f) >= 0
  {
    if names != [] {
      SumIntDominates(names[1..], f);
      assert names == [names[0]] + names[1..];
    }
  }

  lemma {:induction false} SumIntPositive(names: seq<string>, f: string -> int)
    requires SumInt(names, f) > 0
    ensures exists e :: e in names && f(e) > 0
  {
    assert names == [names[0]] + names[1..];
    if f(names[0]) <= 0 {
      SumIntPositive(names[1..], f);
      var e :| e in names[1..] && f(e) > 0;
      assert e in names;
    } else {
      assert names[0] in names;
    }
  }

  /** One bake while something is missing: nothing overfills and one less is missing. */
  lemma BakeStep(names: seq<string>, target: map<string, int>, counts: map<string, nat>, ticket: nat)
    requires names != [] && Distinct(names) && NoneOver(names, target, counts) && Missing(names, target, counts) > 0
    ensures var after := Baked(counts, Picked(names, DeficitFn(target, counts), ticket));
      NoneOver(names, target, after) && Missing(names, target, after) == Missing(names, target, counts) - 1
  {
    var d := DeficitFn(target, counts);
    var env := Picked(names, d, ticket);
    TiedMeaning(names, d);
    assert env in Tied(names, d);
    SumIntPositive(names, d);
    SumIntBump(names, DeficitFn(target, Baked(counts, env)), d, env, -1);
  }

  /** Baking never overfills an environment, and after the missing number of bakes every target is met
      exactly, whatever the tie rotation. */
  lemma {:induction false} BakingFills(names: seq<string>, target: map<string, int>, counts: map<string, nat>,
                                       tickets: seq<nat>)
    requires names != [] && Distinct(names) && NoneOver(names, target, counts)
    requires |tickets| <= Missing(names, target, counts)
    ensures var after := BakeAll(names, target, counts, tickets);
      && NoneOver(names, target, after)
      && Missing(names, target, after) == Missing(names, target, counts) - |tickets|
      && (|tickets| == Missing(names, target, counts) <==> forall e :: e in names ==> OnTarget(target, after, e))
    decreases |tickets|
  {
    if tickets == [] {
      SumIntDominates(names, DeficitFn(target, counts));
      assert forall e :: OnTarget(target, counts, e) <==> DeficitFn(target, counts)(e) == 0;
      if forall e :: e in names ==> DeficitFn(target, counts)(e) == 0 {
        SumIntConst(names, DeficitFn(target, counts), 0);
      }
    } else {
      BakeStep(names, target, counts, tickets[0]);
      BakingFills(names, target, Baked(counts, Picked(names, DeficitFn(target, counts), tickets[0])), tickets[1..]);
    }
  }

  // ---------- ties rotate ----------

  /** Whose turn among n it is, k picks later. */
  function Turn(ticket: nat, k: nat, n: nat): nat
    requires n > 0
  {
    (ticket + k) % n
  }

  lemma AtLeastOnce(x: int, n: nat)
    ensures x >= 1 ==> x * n >= n
    ensures x <= -1 ==> x * n + n <= 0
  {
    if x >= 1 { assert (x - 1) * n >= 0; }
    if x <= -1 { assert (-x - 1) * n >= 0; }
  }

  lemma ModUnique(a: nat, n: nat, q: int, r: nat)
    requires r < n && a == q * n + r
    ensures a % n == r
  {
    var k, s := a / n, a % n;
    assert a == k * n + s;
    assert (k - q) * n == k * n - q * n == r - s;
    AtLeastOnce(k - q, n);
  }

  lemma TurnMeaning(ticket: nat, k: nat, n: nat)
    requires k < n
    ensures Turn(ticket, k, n) == if ticket % n + k < n then ticket % n + k else ticket % n + k - n
  {
    var q, r := ticket / n, ticket % n;
    assert ticket == q * n + r;
    assert (q + 1) * n == q * n + n;
    if r + k < n { ModUnique(ticket + k, n, q, r + k); } else { ModUnique(ticket + k, n, q + 1, r + k - n); }
  }

  /** While the deficits stand still, as many picks as there are tied environments take each of them
      exactly once. */
  lemma RotationIsFair(names: seq<string>, d: string -> int, ticket: nat, i: nat) returns (j: nat)
    requires names != [] && i < |Tied(names, d)|
    ensures j < |Tied(names, d)| && Picked(names, d, ticket + j) == Tied(names, d)[i]
    ensures forall k :: 0 <= k < |Tied(names, d)| && Turn(ticket, k, |Tied(names, d)|) == i ==> k == j
  {
    var n := |Tied(names, d)|;
    var r := ticket % n;
    j := if i >= r then i - r else i - r + n;
    TurnMeaning(ticket, j, n);
    forall k | 0 <= k < n && Turn(ticket, k, n) == i ensures k == j { TurnMeaning(ticket, k, n); }
  }
}
