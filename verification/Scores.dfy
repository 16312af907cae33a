/** Miner scores: an exponential moving average over sealed batches, with pruning.

    alpha, the number of batch slots and the pruning threshold are parameters; numbers are exact.
 */
module Scores {
  import opened Reals
  import opened Sorting

  /** One archived window: the window number and the hotkey of each batch entry. */
  datatype Record = Record(window: int, hotkeys: seq<string>)

  /** The protocol constants, and the blend they define. */
  datatype Ema = Ema(alpha: real, slots: nat, prune: real, blend: (nat, real) -> real)

  /** alpha * (count / slots) + (1 - alpha) * old */
  function EmaOf(alpha: real, slots: nat, prune: real): Ema
    requires slots > 0
  {
    Ema(alpha, slots, prune,
        (count: nat, before: real) => alpha * (count as real / slots as real) + (1.0 - alpha) * before)
  }

  ghost predicate ValidEma(k: Ema) {
    0.0 < k.alpha < 1.0 && k.slots > 0 && k.prune >= 0.0 && k == EmaOf(k.alpha, k.slots, k.prune)
  }

  type Scores = map<string, real>

  function ScoreOf(s: Scores, hk: string): real {
    if hk in s then s[hk] else 0.0
  }

  function Count(batch: seq<string>, hk: string): nat {
    if batch == [] then 0 else (if batch[0] == hk then 1 else 0) + Count(batch[1..], hk)
  }

  function Blended(k: Ema, s: Scores, batch: seq<string>, hk: string): real {
    k.blend(Count(batch, hk), ScoreOf(s, hk))
  }

  /** One window. Absent miners decay, scores at or below the threshold are dropped. */
  function Step(k: Ema, s: Scores, batch: seq<string>): Scores {
    map hk | hk in s.Keys + (set h | h in batch) && Blended(k, s, batch, hk) > k.prune :: Blended(k, s, batch, hk)
  }

  /** Windows in the order given. */
  function Fold(k: Ema, s: Scores, records: seq<Record>): Scores
    decreases |records|
  {
    if records == [] then s else Fold(k, Step(k, s, records[0].hotkeys), records[1..])
  }

  predicate Earlier(a: Record, b: Record) { a.window <= b.window }

  /** The replay of both validators: archives sorted by window. */
  function Replay(k: Ema, archives: seq<Record>): Scores
  {
    Fold(k, map[], Sort(archives, Earlier))
  }

  method CountContributions(batch: seq<string>) returns (contribs: map<string, nat>)
    ensures contribs.Keys == set h | h in batch
    ensures forall h :: h in contribs ==> contribs[h] == Count(batch, h)
  {
    contribs := map[];
    for i := 0 to |batch|
      invariant contribs.Keys == set h | h in batch[..i]
      invariant forall h :: Count(batch[..i], h) == if h in contribs then contribs[h] else 0
    {
      var hk := batch[i];
      forall h ensures Count(batch[..i + 1], h) == Count(batch[..i], h) + if h == hk then 1 else 0 {
        CountSnoc(batch[..i], hk, h);
        assert batch[..i + 1] == batch[..i] + [hk];
      }
      contribs := contribs[hk := (if hk in contribs then contribs[hk] else 0) + 1];
    }
    assert batch[..|batch|] == batch;
  }

  lemma {:induction false} CountSnoc(batch: seq<string>, x: string, h: string)
    ensures Count(batch + [x], h) == Count(batch, h) + if h == x then 1 else 0
  {
    if batch != [] {
      assert (batch + [x])[1..] == batch[1..] + [x];
      CountSnoc(batch[1..], x, h);
    }
  }

  /** One window, hotkey by hotkey, then the pruning pass. */
  method UpdateScores(k: Ema, scores: Scores, batch: seq<string>) returns (r: Scores)
    ensures r == Step(k, scores, batch)
  {
    var contribs := CountContributions(batch);
    var all := scores.Keys + contribs.Keys;
    var todo := all;
    r := scores;
    while todo != {}
      invariant todo <= all && r.Keys <= all && scores.Keys <= r.Keys && all - todo <= r.Keys
      invariant forall hk :: hk in todo && hk in scores ==> r[hk] == scores[hk]
      invariant forall hk :: hk in todo && hk in r ==> hk in scores
      invariant forall hk :: hk in all - todo ==> r[hk] == Blended(k, scores, batch, hk)
    {
      var hk :| hk in todo;
      if hk !in contribs { CountAbsent(batch, hk); }
      var count := if hk in contribs then contribs[hk] else 0;
      var before := if hk in r then r[hk] else 0.0;
      r := r[hk := k.blend(count, before)];
      todo := todo - {hk};
    }
    r := map hk | hk in r && r[hk] > k.prune :: r[hk];
  }

  lemma {:induction false} CountOccurrences(batch: seq<string>, hk: string)
    ensures Count(batch, hk) == multiset(batch)[hk]
  {
    if batch != [] {
      CountOccurrences(batch[1..], hk);
      assert batch == [batch[0]] + batch[1..];
    }
  }

  /** alpha times the share of the slots, plus the rest of the old score. */
  lemma BlendMeaning(k: Ema, count: nat, before: real)
    requires ValidEma(k)
    ensures k.blend(count, before) == k.alpha * (count as real / k.slots as real) + (1.0 - k.alpha) * before
  {
  }

  /** One window for one miner: the score is blended with the number of its batch entries. The miner is in the
      table afterwards exactly if it was there or in the batch and the new score is above the threshold. */
  lemma StepMeaning(k: Ema, s: Scores, batch: seq<string>, hk: string)
    ensures var score := k.blend(multiset(batch)[hk], if hk in s then s[hk] else 0.0);
      && (hk in Step(k, s, batch) <==> (hk in s || hk in batch) && score > k.prune)
      && (hk in Step(k, s, batch) ==> Step(k, s, batch)[hk] == score)
  {
    CountOccurrences(batch, hk);
  }

  lemma {:induction false} CountAbsent(batch: seq<string>, hk: string)
    requires hk !in batch
    ensures Count(batch, hk) == 0
  {
    if batch != [] { CountAbsent(batch[1..], hk); }
  }

  method ReplayEma(k: Ema, archives: seq<Record>) returns (ema: Scores)
    ensures ema == Replay(k, archives)
  {
    var ordered := Sort(archives, Earlier);
    ema := map[];
    for i := 0 to |ordered|
      invariant Fold(k, ema, ordered[i..]) == Replay(k, archives)
    {
      assert ordered[i..][1..] == ordered[i + 1..];
      ema := UpdateScores(k, ema, ordered[i].hotkeys);
    }
  }

  // ---------- online equals replay ----------

  ghost predicate StrictlyOrdered(records: seq<Record>) {
    forall i, j :: 0 <= i < j < |records| ==> records[i].window < records[j].window
  }

  /** Replaying the archives of a run, in whatever order they arrive, gives the live scores. */
  lemma ReplayEqualsOnline(k: Ema, history: seq<Record>, archives: seq<Record>)
    requires StrictlyOrdered(history) && multiset(archives) == multiset(history)
    ensures Replay(k, archives) == Fold(k, map[], history)
  {
    forall x, y | x in archives && y in archives && Earlier(x, y) && Earlier(y, x) ensures x == y {
      assert x in multiset(archives) && y in multiset(archives);
      assert x in multiset(history) && y in multiset(history);
      var i, j :| 0 <= i < |history| && 0 <= j < |history| && history[i] == x && history[j] == y;
    }
    SortUnique(archives, history, Earlier);
  }

  lemma {:induction false} FoldConcat(k: Ema, s: Scores, a: seq<Record>, b: seq<Record>)
    ensures Fold(k, s, a + b) == Fold(k, Fold(k, s, a), b)
    decreases |a|
  {
    if a == [] {
      assert a + b == b;
    } else {
      assert (a + b)[0] == a[0] && (a + b)[1..] == a[1..] + b;
      FoldConcat(k, Step(k, s, a[0].hotkeys), a[1..], b);
    }
  }

  // ---------- one hotkey at a time ----------

  function Pruned(k: Ema, v: real): real {
    if v > k.prune then v else 0.0
  }

  ghost predicate Filled(k: Ema, records: seq<Record>) {
    forall i :: 0 <= i < |records| ==> |records[i].hotkeys| <= k.slots
  }

  ghost predicate Bounded(s: Scores) {
    forall hk :: hk in s ==> 0.0 <= s[hk] <= 1.0
  }

  lemma {:induction false} CountAtMost(batch: seq<string>, hk: string)
    ensures Count(batch, hk) <= |batch|
  {
    if batch != [] { CountAtMost(batch[1..], hk); }
  }

  lemma MulNonNegative(a: real, b: real)
    requires a >= 0.0 && b >= 0.0
    ensures a * b >= 0.0
  {
  }

  lemma MulInRange(b: real, y: real)
    requires b > 0.0 && 0.0 <= y <= 1.0
    ensures 0.0 <= b * y <= b
  {
    MulNonNegative(b, y);
    MulNonNegative(b, 1.0 - y);
    assert b * (1.0 - y) == b - b * y;
  }

  /** The two halves of a blend: a batch entry's share of the mass, and what is kept. */
  function Share(k: Ema, count: nat): real
    requires k.slots > 0
  {
    k.alpha * (count as real / k.slots as real)
  }

  function Keep(k: Ema, before: real): real {
    Scale(1.0 - k.alpha, before)
  }

  lemma BlendSplit(k: Ema, count: nat, before: real)
    requires ValidEma(k)
    ensures k.blend(count, before) == Share(k, count) + Keep(k, before)
  {
  }

  lemma ShareFacts(k: Ema, count: nat)
    requires ValidEma(k)
    ensures Share(k, count) >= 0.0 && Share(k, 0) == 0.0
    ensures count <= k.slots ==> Share(k, count) <= k.alpha
  {
    var n, c := k.slots as real, count as real;
    var q := c / n;
    assert q * n == c && q >= 0.0 && 0.0 / n == 0.0;
    MulNonNegative(k.alpha, q);
    if count <= k.slots {
      assert q <= 1.0;
      MulInRange(k.alpha, q);
    }
  }

  lemma ScaleFacts(b: real, x: real)
    requires b > 0.0
    ensures Scale(b, 0.0) == 0.0
    ensures x >= 0.0 ==> Scale(b, x) >= 0.0
    ensures 0.0 <= x <= 1.0 ==> Scale(b, x) <= b
  {
    if x >= 0.0 { MulNonNegative(b, x); }
    if 0.0 <= x <= 1.0 { MulInRange(b, x); }
  }

  lemma KeepFacts(k: Ema, x: real)
    requires ValidEma(k)
    ensures Keep(k, 0.0) == 0.0
    ensures x >= 0.0 ==> Keep(k, x) >= 0.0
    ensures 0.0 <= x <= 1.0 ==> Keep(k, x) <= 1.0 - k.alpha
  {
    ScaleFacts(1.0 - k.alpha, x);
  }

  lemma BlendZero(k: Ema)
    requires ValidEma(k)
    ensures k.blend(0, 0.0) == 0.0
  {
    BlendSplit(k, 0, 0.0);
    ShareFacts(k, 0);
    KeepFacts(k, 0.0);
  }

  lemma StepPointwise(k: Ema, s: Scores, batch: seq<string>, hk: string)
    requires k.prune >= 0.0 && k.blend(0, 0.0) == 0.0
    ensures ScoreOf(Step(k, s, batch), hk) == Pruned(k, Blended(k, s, batch, hk))
  {
    if hk !in s && hk !in batch { CountAbsent(batch, hk); }
  }

  lemma StepBounded(k: Ema, s: Scores, batch: seq<string>)
    requires ValidEma(k) && Bounded(s) && |batch| <= k.slots
    ensures Bounded(Step(k, s, batch))
    ensures forall hk :: hk in Step(k, s, batch) ==> Step(k, s, batch)[hk] > k.prune
  {
    var s' := Step(k, s, batch);
    forall hk | hk in s' ensures 0.0 <= s'[hk] <= 1.0 {
      CountAtMost(batch, hk);
      BlendSplit(k, Count(batch, hk), ScoreOf(s, hk));
      ShareFacts(k, Count(batch, hk));
      KeepFacts(k, ScoreOf(s, hk));
    }
  }

  lemma {:induction false} FoldBounded(k: Ema, s: Scores, records: seq<Record>)
    requires ValidEma(k) && Bounded(s) && Filled(k, records)
    ensures Bounded(Fold(k, s, records))
    decreases |records|
  {
    if records != [] {
      StepBounded(k, s, records[0].hotkeys);
      FoldBounded(k, Step(k, s, records[0].hotkeys), records[1..]);
    }
  }

  // ---------- replaying only the recent past ----------

  /** p shrunk n times: p * (1 - alpha)^n. */
  function Decayed(k: Ema, p: real, n: nat): real
    decreases n
  {
    if n == 0 then p else Decayed(k, Keep(k, p), n - 1)
  }

  lemma {:induction false} DecayedIsPower(k: Ema, p: real, n: nat)
    ensures Decayed(k, p, n) == p * Power(1.0 - k.alpha, n)
    decreases n
  {
    if n > 0 {
      DecayedIsPower(k, Keep(k, p), n - 1);
      Regroup(1.0 - k.alpha, p, Power(1.0 - k.alpha, n - 1));
    }
  }

  lemma Regroup(b: real, p: real, q: real)
    ensures (b * p) * q == p * (b * q)
  {
  }

  /** The most that pruning can ever cost a score. */
  function PruneCost(k: Ema): real
    requires k.alpha != 0.0
  {
    k.prune / k.alpha
  }

  lemma PruneCostFacts(k: Ema)
    requires ValidEma(k)
    ensures PruneCost(k) >= 0.0
    ensures (1.0 - k.alpha) * PruneCost(k) == PruneCost(k) - k.prune
  {
    var e := k.prune / k.alpha;
    assert e * k.alpha == k.prune;
    assert (1.0 - k.alpha) * e == e - k.alpha * e;
    assert e >= 0.0;
  }

  lemma ScaleGap(b: real, x: real, y: real, p: real, e: real)
    requires b > 0.0 && 0.0 <= y <= x <= y + p + e
    ensures 0.0 <= b * y <= b * x <= b * y + b * p + b * e
  {
    MulNonNegative(b, y);
    MulNonNegative(b, x - y);
    MulNonNegative(b, y + p + e - x);
    assert b * (x - y) == b * x - b * y;
    assert b * (y + p + e - x) == b * y + b * p + b * e - b * x;
  }

  lemma PrunedGap(k: Ema, v: real, w: real, q: real, e: real)
    requires 0.0 <= w <= v <= w + q + e && k.prune >= 0.0
    ensures 0.0 <= Pruned(k, w) <= Pruned(k, v) <= Pruned(k, w) + q + e + k.prune
  {
  }

  lemma KeepGap(k: Ema, x: real, y: real, p: real)
    requires ValidEma(k) && 0.0 <= y <= x <= y + p + PruneCost(k)
    ensures 0.0 <= Keep(k, y) <= Keep(k, x) <= Keep(k, y) + Keep(k, p) + (PruneCost(k) - k.prune)
  {
    PruneCostFacts(k);
    ScaleGap(1.0 - k.alpha, x, y, p, PruneCost(k));
  }

  /** What one window does to the gap between two scores of a hotkey. */
  lemma GapStep(k: Ema, count: nat, x: real, y: real, p: real)
    requires ValidEma(k) && 0.0 <= y <= x <= y + p + PruneCost(k)
    ensures var x', y' := Pruned(k, k.blend(count, x)), Pruned(k, k.blend(count, y));
      0.0 <= y' <= x' <= y' + Keep(k, p) + PruneCost(k)
  {
    BlendSplit(k, count, x);
    BlendSplit(k, count, y);
    ShareFacts(k, count);
    KeepGap(k, x, y, p);
    PrunedGap(k, k.blend(count, x), k.blend(count, y), Keep(k, p), PruneCost(k) - k.prune);
  }

  lemma {:induction false} GapFold(k: Ema, s: Scores, t: Scores, records: seq<Record>, hk: string, p: real)
    requires ValidEma(k)
    requires 0.0 <= ScoreOf(t, hk) <= ScoreOf(s, hk) <= ScoreOf(t, hk) + p + PruneCost(k)
    ensures ScoreOf(Fold(k, t, records), hk) <= ScoreOf(Fold(k, s, records), hk)
         <= ScoreOf(Fold(k, t, records), hk) + Decayed(k, p, |records|) + PruneCost(k)
    decreases |records|
  {
    if records != [] {
      var b := records[0].hotkeys;
      GapStepScores(k, s, t, b, hk, p);
      GapFold(k, Step(k, s, b), Step(k, t, b), records[1..], hk, Keep(k, p));
    }
  }

  lemma GapStepScores(k: Ema, s: Scores, t: Scores, b: seq<string>, hk: string, p: real)
    requires ValidEma(k)
    requires 0.0 <= ScoreOf(t, hk) <= ScoreOf(s, hk) <= ScoreOf(t, hk) + p + PruneCost(k)
    ensures 0.0 <= ScoreOf(Step(k, t, b), hk) <= ScoreOf(Step(k, s, b), hk)
         <= ScoreOf(Step(k, t, b), hk) + Keep(k, p) + PruneCost(k)
  {
    BlendZero(k);
    StepPointwise(k, s, b, hk);
    StepPointwise(k, t, b, hk);
    GapStep(k, Count(b, hk), ScoreOf(s, hk), ScoreOf(t, hk), p);
  }

  /** Replaying only the last n archives gives every hotkey at most its full-history score, and less
      by at most (1 - alpha)^n + prune / alpha. */
  lemma RecentReplayIsClose(k: Ema, history: seq<Record>, n: nat, hk: string)
    requires ValidEma(k) && Filled(k, history) && n <= |history|
    ensures var full := ScoreOf(Fold(k, map[], history), hk);
      var recent := ScoreOf(Fold(k, map[], history[|history| - n..]), hk);
      recent <= full <= recent + Power(1.0 - k.alpha, n) + PruneCost(k)
  {
    var past, last := history[..|history| - n], history[|history| - n..];
    assert history == past + last;
    FoldConcat(k, map[], past, last);
    FoldBounded(k, map[], past);
    PruneCostFacts(k);
    GapFold(k, Fold(k, map[], past), map[], last, hk, 1.0);
    DecayedIsPower(k, 1.0, n);
  }

  // ---------- conservation ----------

  function ScoreFn(s: Scores): string -> real { hk => ScoreOf(s, hk) }

  ghost function Total(s: Scores): real {
    SumOver(s.Keys, ScoreFn(s))
  }

  ghost predicate NonNegativeScores(s: Scores) {
    forall hk :: hk in s ==> s[hk] >= 0.0
  }

  function ShareFn(k: Ema, batch: seq<string>): string -> real
    requires k.slots > 0
  {
    hk => Share(k, Count(batch, hk))
  }

  function KeepFn(k: Ema, s: Scores): string -> real {
    hk => Keep(k, ScoreOf(s, hk))
  }

  lemma StepAtMost(k: Ema, s: Scores, batch: seq<string>, hk: string)
    requires ValidEma(k) && NonNegativeScores(s)
    ensures 0.0 <= ScoreOf(Step(k, s, batch), hk) <= ShareFn(k, batch)(hk) + KeepFn(k, s)(hk)
  {
    BlendZero(k);
    StepPointwise(k, s, batch, hk);
    BlendSplit(k, Count(batch, hk), ScoreOf(s, hk));
    ShareFacts(k, Count(batch, hk));
    KeepFacts(k, ScoreOf(s, hk));
  }

  lemma ShareAdd(k: Ema, a: nat, b: nat)
    requires k.slots > 0
    ensures Share(k, a + b) == Share(k, a) + Share(k, b)
  {
    var n := k.slots as real;
    assert (a + b) as real / n == a as real / n + b as real / n;
  }

  /** The shares handed out for a batch add up to the share of its size. */
  lemma {:induction false} SharesSum(k: Ema, batch: seq<string>, keys: set<string>)
    requires ValidEma(k) && forall h :: h in batch ==> h in keys
    ensures SumOver(keys, ShareFn(k, batch)) == Share(k, |batch|)
  {
    var f := ShareFn(k, batch);
    ShareFacts(k, 0);
    if batch == [] {
      SumSupport({}, keys, f);
    } else {
      var x, g := batch[0], ShareFn(k, batch[1..]);
      SharesSum(k, batch[1..], keys);
      assert x in keys;
      SumRemove(keys, f, x);
      SumRemove(keys, g, x);
      SumSame(keys - {x}, f, g);
      ShareAdd(k, 1, Count(batch[1..], x));
      ShareAdd(k, 1, |batch| - 1);
    }
  }

  lemma AtMostWhole(b: real, t: real)
    requires 0.0 <= b && t <= 1.0
    ensures Scale(b, t) <= b
  {
    MulNonNegative(b, 1.0 - t);
  }

  lemma KeptSum(k: Ema, s: Scores, keys: set<string>)
    requires ValidEma(k) && s.Keys <= keys && Total(s) <= 1.0
    ensures SumOver(keys, KeepFn(k, s)) <= 1.0 - k.alpha
  {
    var keep := 1.0 - k.alpha;
    SumScale(keys, keep, KeepFn(k, s), ScoreFn(s));
    SumSupport(s.Keys, keys, ScoreFn(s));
    AtMostWhole(keep, Total(s));
  }

  lemma StepTotal(k: Ema, s: Scores, batch: seq<string>)
    requires ValidEma(k) && NonNegativeScores(s) && |batch| <= k.slots && Total(s) <= 1.0
    ensures NonNegativeScores(Step(k, s, batch)) && Total(Step(k, s, batch)) <= 1.0
  {
    var keys := s.Keys + set h | h in batch;
    var s' := Step(k, s, batch);
    forall hk ensures 0.0 <= ScoreOf(s', hk) && ScoreFn(s')(hk) <= ShareFn(k, batch)(hk) + KeepFn(k, s)(hk) {
      StepAtMost(k, s, batch, hk);
    }
    assert forall hk :: hk in s' ==> ScoreOf(s', hk) == s'[hk];
    SumAtMost(keys, ScoreFn(s'), ShareFn(k, batch), KeepFn(k, s));
    SharesSum(k, batch, keys);
    ShareFacts(k, |batch|);
    KeptSum(k, s, keys);
    SumSupport(s'.Keys, keys, ScoreFn(s'));
  }

  /** Over every run, scores stay non-negative and add up to at most 1. */
  lemma {:induction false} Conservation(k: Ema, s: Scores, records: seq<Record>)
    requires ValidEma(k) && NonNegativeScores(s) && Total(s) <= 1.0 && Filled(k, records)
    ensures NonNegativeScores(Fold(k, s, records)) && Total(Fold(k, s, records)) <= 1.0
    decreases |records|
  {
    if records != [] {
      StepTotal(k, s, records[0].hotkeys);
      Conservation(k, Step(k, s, records[0].hotkeys), records[1..]);
    }
  }

  // ---------- the weight vector ----------

  const UID_BURN := 0

  function EntryWeight(entries: seq<(int, real)>): real {
    if entries == [] then 0.0 else EntryWeight(entries[..|entries| - 1]) + entries[|entries| - 1].1
  }

  /** sum(miner_weights.values()) */
  method TotalOf(s: Scores) returns (total: real)
    ensures total == Total(s)
  {
    var todo := s.Keys;
    total := 0.0;
    while todo != {}
      invariant todo <= s.Keys && total + SumOver(todo, ScoreFn(s)) == Total(s)
    {
      var hk :| hk in todo;
      SumRemove(todo, ScoreFn(s), hk);
      total := total + s[hk];
      todo := todo - {hk};
    }
  }

  ghost function Registered(s: Scores, uids: map<string, int>): set<string> {
    set hk | hk in s && hk in uids && s[hk] > 0.0
  }

  /** A miner's entry in the weight vector. */
  function EntryFor(scores: Scores, uids: map<string, int>, hk: string): (int, real) {
    (if hk in uids then uids[hk] else 0, ScoreOf(scores, hk))
  }

  function EntriesFor(scores: Scores, uids: map<string, int>, miners: seq<string>): (r: seq<(int, real)>)
    ensures |r| == |miners|
  {
    seq(|miners|, i requires 0 <= i < |miners| => EntryFor(scores, uids, miners[i]))
  }

  /** A list of some miners, once each. */
  ghost predicate Lists(miners: seq<string>, some: set<string>) {
    Distinct(miners) && (forall hk :: hk in miners ==> hk in some) && (forall hk :: hk in some ==> hk in miners)
  }

  lemma ListsMore(miners: seq<string>, some: set<string>, hk: string)
    requires Lists(miners, some) && hk !in some
    ensures Lists(miners + [hk], some + {hk})
  {
    forall h | h in some + {hk} ensures h in miners + [hk] { }
  }

  lemma ListsLess(miners: seq<string>, some: set<string>)
    requires miners != [] && Lists(miners, some)
    ensures Lists(miners[..|miners| - 1], some - {miners[|miners| - 1]})
  {
    var init, hk := miners[..|miners| - 1], miners[|miners| - 1];
    assert miners == init + [hk];
    forall h | h in init ensures h in some - {hk} {
      var i :| 0 <= i < |init| && init[i] == h;
      assert miners[i] == h && h in miners;
    }
  }

  lemma EntriesLast(scores: Scores, uids: map<string, int>, miners: seq<string>)
    requires miners != []
    ensures var hk := miners[|miners| - 1];
      EntryWeight(EntriesFor(scores, uids, miners))
      == EntryWeight(EntriesFor(scores, uids, miners[..|miners| - 1])) + ScoreOf(scores, hk)
  {
    var all := EntriesFor(scores, uids, miners);
    assert all[..|all| - 1] == EntriesFor(scores, uids, miners[..|miners| - 1]);
  }

  lemma {:induction false} EntriesWeight(scores: Scores, uids: map<string, int>, miners: seq<string>, some: set<string>)
    requires Lists(miners, some)
    ensures |miners| == |some|
    ensures EntryWeight(EntriesFor(scores, uids, miners)) == SumOver(some, ScoreFn(scores))
  {
    if miners == [] {
      assert some == {};
    } else {
      var init, hk := miners[..|miners| - 1], miners[|miners| - 1];
      assert hk in miners;
      ListsLess(miners, some);
      EntriesLast(scores, uids, miners);
      EntriesWeight(scores, uids, init, some - {hk});
      SumRemove(some, ScoreFn(scores), hk);
    }
  }

  /** The vector sent to the chain: each registered miner with a positive weight once, then the burn if
      there is any. While the scores are conserved, miner weights and burn add up to 1 before
      unregistered miners are left out. */
  method SubmitWeights(scores: Scores, uids: map<string, int>)
    returns (entries: seq<(int, real)>, burn: real, ghost miners: seq<string>)
    ensures burn >= 0.0 && (if Total(scores) <= 1.0 then Total(scores) + burn == 1.0 else burn == 0.0)
    ensures Lists(miners, Registered(scores, uids))
    ensures forall hk :: hk in miners <==> hk in scores && hk in uids && scores[hk] > 0.0
    ensures entries == EntriesFor(scores, uids, miners) + if burn > 0.0 then [(UID_BURN, burn)] else []
    ensures |entries| == |miners| + if burn > 0.0 then 1 else 0
    ensures forall i :: 0 <= i < |miners| ==> entries[i] == (uids[miners[i]], scores[miners[i]])
    ensures burn > 0.0 ==> entries[|miners|] == (0, burn)
    ensures EntryWeight(entries) == SumOver(Registered(scores, uids), ScoreFn(scores)) + burn
  {
    var total := TotalOf(scores);
    burn := if 1.0 - total > 0.0 then 1.0 - total else 0.0;
    entries, miners := MinerEntries(scores, uids);
    EntriesWeight(scores, uids, miners, Registered(scores, uids));
    if burn > 0.0 {
      assert (entries + [(UID_BURN, burn)])[..|entries|] == entries;
      entries := entries + [(UID_BURN, burn)];
    }
  }

  method MinerEntries(scores: Scores, uids: map<string, int>)
    returns (entries: seq<(int, real)>, ghost miners: seq<string>)
    ensures Lists(miners, Registered(scores, uids)) && entries == EntriesFor(scores, uids, miners)
  {
    entries, miners := [], [];
    var todo := scores.Keys;
    ghost var reg := Registered(scores, uids);
    assert reg - todo == {};
    while todo != {}
      invariant todo <= scores.Keys && Lists(miners, reg - todo) && entries == EntriesFor(scores, uids, miners)
    {
      var hk :| hk in todo;
      if hk in uids && scores[hk] > 0.0 {
        ListsMore(miners, reg - todo, hk);
        assert reg - todo + {hk} == reg - (todo - {hk});
        miners := miners + [hk];
        entries := entries + [(uids[hk], scores[hk])];
      } else {
        assert reg - todo == reg - (todo - {hk});
      }
      todo := todo - {hk};
    }
    assert reg - {} == reg;
  }
}
