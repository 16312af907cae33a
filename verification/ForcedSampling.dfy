/** The protocol sampler: temperature, top-k, top-p, then the inverse-CDF pick at a public u.

    Numbers are exact reals. The softmax weight is any positive, strictly increasing function.
    `torch.sort` is a stable sort; `torch.topk` may break ties in any way it likes, so its index
    output is a parameter constrained by `IsTopK`. A division by zero mass would give NaN in the
    source; `Ratio` returns 0 there, and `WarpSumsToOne` shows it never happens.
 */
module ForcedSampling {
  import opened Sorting

  datatype Logit = NegInf | Fin(value: real)

  datatype Params = Params(weight: real -> real, temperature: real, topK: int, topP: real)

  ghost predicate ValidParams(p: Params) {
    && (forall x :: p.weight(x) > 0.0)
    && (forall x, y :: x < y ==> p.weight(x) < p.weight(y))
    && p.temperature > 0.0
    && p.topP >= 0.0
  }

  predicate Geq(a: Logit, b: Logit) {
    b.NegInf? || (a.Fin? && a.value >= b.value)
  }

  /** A row the softmax is defined on. */
  predicate Usable(logits: seq<Logit>) {
    exists i | 0 <= i < |logits| :: logits[i].Fin?
  }

  function Ratio(x: real, y: real): real {
    if y == 0.0 then 0.0 else x / y
  }

  function Sum(xs: seq<real>): real {
    if xs == [] then 0.0 else Sum(xs[..|xs| - 1]) + xs[|xs| - 1]
  }

  function Cumsum(xs: seq<real>): seq<real> {
    seq(|xs|, i requires 0 <= i < |xs| => Sum(xs[..i + 1]))
  }

  function Min(a: int, b: int): int {
    if a <= b then a else b
  }

  function Indices(n: nat): seq<nat> {
    seq(n, i requires 0 <= i < n => i)
  }

  function At(xs: seq<real>, i: nat): real {
    if i < |xs| then xs[i] else 0.0
  }

  function Gather(xs: seq<real>, ids: seq<nat>): seq<real> {
    seq(|ids|, j requires 0 <= j < |ids| => At(xs, ids[j]))
  }

  function Lookup(i: nat, ids: seq<nat>, vals: seq<real>): real
    requires |ids| == |vals|
  {
    if ids == [] then 0.0 else if ids[0] == i then vals[0] else Lookup(i, ids[1..], vals[1..])
  }

  /** zeros(n).scatter(ids, vals) for distinct ids. */
  function Scatter(n: nat, ids: seq<nat>, vals: seq<real>): (r: seq<real>)
    requires |ids| == |vals|
    ensures |r| == n
  {
    seq(n, i requires 0 <= i < n => Lookup(i, ids, vals))
  }

  function DescendingBy(xs: seq<real>): (nat, nat) -> bool {
    (i: nat, j: nat) => At(xs, i) >= At(xs, j)
  }

  function LogitAt(lg: seq<Logit>, i: nat): Logit {
    if i < |lg| then lg[i] else NegInf
  }

  function DescendingLogits(lg: seq<Logit>): (nat, nat) -> bool {
    (i: nat, j: nat) => Geq(LogitAt(lg, i), LogitAt(lg, j))
  }

  function PositiveIn(xs: seq<real>): nat -> bool {
    (i: nat) => At(xs, i) > 0.0
  }

  // ---------- warp ----------

  function Scaled(logits: seq<Logit>, t: real): (r: seq<Logit>)
    ensures |r| == |logits|
  {
    seq(|logits|, i requires 0 <= i < |logits| =>
      if logits[i].NegInf? then NegInf else Fin(Ratio(logits[i].value, t)))
  }

  /** topk(lg, k).values[-1] */
  function KthValue(lg: seq<Logit>, k: nat): Logit
    requires 0 < k <= |lg|
  {
    SortMultiset(Indices(|lg|), DescendingLogits(lg));
    LogitAt(lg, Sort(Indices(|lg|), DescendingLogits(lg))[k - 1])
  }

  function MaskBelow(lg: seq<Logit>, kth: Logit): (r: seq<Logit>)
    ensures |r| == |lg|
  {
    seq(|lg|, i requires 0 <= i < |lg| => if Geq(lg[i], kth) then lg[i] else NegInf)
  }

  function TopK(lg: seq<Logit>, topK: int): (r: seq<Logit>)
    ensures |r| == |lg|
  {
    if topK > 0 && |lg| > 0 then MaskBelow(lg, KthValue(lg, Min(topK, |lg|))) else lg
  }

  function Weight(w: real -> real, l: Logit): real {
    if l.NegInf? then 0.0 else w(l.value)
  }

  function Weights(w: real -> real, lg: seq<Logit>): (r: seq<real>)
    ensures |r| == |lg|
  {
    seq(|lg|, i requires 0 <= i < |lg| => Weight(w, lg[i]))
  }

  function Normalize(xs: seq<real>): (r: seq<real>)
    ensures |r| == |xs|
  {
    seq(|xs|, i requires 0 <= i < |xs| => Ratio(xs[i], Sum(xs)))
  }

  function Softmax(w: real -> real, lg: seq<Logit>): (r: seq<real>)
    ensures |r| == |lg|
  {
    Normalize(Weights(w, lg))
  }

  /** Keep each entry whose preceding mass, in this order, is below topP; drop the rest. */
  function TopP(probs: seq<real>, order: seq<nat>, topP: real): (r: seq<real>)
    ensures |r| == |probs|
  {
    var sp := Gather(probs, order);
    var cum := Cumsum(sp);
    var kept := seq(|sp|, j requires 0 <= j < |sp| => if cum[j] - sp[j] < topP then sp[j] else 0.0);
    Scatter(|probs|, order, kept)
  }

  /** sort(probs, descending=True), as token ids. */
  function Order(probs: seq<real>): seq<nat> {
    Sort<nat>(Indices(|probs|), DescendingBy(probs))
  }

  predicate TopPActive(topP: real) {
    topP != 0.0 && topP < 1.0
  }

  function Warp(logits: seq<Logit>, p: Params): (r: seq<real>)
    ensures |r| == |logits|
  {
    var probs := Softmax(p.weight, TopK(Scaled(logits, p.temperature), p.topK));
    var kept := if TopPActive(p.topP)
                then TopP(probs, Order(probs), p.topP)
                else probs;
    Normalize(kept)
  }

  function Survivors(probs: seq<real>): seq<nat> {
    Filter(Indices(|probs|), PositiveIn(probs))
  }

  /** The same with the sort restricted to the entries of positive probability. */
  function WarpFast(logits: seq<Logit>, p: Params): (r: seq<real>)
    ensures |r| == |logits|
  {
    var probs := Softmax(p.weight, TopK(Scaled(logits, p.temperature), p.topK));
    var kept := if TopPActive(p.topP)
                then TopP(probs, Sort(Survivors(probs), DescendingBy(probs)), p.topP)
                else probs;
    Normalize(kept)
  }

  // ---------- pick ----------

  /** searchsorted(cdf, u, right=True): the first entry above u. */
  function SearchRight(cdf: seq<real>, u: real): (r: nat)
    ensures r <= |cdf|
    ensures forall i :: 0 <= i < r ==> cdf[i] <= u
    ensures r < |cdf| ==> cdf[r] > u
  {
    if cdf == [] || cdf[0] > u then 0 else SearchRight(cdf[1..], u) + 1
  }

  function Pick(probs: seq<real>, u: real): (tok: int)
    requires probs != []
    ensures 0 <= tok < |probs|
  {
    Min(SearchRight(Cumsum(probs), u), |probs| - 1)
  }

  function ForceRow(logits: seq<Logit>, u: real, p: Params): (tok: int)
    requires logits != []
    ensures 0 <= tok < |logits|
  {
    Pick(Warp(logits, p), u)
  }

  /** The reference: each row on its own. */
  function ForceRowsBatched(rows: seq<seq<Logit>>, us: seq<real>, p: Params): (toks: seq<int>)
    requires |rows| == |us| && forall r | 0 <= r < |rows| :: rows[r] != []
    ensures |toks| == |rows|
    ensures forall r :: 0 <= r < |rows| ==> 0 <= toks[r] < |rows[r]|
  {
    seq(|rows|, r requires 0 <= r < |rows| => ForceRow(rows[r], us[r], p))
  }

  // ---------- the fast path ----------

  /** What torch.topk promises of its indices: k distinct ones, values descending, and nothing
      larger left out. */
  ghost predicate IsTopK(lg: seq<Logit>, k: nat, top: seq<nat>) {
    && |top| == k && Distinct(top)
    && (forall j :: 0 <= j < k ==> top[j] < |lg|)
    && (forall i, j :: 0 <= i < j < k ==> Geq(LogitAt(lg, top[i]), LogitAt(lg, top[j])))
    && (forall i: nat, j :: i < |lg| && i !in top && 0 <= j < k ==> Geq(LogitAt(lg, top[j]), LogitAt(lg, i)))
  }

  function AtLeast(lg: seq<Logit>, kth: Logit): nat -> bool {
    (i: nat) => Geq(LogitAt(lg, i), kth)
  }

  predicate BoundaryTie(lg: seq<Logit>, k: nat, top: seq<nat>)
    requires 0 < k == |top|
  {
    |Filter(Indices(|lg|), AtLeast(lg, LogitAt(lg, top[k - 1])))| > k
  }

  predicate InnerTie(lg: seq<Logit>, top: seq<nat>) {
    exists j | 0 <= j < |top| - 1 :: LogitAt(lg, top[j + 1]) == LogitAt(lg, top[j])
  }

  predicate Ascending(i: nat, j: nat) { i <= j }

  /** One row of the tie-free branch. */
  function FastRow(logits: seq<Logit>, u: real, p: Params, top: seq<nat>): int
    requires |top| > 0
  {
    var lg := Scaled(logits, p.temperature);
    var probs := Softmax(p.weight, MaskBelow(lg, LogitAt(lg, top[|top| - 1])));
    var kept := if TopPActive(p.topP) then TopP(probs, top, p.topP) else probs;
    var fin := Normalize(kept);
    SortMultiset(top, Ascending);
    var asc := Sort(top, Ascending);
    var pos := SearchRight(Cumsum(Gather(fin, asc)), u);
    if pos >= |top| then |logits| - 1 else asc[pos]
  }

  predicate AnyTie(rows: seq<seq<Logit>>, p: Params, k: nat, tops: seq<seq<nat>>)
    requires |tops| == |rows| && 0 < k && forall r | 0 <= r < |tops| :: |tops[r]| == k
  {
    exists r | 0 <= r < |rows| ::
      var lg := Scaled(rows[r], p.temperature);
      BoundaryTie(lg, k, tops[r]) || InnerTie(lg, tops[r])
  }

  /** tops[r] is what topk answered for row r; a tie in any row sends the whole batch to the
      reference. */
  function ForceRowsBatchedFast(rows: seq<seq<Logit>>, us: seq<real>, p: Params, vocab: nat,
                                tops: seq<seq<nat>>): seq<int>
    requires |rows| == |us| == |tops| && vocab > 0
    requires forall r | 0 <= r < |rows| :: |rows[r]| == vocab
    requires 0 < p.topK < vocab ==> forall r | 0 <= r < |tops| :: |tops[r]| == p.topK
  {
    if !(0 < p.topK < vocab) then ForceRowsBatched(rows, us, p)
    else if AnyTie(rows, p, p.topK, tops) then ForceRowsBatched(rows, us, p)
    else seq(|rows|, r requires 0 <= r < |rows| => FastRow(rows[r], us[r], p, tops[r]))
  }

  // ---------- the validator's check ----------

  function MaxOf(xs: seq<real>): real {
    if |xs| == 0 then 0.0
    else if |xs| == 1 then xs[0]
    else var m := MaxOf(xs[1..]); if xs[0] >= m then xs[0] else m
  }

  predicate Stochastic(row: seq<Logit>, p: Params, threshold: real) {
    MaxOf(Warp(row, p)) < threshold
  }

  predicate Matched(row: seq<Logit>, tok: int, u: real, p: Params, threshold: real) {
    row != [] && Stochastic(row, p, threshold) && ForceRow(row, u, p) == tok
  }

  function CountTrue(bs: seq<bool>): nat {
    if bs == [] then 0 else CountTrue(bs[..|bs| - 1]) + if bs[|bs| - 1] then 1 else 0
  }

  function CheckedLength(rows: seq<seq<Logit>>, toks: seq<int>, us: seq<real>): nat {
    Min(Min(|toks|, |us|), |rows|)
  }

  /** (n_stoch, n_match) over the positions that have a token, a u and a row. */
  function SeedConsistency(rows: seq<seq<Logit>>, toks: seq<int>, us: seq<real>, p: Params,
                           threshold: real): (nat, nat)
  {
    var n := CheckedLength(rows, toks, us);
    (CountTrue(seq(n, i requires 0 <= i < n => Stochastic(rows[i], p, threshold))),
     CountTrue(seq(n, i requires 0 <= i < n => Matched(rows[i], toks[i], us[i], p, threshold))))
  }
}
