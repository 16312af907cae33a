/** Budget-forced termination: turning phase-1 completions into finished rollouts.

    `AssembleRow` says what one row becomes on its own. The methods do it for whole batches, with
    left padding, one generate() call and per-row stream offsets; their contracts say that no row
    is affected by the batch it travels in.
 */
module Bft {
  import opened Wrappers
  import opened Generation

  datatype Rollout = Rollout(tokens: seq<nat>, promptLength: nat, forced: bool, forceSpan: Option<(nat, nat)>)

  /** think_close_ids, force_ids, eos_ids and answer_budget; stops is the stop set of generate(). */
  datatype Settings = Settings(close: set<nat>, force: seq<nat>, eos: set<nat>, budget: nat, stops: set<nat>, pad: nat)

  /** generate() stops on nothing but EOS ids, and the pad is an EOS id if there is one. */
  ghost predicate ValidSettings(k: Settings) {
    k.stops <= k.eos && (k.eos != {} ==> k.pad in k.eos)
  }

  /** Python's s[n:]. */
  function Drop(s: seq<nat>, n: nat): seq<nat> {
    if n <= |s| then s[n..] else []
  }

  predicate HasThinkClose(tokens: seq<nat>, close: set<nat>) {
    exists t | t in tokens :: t in close
  }

  datatype Plan = Finished(gen: seq<nat>) | Continue(primed: seq<nat>, span: Option<(nat, nat)>)

  function PlanRow(prompt: seq<nat>, s: seq<nat>, k: Settings): Plan {
    var gen := Drop(s, |prompt|);
    match FirstEos(gen, k.eos)
    case Some(fe) => Finished(gen[..fe + 1])
    case None =>
      if HasThinkClose(gen, k.close) then Continue(s, None)
      else Continue(s + k.force, Some((|s|, |s| + |k.force|)))
  }

  /** A row is finished exactly when it has an EOS, and then keeps its shortest prefix with one. */
  lemma PlanFinishes(prompt: seq<nat>, gen: seq<nat>, k: Settings)
    ensures var plan := PlanRow(prompt, prompt + gen, k);
      && (plan.Finished? <==> exists j :: 0 <= j < |gen| && gen[j] in k.eos)
      && (plan.Finished? ==> plan.gen <= gen && TerminationOk(plan.gen, k.eos))
  {
    assert Drop(prompt + gen, |prompt|) == gen;
    CutMeetsTheRule(gen, k.eos);
  }

  /** Any other row continues, as it is if it closed its thinking, otherwise with the force ids exactly in
      its span, right after what it has. */
  lemma PlanContinues(prompt: seq<nat>, gen: seq<nat>, k: Settings)
    requires PlanRow(prompt, prompt + gen, k).Continue?
    ensures var plan := PlanRow(prompt, prompt + gen, k);
      && (plan.span.None? <==> exists j :: 0 <= j < |gen| && gen[j] in k.close)
      && (if plan.span.None? then plan.primed == prompt + gen
          else
            var (a, b) := plan.span.value;
            a == |prompt| + |gen| && a <= b == |plan.primed| && plan.primed[..a] == prompt + gen &&
              plan.primed[a..b] == k.force)
  {
    assert Drop(prompt + gen, |prompt|) == gen;
    forall j | 0 <= j < |gen| && gen[j] in k.close ensures HasThinkClose(gen, k.close) { assert gen[j] in gen; }
    if HasThinkClose(gen, k.close) {
      var t :| t in gen && t in k.close;
      var j :| 0 <= j < |gen| && gen[j] == t;
    }
  }

  function BaseOffset(primedLength: nat, promptLength: nat): nat {
    if primedLength >= promptLength then primedLength - promptLength else 0
  }

  function Answer(w: Draw, primed: seq<nat>, c: Coord, k: Settings): seq<nat> {
    CutAtEos(Stream(w, primed, c, k.budget), k.eos)
  }

  function Finish(plen: nat, primed: seq<nat>, span: Option<(nat, nat)>, tail: seq<nat>): Rollout {
    Rollout(primed + tail, plen, span.Some?, span)
  }

  /** One row by itself: rollout number `rollout` of prompt number `pidx`. */
  function AssembleRow(w: Draw, prompt: seq<nat>, s: seq<nat>, pidx: int, rollout: nat, k: Settings): Rollout {
    match PlanRow(prompt, s, k)
    case Finished(gen) => Rollout(prompt + gen, |prompt|, false, None)
    case Continue(primed, span) =>
      Finish(|prompt|, primed, span,
             Answer(w, primed, Coord(pidx, rollout, BaseOffset(|primed|, |prompt|)), k))
  }

  // ---------- phase 2 ----------

  method MaxLength(rows: seq<seq<nat>>) returns (width: nat)
    requires rows != []
    ensures forall r :: 0 <= r < |rows| ==> |rows[r]| <= width
    ensures exists r :: 0 <= r < |rows| && |rows[r]| == width
  {
    width := |rows[0]|;
    for i := 1 to |rows|
      invariant forall r :: 0 <= r < i ==> |rows[r]| <= width
      invariant exists r :: 0 <= r < i && |rows[r]| == width
    {
      if |rows[i]| > width { width := |rows[i]|; }
    }
  }

  /** Left-pads the rows into one rectangular batch with its attention mask. */
  method PadLeft(primed: seq<seq<nat>>, pad: nat) returns (rows: seq<seq<nat>>, mask: seq<seq<bool>>, width: nat)
    requires primed != []
    ensures |rows| == |mask| == |primed|
    ensures exists q :: 0 <= q < |primed| && |primed[q]| == width
    ensures forall q :: 0 <= q < |primed| ==>
      && |primed[q]| <= width && rows[q] == Repeat(pad, width - |primed[q]|) + primed[q]
      && mask[q] == Repeat(false, width - |primed[q]|) + Repeat(true, |primed[q]|)
    ensures forall q :: 0 <= q < |primed| ==> |rows[q]| == |mask[q]| == width && Unpad(rows[q], mask[q]) == primed[q]
  {
    width := MaxLength(primed);
    rows, mask := [], [];
    for q := 0 to |primed|
      invariant |rows| == |mask| == q
      invariant forall j :: 0 <= j < q ==>
        && rows[j] == Repeat(pad, width - |primed[j]|) + primed[j]
        && mask[j] == Repeat(false, width - |primed[j]|) + Repeat(true, |primed[j]|)
      invariant forall j :: 0 <= j < q ==> |rows[j]| == |mask[j]| == width && Unpad(rows[j], mask[j]) == primed[j]
    {
      var gap := width - |primed[q]|;
      UnpadLeft(pad, gap, primed[q]);
      rows := rows + [Repeat(pad, gap) + primed[q]];
      mask := mask + [Repeat(false, gap) + Repeat(true, |primed[q]|)];
    }
  }

  /** One generate() call for all primed rows; each answer is cut at its first EOS. */
  method Phase2(w: Draw, primed: seq<seq<nat>>, pidxs: seq<int>, rollouts: seq<nat>, bases: seq<nat>, k: Settings)
    returns (tails: seq<seq<nat>>)
    requires ValidSettings(k)
    requires |primed| == |pidxs| == |rollouts| == |bases|
    ensures |tails| == |primed|
    ensures forall q :: 0 <= q < |primed| ==>
      tails[q] == Answer(w, primed[q], Coord(pidxs[q], rollouts[q], bases[q]), k)
  {
    if primed == [] { return []; }
    var rows, mask, width := PadLeft(primed, k.pad);
    var p := Processor(pidxs, rollouts, bases, width);
    var gens, steps, fins := Generate(w, rows, mask, p, k.budget, k.stops, k.pad);
    tails := CutAnswers(gens, k.eos);
    forall q | 0 <= q < |primed| ensures tails[q] == Answer(w, primed[q], Coord(pidxs[q], rollouts[q], bases[q]), k) {
      assert CoordAt(p, q, width) == Coord(pidxs[q], rollouts[q], bases[q]);
      GeneratedCut(w, primed[q], CoordAt(p, q, width), k.budget, k.stops, gens[q], fins[q], k.eos);
    }
  }

  method CutAnswers(gens: seq<seq<nat>>, eos: set<nat>) returns (tails: seq<seq<nat>>)
    ensures |tails| == |gens| && forall q :: 0 <= q < |gens| ==> tails[q] == CutAtEos(gens[q], eos)
  {
    tails := [];
    for q := 0 to |gens|
      invariant |tails| == q && forall j :: 0 <= j < q ==> tails[j] == CutAtEos(gens[j], eos)
    {
      var tail := TruncateAtFirstEos(gens[q], eos);
      tails := tails + [tail];
    }
  }

  // ---------- one prompt ----------

  /** The branch taken for one row. */
  method Classify(prompt: seq<nat>, s: seq<nat>, k: Settings) returns (plan: Plan)
    ensures plan == PlanRow(prompt, s, k)
  {
    var gen := Drop(s, |prompt|);
    var fe := FirstEosIndex(gen, k.eos);
    if fe.Some? {
      return Finished(gen[..fe.value + 1]);
    } else if HasThinkClose(gen, k.close) {
      return Continue(s, None);
    } else {
      var start := |s|;
      return Continue(s + k.force, Some((start, start + |k.force|)));
    }
  }

  method PlanRows(w: Draw, rows: seq<seq<nat>>, prompt: seq<nat>, pidx: int, k: Settings)
    returns (partial: seq<Option<Rollout>>, idxs: seq<nat>, primed: seq<seq<nat>>, spans: seq<Option<(nat, nat)>>)
    ensures |partial| == |rows| && |idxs| == |primed| == |spans|
    ensures forall q :: 0 <= q < |idxs| ==>
      idxs[q] < |rows| && PlanRow(prompt, rows[idxs[q]], k) == Continue(primed[q], spans[q])
    ensures forall j :: 0 <= j < |rows| ==> partial[j] == Some(AssembleRow(w, prompt, rows[j], pidx, j, k)) || j in idxs
  {
    partial, idxs, primed, spans := Repeat(None, |rows|), [], [], [];
    for i := 0 to |rows|
      invariant |partial| == |rows| && |idxs| == |primed| == |spans|
      invariant forall q :: 0 <= q < |idxs| ==>
        idxs[q] < i && PlanRow(prompt, rows[idxs[q]], k) == Continue(primed[q], spans[q])
      invariant forall j :: 0 <= j < i ==> partial[j] == Some(AssembleRow(w, prompt, rows[j], pidx, j, k)) || j in idxs
    {
      var plan := Classify(prompt, rows[i], k);
      match plan {
        case Finished(gen) =>
          partial := partial[i := Some(Rollout(prompt + gen, |prompt|, false, None))];
        case Continue(p, span) =>
          idxs, primed, spans := idxs + [i], primed + [p], spans + [span];
      }
    }
  }

  method AssembleRollouts(w: Draw, rows: seq<seq<nat>>, prompt: seq<nat>, pidx: int, k: Settings)
    returns (out: seq<Rollout>)
    requires ValidSettings(k)
    ensures |out| == |rows|
    ensures forall i :: 0 <= i < |rows| ==> out[i] == AssembleRow(w, prompt, rows[i], pidx, i, k)
  {
    var n, plen := |rows|, |prompt|;
    var partial, idxs, primed, spans := PlanRows(w, rows, prompt, pidx, k);
    var bases := seq<nat>(|primed|, q requires 0 <= q < |primed| => BaseOffset(|primed[q]|, plen));
    var tails := Phase2(w, primed, Repeat(pidx, |primed|), idxs, bases, k);
    var vals := seq(|idxs|, q requires 0 <= q < |idxs| => Finish(plen, primed[q], spans[q], tails[q]));
    ghost var goal := seq(n, i requires 0 <= i < n => AssembleRow(w, prompt, rows[i], pidx, i, k));
    forall q | 0 <= q < |idxs| ensures vals[q] == goal[idxs[q]] {
      assert PlanRow(prompt, rows[idxs[q]], k) == Continue(primed[q], spans[q]);
    }
    out := FillIn(partial, idxs, vals, goal);
  }

  /** Writes each generated rollout at its row. */
  method FillIn(partial: seq<Option<Rollout>>, idxs: seq<nat>, vals: seq<Rollout>, ghost goal: seq<Rollout>)
    returns (out: seq<Rollout>)
    requires |partial| == |goal| && |idxs| == |vals|
    requires forall q :: 0 <= q < |idxs| ==> idxs[q] < |goal| && vals[q] == goal[idxs[q]]
    requires forall j :: 0 <= j < |goal| ==> partial[j] == Some(goal[j]) || j in idxs
    ensures out == goal
  {
    var filled := partial;
    for q := 0 to |idxs|
      invariant |filled| == |goal|
      invariant forall j :: 0 <= j < |goal| ==> filled[j] == Some(goal[j]) || j in idxs[q..]
    {
      assert idxs[q..] == [idxs[q]] + idxs[q + 1..];
      filled := filled[idxs[q] := Some(vals[q])];
    }
    out := seq(|filled|, i requires 0 <= i < |filled| => AssembledValue(filled[i]));
  }

  function AssembledValue(o: Option<Rollout>): Rollout {
    if o.Some? then o.value else Rollout([], 0, false, None)
  }

  function PadRight(c: seq<nat>, width: nat, pad: nat): seq<nat> {
    if |c| <= width then c + Repeat(pad, width - |c|) else c
  }

  /** The list adapter: completions of different lengths are right-padded into one tensor. An empty
      list has no maximum length. */
  method RolloutsFromCompletions(w: Draw, completions: seq<seq<nat>>, prompt: seq<nat>, pidx: int, k: Settings)
    returns (out: Result<seq<Rollout>, string>, ghost width: nat)
    requires ValidSettings(k)
    ensures out.Err? <==> completions == []
    ensures forall i :: 0 <= i < |completions| ==> |completions[i]| <= width
    ensures completions != [] ==> exists i :: 0 <= i < |completions| && |completions[i]| == width
    ensures out.Ok? ==> |out.value| == |completions|
    ensures out.Ok? ==> forall i :: 0 <= i < |completions| ==>
      out.value[i] == AssembleRow(w, prompt, PadRight(completions[i], width, k.pad), pidx, i, k)
  {
    if completions == [] { return Err("ValueError"), 0; }
    var m := MaxLength(completions);
    var rows := seq(|completions|, i requires 0 <= i < |completions| => PadRight(completions[i], m, k.pad));
    var r := AssembleRollouts(w, rows, prompt, pidx, k);
    return Ok(r), m;
  }

  // ---------- many prompts at once ----------

  datatype Group = Group(completions: seq<seq<nat>>, prompt: seq<nat>, pidx: int)

  function RowOf(w: Draw, groups: seq<Group>, g: nat, r: nat, k: Settings): Rollout
    requires g < |groups| && r < |groups[g].completions|
  {
    AssembleRow(w, groups[g].prompt, groups[g].completions[r], groups[g].pidx, r, k)
  }

  /** The work list of the batched phase 2: where each row belongs and what it is primed with. */
  datatype Todo = Todo(where: (nat, nat), primed: seq<nat>, plen: nat, pidx: int, span: Option<(nat, nat)>)

  ghost predicate TodoOf(groups: seq<Group>, k: Settings, t: Todo) {
    var (g, r) := t.where;
    g < |groups| && TodoIn(groups[g], g, k, t)
  }

  ghost predicate TodoIn(grp: Group, g: nat, k: Settings, t: Todo) {
    && t.where.0 == g && t.where.1 < |grp.completions|
    && t.plen == |grp.prompt| && t.pidx == grp.pidx
    && PlanRow(grp.prompt, grp.completions[t.where.1], k) == Continue(t.primed, t.span)
  }

  ghost predicate Listed(todo: seq<Todo>, g: nat, r: nat) {
    exists q :: 0 <= q < |todo| && todo[q].where == (g, r)
  }

  lemma ListedAppend(todo: seq<Todo>, more: seq<Todo>, g: nat, r: nat)
    requires Listed(todo, g, r) || Listed(more, g, r)
    ensures Listed(todo + more, g, r)
  {
    if Listed(todo, g, r) {
      var q :| 0 <= q < |todo| && todo[q].where == (g, r);
      assert (todo + more)[q].where == (g, r);
    } else {
      var q :| 0 <= q < |more| && more[q].where == (g, r);
      assert (todo + more)[|todo| + q].where == (g, r);
    }
  }

  ghost predicate Shaped(groups: seq<Group>, partial: seq<seq<Option<Rollout>>>) {
    && |partial| <= |groups|
    && forall g :: 0 <= g < |partial| ==> |partial[g]| == |groups[g].completions|
  }

  /** Every row is done or on the work list. */
  ghost predicate Covered(w: Draw, groups: seq<Group>, k: Settings, partial: seq<seq<Option<Rollout>>>, todo: seq<Todo>)
    requires Shaped(groups, partial)
  {
    forall a: nat, b: nat :: a < |partial| && b < |partial[a]| ==>
      partial[a][b] == Some(RowOf(w, groups, a, b, k)) || Listed(todo, a, b)
  }

  method PlanGroup(w: Draw, grp: Group, g: nat, k: Settings)
    returns (partial: seq<Option<Rollout>>, todo: seq<Todo>)
    ensures |partial| == |grp.completions|
    ensures forall r: nat :: r < |partial| ==>
      partial[r] == Some(AssembleRow(w, grp.prompt, grp.completions[r], grp.pidx, r, k)) || Listed(todo, g, r)
    ensures forall q :: 0 <= q < |todo| ==> TodoIn(grp, g, k, todo[q])
  {
    partial, todo := [], [];
    for ri := 0 to |grp.completions|
      invariant |partial| == ri
      invariant forall r: nat :: r < ri ==>
        partial[r] == Some(AssembleRow(w, grp.prompt, grp.completions[r], grp.pidx, r, k)) || Listed(todo, g, r)
      invariant forall q :: 0 <= q < |todo| ==> TodoIn(grp, g, k, todo[q])
    {
      var plan := Classify(grp.prompt, grp.completions[ri], k);
      match plan {
        case Finished(gen) =>
          partial := partial + [Some(Rollout(grp.prompt + gen, |grp.prompt|, false, None))];
        case Continue(p, span) =>
          ghost var todo0, more := todo, [Todo((g, ri), p, |grp.prompt|, grp.pidx, span)];
          partial, todo := partial + [None], todo + [Todo((g, ri), p, |grp.prompt|, grp.pidx, span)];
          assert more[0].where == (g, ri);
          forall r: nat | Listed(todo0, g, r) || r == ri ensures Listed(todo, g, r) { ListedAppend(todo0, more, g, r); }
      }
    }
  }

  method PlanGroups(w: Draw, groups: seq<Group>, k: Settings)
    returns (partial: seq<seq<Option<Rollout>>>, todo: seq<Todo>)
    ensures |partial| == |groups| && Shaped(groups, partial) && Covered(w, groups, k, partial, todo)
    ensures forall q :: 0 <= q < |todo| ==> TodoOf(groups, k, todo[q])
  {
    partial, todo := [], [];
    for gi := 0 to |groups|
      invariant |partial| == gi && Shaped(groups, partial) && Covered(w, groups, k, partial, todo)
      invariant forall q :: 0 <= q < |todo| ==> TodoOf(groups, k, todo[q])
    {
      var part, more := PlanGroup(w, groups[gi], gi, k);
      CoveredAppend(w, groups, k, partial, todo, part, more);
      partial, todo := partial + [part], todo + more;
    }
  }

  lemma CoveredAppend(w: Draw, groups: seq<Group>, k: Settings, partial: seq<seq<Option<Rollout>>>, todo: seq<Todo>,
                      part: seq<Option<Rollout>>, more: seq<Todo>)
    requires Shaped(groups, partial) && |partial| < |groups| && Covered(w, groups, k, partial, todo)
    requires |part| == |groups[|partial|].completions|
    requires forall r: nat :: r < |part| ==>
      part[r] == Some(RowOf(w, groups, |partial|, r, k)) || Listed(more, |partial|, r)
    ensures Shaped(groups, partial + [part]) && Covered(w, groups, k, partial + [part], todo + more)
  {
    var all := partial + [part];
    forall a: nat, b: nat | a < |all| && b < |all[a]|
      ensures all[a][b] == Some(RowOf(w, groups, a, b, k)) || Listed(todo + more, a, b)
    {
      if Listed(todo, a, b) || Listed(more, a, b) { ListedAppend(todo, more, a, b); }
    }
  }

  /** Writes one answer where its row belongs. */
  method Place(w: Draw, groups: seq<Group>, k: Settings, partial: seq<seq<Option<Rollout>>>, todo: seq<Todo>,
               tail: seq<nat>)
    returns (r: seq<seq<Option<Rollout>>>)
    requires |partial| == |groups| && Shaped(groups, partial) && Covered(w, groups, k, partial, todo)
    requires todo != [] && TodoOf(groups, k, todo[0])
    requires tail == Answer(w, todo[0].primed,
                            Coord(todo[0].pidx, todo[0].where.1, BaseOffset(|todo[0].primed|, todo[0].plen)), k)
    ensures |r| == |groups| && Shaped(groups, r) && Covered(w, groups, k, r, todo[1..])
  {
    var t := todo[0];
    var (g, i) := t.where;
    r := partial[g := partial[g][i := Some(Finish(t.plen, t.primed, t.span, tail))]];
    assert r[g][i] == Some(RowOf(w, groups, g, i, k));
    forall a: nat, b: nat | a < |r| && b < |r[a]|
      ensures r[a][b] == Some(RowOf(w, groups, a, b, k)) || Listed(todo[1..], a, b)
    {
      if (a, b) != (g, i) {
        assert r[a][b] == partial[a][b];
        if q :| 0 <= q < |todo| && todo[q].where == (a, b) { assert todo[1..][q - 1].where == (a, b); }
      }
    }
  }

  /** One generate() call for the unfinished rows of all prompts. */
  method RolloutsFromCompletionsMulti(w: Draw, groups: seq<Group>, k: Settings)
    returns (out: Result<seq<seq<Rollout>>, string>)
    requires ValidSettings(k)
    ensures out.Err? <==> groups == []
    ensures out.Ok? ==> |out.value| == |groups|
    ensures out.Ok? ==> forall g :: 0 <= g < |groups| ==> |out.value[g]| == |groups[g].completions|
    ensures out.Ok? ==> forall g, r :: 0 <= g < |groups| && 0 <= r < |groups[g].completions| ==>
      out.value[g][r] == RowOf(w, groups, g, r, k)
  {
    if groups == [] { return Err("ValueError"); }
    var partial, todo := PlanGroups(w, groups, k);
    var n := |todo|;
    var primed := seq(n, q requires 0 <= q < n => todo[q].primed);
    var pidxs := seq(n, q requires 0 <= q < n => todo[q].pidx);
    var rollouts := seq<nat>(n, q requires 0 <= q < n => todo[q].where.1);
    var bases := seq<nat>(n, q requires 0 <= q < n => BaseOffset(|todo[q].primed|, todo[q].plen));
    var tails := Phase2(w, primed, pidxs, rollouts, bases, k);
    for q := 0 to n
      invariant |partial| == |groups| && Shaped(groups, partial) && Covered(w, groups, k, partial, todo[q..])
    {
      var t := todo[q];
      assert TodoOf(groups, k, t);
      partial := Place(w, groups, k, partial, todo[q..], tails[q]);
      assert todo[q + 1..] == todo[q..][1..];
    }
    assert forall a: nat, b: nat :: !Listed(todo[n..], a, b);
    return Ok(seq(|groups|, g requires 0 <= g < |groups| =>
      seq(|partial[g]|, r requires 0 <= r < |partial[g]| => AssembledValue(partial[g][r]))));
  }
}
