/** What the assembled rollouts satisfy: they replay under teacher forcing, they end the way the
    validator demands, and batching prompts together changes nothing. */
module BftProperties {
  import opened Wrappers
  import opened Generation
  import opened Bft

  // ---------- teacher-forced replay ----------

  ghost predicate FollowsAt(w: Draw, prompt: seq<nat>, gen: seq<nat>, pidx: int, rollout: int, t: nat) {
    t < |gen| && gen[t] == w(prompt + gen[..t], Coord(pidx, rollout, t))
  }

  /** The completion follows its stream up to its first EOS, or throughout when it has none. */
  ghost predicate FollowsStream(w: Draw, prompt: seq<nat>, gen: seq<nat>, pidx: int, rollout: int, eos: set<nat>) {
    forall t: nat :: t < |CutAtEos(gen, eos)| ==> FollowsAt(w, prompt, gen, pidx, rollout, t)
  }

  predicate InSpan(r: Rollout, i: int) {
    r.forceSpan.Some? && r.forceSpan.value.0 <= i < r.forceSpan.value.1
  }

  /** The token at completion position t is the draw for the tokens before it. */
  ghost predicate ReplaysAt(w: Draw, tokens: seq<nat>, plen: nat, pidx: int, rollout: int, t: nat) {
    plen + t < |tokens| && tokens[plen + t] == w(tokens[..plen + t], Coord(pidx, rollout, t))
  }

  /** Every completion token outside the injected span is the draw for its own prefix. */
  ghost predicate Replays(w: Draw, r: Rollout, pidx: int, rollout: int) {
    && r.promptLength <= |r.tokens|
    && forall t: nat :: r.promptLength + t < |r.tokens| && !InSpan(r, r.promptLength + t) ==>
         ReplaysAt(w, r.tokens, r.promptLength, pidx, rollout, t)
  }

  lemma PrimedReplays(w: Draw, prompt: seq<nat>, gen: seq<nat>, tokens: seq<nat>, pidx: int, rollout: int, t: nat)
    requires FollowsAt(w, prompt, gen, pidx, rollout, t) && prompt + gen[..t + 1] <= tokens
    ensures ReplaysAt(w, tokens, |prompt|, pidx, rollout, t)
  {
    assert tokens[..|prompt| + t] == prompt + gen[..t];
    assert tokens[|prompt| + t] == (prompt + gen[..t + 1])[|prompt| + t];
  }

  lemma TailReplays(w: Draw, prompt: seq<nat>, primed: seq<nat>, pidx: int, rollout: int, k: Settings, t: nat)
    requires |prompt| <= |primed| <= |prompt| + t
    ensures var tokens := primed + Answer(w, primed, Coord(pidx, rollout, |primed| - |prompt|), k);
      |prompt| + t < |tokens| ==> ReplaysAt(w, tokens, |prompt|, pidx, rollout, t)
  {
    var c := Coord(pidx, rollout, |primed| - |prompt|);
    var s, a, i := Stream(w, primed, c, k.budget), Answer(w, primed, c, k), |prompt| + t - |primed|;
    if i < |a| {
      StreamAt(w, primed, c, k.budget, i);
      assert a[i] == s[i] && a[..i] == s[..i];
      assert (primed + a)[..|prompt| + t] == primed + a[..i];
      assert (primed + a)[|prompt| + t] == a[i];
      assert c.(t := c.t + i) == Coord(pidx, rollout, t);
    }
  }

  lemma FinishedReplays(w: Draw, prompt: seq<nat>, gen: seq<nat>, pidx: int, rollout: nat, k: Settings)
    requires FollowsStream(w, prompt, gen, pidx, rollout, k.eos)
    ensures Replays(w, Rollout(prompt + CutAtEos(gen, k.eos), |prompt|, false, None), pidx, rollout)
  {
    var tokens := prompt + CutAtEos(gen, k.eos);
    forall t: nat | |prompt| + t < |tokens| ensures ReplaysAt(w, tokens, |prompt|, pidx, rollout, t) {
      assert FollowsAt(w, prompt, gen, pidx, rollout, t);
      assert gen[..t + 1] <= CutAtEos(gen, k.eos);
      PrimedReplays(w, prompt, gen, tokens, pidx, rollout, t);
    }
  }

  lemma ContinuedReplays(w: Draw, prompt: seq<nat>, gen: seq<nat>, pidx: int, rollout: nat, k: Settings,
                         primed: seq<nat>, span: Option<(nat, nat)>)
    requires FollowsStream(w, prompt, gen, pidx, rollout, k.eos) && FirstEos(gen, k.eos).None?
    requires prompt + gen <= primed
    requires if span.None? then |primed| == |prompt + gen| else span.value == (|prompt + gen|, |primed|)
    ensures Replays(w, Finish(|prompt|, primed, span, Answer(w, primed, Coord(pidx, rollout, |primed| - |prompt|), k)),
                    pidx, rollout)
  {
    var r := Finish(|prompt|, primed, span, Answer(w, primed, Coord(pidx, rollout, |primed| - |prompt|), k));
    forall t: nat | |prompt| + t < |r.tokens| && !InSpan(r, |prompt| + t)
      ensures ReplaysAt(w, r.tokens, |prompt|, pidx, rollout, t)
    {
      if t < |gen| {
        assert FollowsAt(w, prompt, gen, pidx, rollout, t);
        assert prompt + gen[..t + 1] <= prompt + gen;
        PrimedReplays(w, prompt, gen, r.tokens, pidx, rollout, t);
      } else {
        TailReplays(w, prompt, primed, pidx, rollout, k, t);
      }
    }
  }

  /** If phase 1 followed the stream, so does the whole rollout outside the force span. */
  lemma AssembledReplays(w: Draw, prompt: seq<nat>, gen: seq<nat>, pidx: int, rollout: nat, k: Settings)
    requires FollowsStream(w, prompt, gen, pidx, rollout, k.eos)
    ensures Replays(w, AssembleRow(w, prompt, prompt + gen, pidx, rollout, k), pidx, rollout)
  {
    assert Drop(prompt + gen, |prompt|) == gen;
    match PlanRow(prompt, prompt + gen, k) {
      case Finished(g) => FinishedReplays(w, prompt, gen, pidx, rollout, k);
      case Continue(primed, span) => ContinuedReplays(w, prompt, gen, pidx, rollout, k, primed, span);
    }
  }

  // ---------- shape ----------

  /** The prompt is kept; a forced rollout has the force ids exactly in its span, which begins at start. */
  ghost predicate HasShape(r: Rollout, prompt: seq<nat>, start: nat, k: Settings) {
    && r.promptLength == |prompt| && prompt <= r.tokens
    && (r.forced <==> r.forceSpan.Some?)
    && (r.forced ==> r.forceSpan == Some((start, start + |k.force|)) && HoldsAt(r.tokens, start, k.force))
  }

  ghost predicate HoldsAt(tokens: seq<nat>, start: nat, force: seq<nat>) {
    start + |force| <= |tokens| && forall j :: 0 <= j < |force| ==> tokens[start + j] == force[j]
  }

  /** A forced row's span comes right after the phase-1 tokens. */
  lemma AssembledShape(w: Draw, prompt: seq<nat>, gen: seq<nat>, pidx: int, rollout: nat, k: Settings)
    ensures HasShape(AssembleRow(w, prompt, prompt + gen, pidx, rollout, k), prompt, |prompt| + |gen|, k)
  {
    assert Drop(prompt + gen, |prompt|) == gen;
  }

  /** A row is forced iff it has neither an EOS nor a closed thinking. */
  lemma AssembledForced(w: Draw, prompt: seq<nat>, gen: seq<nat>, pidx: int, rollout: nat, k: Settings)
    ensures AssembleRow(w, prompt, prompt + gen, pidx, rollout, k).forced
       <==> FirstEos(gen, k.eos).None? && !HasThinkClose(gen, k.close)
  {
    assert Drop(prompt + gen, |prompt|) == gen;
  }

  /** EOS-free force ids leave at most one EOS, in last position: the validator's termination rule
      holds exactly when the rollout contains an EOS at all. */
  lemma AssembledTermination(w: Draw, prompt: seq<nat>, gen: seq<nat>, pidx: int, rollout: nat, k: Settings)
    requires forall t :: t in k.force ==> t !in k.eos
    ensures var c := Drop(AssembleRow(w, prompt, prompt + gen, pidx, rollout, k).tokens, |prompt|);
      && (forall j :: 0 <= j < |c| && c[j] in k.eos ==> j == |c| - 1)
      && (TerminationOk(c, k.eos) <==> exists j :: 0 <= j < |c| && c[j] in k.eos)
  {
    var s := prompt + gen;
    var r := AssembleRow(w, prompt, s, pidx, rollout, k);
    var c := Drop(r.tokens, |prompt|);
    assert Drop(s, |prompt|) == gen;
    match PlanRow(prompt, s, k) {
      case Finished(g) =>
        assert c == g;
      case Continue(primed, span) =>
        var st := Stream(w, primed, Coord(pidx, rollout, BaseOffset(|primed|, |prompt|)), k.budget);
        assert c == Drop(primed, |prompt|) + CutAtEos(st, k.eos);
        EosFreePrefix(prompt, gen, k, primed, span);
        EosFreeThenCut(Drop(primed, |prompt|), st, k.eos);
    }
    LastOnly(c, k.eos);
  }

  lemma EosFreeThenCut(d: seq<nat>, st: seq<nat>, eos: set<nat>)
    requires forall j :: 0 <= j < |d| ==> d[j] !in eos
    ensures var c := d + CutAtEos(st, eos); forall j :: 0 <= j < |c| && c[j] in eos ==> j == |c| - 1
  {
    var c := d + CutAtEos(st, eos);
    forall i | 0 <= i < |d| ensures c[i] !in eos { assert c[i] == d[i]; }
    forall j | 0 <= j < |c| && c[j] in eos ensures j == |c| - 1 {
      CutLast(st, eos, j - |d|);
    }
  }

  lemma EosFreePrefix(prompt: seq<nat>, gen: seq<nat>, k: Settings, primed: seq<nat>, span: Option<(nat, nat)>)
    requires PlanRow(prompt, prompt + gen, k) == Continue(primed, span)
    requires forall t :: t in k.force ==> t !in k.eos
    ensures forall j :: 0 <= j < |Drop(primed, |prompt|)| ==> Drop(primed, |prompt|)[j] !in k.eos
  {
    assert Drop(prompt + gen, |prompt|) == gen;
    var d := Drop(primed, |prompt|);
    assert d == if span.Some? then gen + k.force else gen;
    forall j | 0 <= j < |d| ensures d[j] !in k.eos {
      if j >= |gen| { assert d[j] == k.force[j - |gen|]; }
    }
  }

  lemma CutLast(tokens: seq<nat>, eos: set<nat>, j: nat)
    requires j < |CutAtEos(tokens, eos)| && CutAtEos(tokens, eos)[j] in eos
    ensures j == |CutAtEos(tokens, eos)| - 1
  {
  }

  lemma LastOnly(c: seq<nat>, eos: set<nat>)
    requires forall j :: 0 <= j < |c| && c[j] in eos ==> j == |c| - 1
    ensures TerminationOk(c, eos) <==> exists j :: 0 <= j < |c| && c[j] in eos
  {
    var positions := set i | 0 <= i < |c| && c[i] in eos;
    if j :| 0 <= j < |c| && c[j] in eos {
      assert |c| - 1 in positions;
    } else {
      assert |c| - 1 !in positions;
    }
  }

  // ---------- batching prompts together ----------

  /** The adapter's caller contract: a completion without EOS has the group's maximum length. */
  predicate AtCapOrFinished(gen: seq<nat>, length: nat, width: nat, eos: set<nat>) {
    FirstEos(gen, eos).Some? || length == width
  }

  lemma PaddingBehindEos(gen: seq<nat>, padding: seq<nat>, eos: set<nat>)
    requires FirstEos(gen, eos).Some?
    ensures FirstEos(gen + padding, eos) == FirstEos(gen, eos)
  {
    var i := FirstEos(gen, eos).value;
    assert (gen + padding)[..i + 1] == gen[..i + 1];
    CutAgrees(gen, gen + padding, eos, i);
  }

  /** Under that contract the right padding of the one-prompt path does no harm. */
  lemma PaddingHarmless(w: Draw, prompt: seq<nat>, gen: seq<nat>, pidx: int, rollout: nat, k: Settings, width: nat)
    requires |prompt| + |gen| <= width
    requires AtCapOrFinished(gen, |prompt| + |gen|, width, k.eos)
    ensures AssembleRow(w, prompt, PadRight(prompt + gen, width, k.pad), pidx, rollout, k)
         == AssembleRow(w, prompt, prompt + gen, pidx, rollout, k)
  {
    var s, padding := prompt + gen, Repeat(k.pad, width - |prompt| - |gen|);
    assert PadRight(s, width, k.pad) == s + padding;
    assert Drop(s, |prompt|) == gen && Drop(s + padding, |prompt|) == gen + padding;
    if FirstEos(gen, k.eos).Some? {
      PaddingBehindEos(gen, padding, k.eos);
      var i := FirstEos(gen, k.eos).value;
      assert (gen + padding)[..i + 1] == gen[..i + 1];
    } else {
      assert s + padding == s;
    }
  }

  ghost predicate GroupInContract(g: Group, eos: set<nat>) {
    forall r :: 0 <= r < |g.completions| ==>
      && g.prompt <= g.completions[r]
      && (FirstEos(g.completions[r][|g.prompt|..], eos).None? ==>
            forall q :: 0 <= q < |g.completions| ==> |g.completions[q]| <= |g.completions[r]|)
  }

  /** Running phase 2 for all prompts at once gives each row exactly what it gets when its group
      runs alone, padded to the group's maximum length. */
  lemma MultiRefinesSingle(w: Draw, groups: seq<Group>, k: Settings, g: nat, r: nat, width: nat)
    requires g < |groups| && r < |groups[g].completions| && GroupInContract(groups[g], k.eos)
    requires forall q :: 0 <= q < |groups[g].completions| ==> |groups[g].completions[q]| <= width
    requires exists q :: 0 <= q < |groups[g].completions| && |groups[g].completions[q]| == width
    ensures RowOf(w, groups, g, r, k)
         == AssembleRow(w, groups[g].prompt, PadRight(groups[g].completions[r], width, k.pad), groups[g].pidx, r, k)
  {
    var grp := groups[g];
    var gen := grp.completions[r][|grp.prompt|..];
    assert grp.completions[r] == grp.prompt + gen;
    PaddingHarmless(w, grp.prompt, gen, grp.pidx, r, k, width);
  }

  // ---------- exactly when padding matters ----------

  lemma CutAtPad(gen: seq<nat>, padded: seq<nat>, k: Settings)
    requires gen + [k.pad] <= padded && k.pad in k.eos && FirstEos(gen, k.eos).None?
    ensures FirstEos(padded, k.eos) == Some(|gen|) && padded[..|gen| + 1] == gen + [k.pad]
  {
    assert padded[|gen|] == (gen + [k.pad])[|gen|];
    forall j | 0 <= j < |gen| ensures padded[j] !in k.eos { assert padded[j] == (gen + [k.pad])[j] == gen[j]; }
    FirstEosUnique(padded, k.eos, |gen|);
  }

  lemma PaddedPlan(prompt: seq<nat>, gen: seq<nat>, padded: seq<nat>, k: Settings)
    requires gen + [k.pad] <= padded && k.pad in k.eos && FirstEos(gen, k.eos).None?
    ensures PlanRow(prompt, prompt + padded, k) == Finished(gen + [k.pad])
  {
    CutAtPad(gen, padded, k);
    assert Drop(prompt + padded, |prompt|) == padded;
  }

  lemma PadRightSplit(prompt: seq<nat>, gen: seq<nat>, width: nat, pad: nat)
    requires |prompt| + |gen| <= width
    ensures PadRight(prompt + gen, width, pad) == prompt + (gen + Repeat(pad, width - |prompt| - |gen|))
  {
  }

  lemma FinishedRow(w: Draw, prompt: seq<nat>, s: seq<nat>, g: seq<nat>, pidx: int, rollout: nat, k: Settings)
    requires PlanRow(prompt, s, k) == Finished(g)
    ensures AssembleRow(w, prompt, s, pidx, rollout, k) == Rollout(prompt + g, |prompt|, false, None)
  {
  }

  /** A short row without EOS, padded with an EOS, ends there. */
  lemma PaddedFinishes(w: Draw, prompt: seq<nat>, gen: seq<nat>, pidx: int, rollout: nat, k: Settings, width: nat)
    requires |prompt| + |gen| < width && k.pad in k.eos && FirstEos(gen, k.eos).None?
    ensures AssembleRow(w, prompt, PadRight(prompt + gen, width, k.pad), pidx, rollout, k)
         == Rollout(prompt + (gen + [k.pad]), |prompt|, false, None)
  {
    PadRightSplit(prompt, gen, width, k.pad);
    PaddedPlan(prompt, gen, gen + Repeat(k.pad, width - |prompt| - |gen|), k);
    FinishedRow(w, prompt, PadRight(prompt + gen, width, k.pad), gen + [k.pad], pidx, rollout, k);
  }

  /** What the row becomes on its own when it closed its thinking. */
  lemma ClosedRow(w: Draw, prompt: seq<nat>, gen: seq<nat>, s: seq<nat>, pidx: int, rollout: nat, k: Settings)
    requires s == prompt + gen && FirstEos(gen, k.eos).None? && HasThinkClose(gen, k.close)
    ensures AssembleRow(w, prompt, s, pidx, rollout, k)
         == Finish(|prompt|, s, None, Answer(w, s, Coord(pidx, rollout, |gen|), k))
  {
    ClosedPlan(prompt, gen, s, k);
    assert BaseOffset(|s|, |prompt|) == |gen|;
  }

  lemma ClosedPlan(prompt: seq<nat>, gen: seq<nat>, s: seq<nat>, k: Settings)
    requires s == prompt + gen && FirstEos(gen, k.eos).None? && HasThinkClose(gen, k.close)
    ensures PlanRow(prompt, s, k) == Continue(s, None)
  {
    assert Drop(s, |prompt|) == gen;
  }

  lemma FirstAnswer(w: Draw, ctx: seq<nat>, c: Coord, k: Settings)
    requires k.pad in k.eos
    ensures Answer(w, ctx, c, k) == [k.pad] <==> k.budget > 0 && w(ctx, c) == k.pad
  {
    var s := Stream(w, ctx, c, k.budget);
    if k.budget > 0 {
      StreamAt(w, ctx, c, k.budget, 0);
      assert ctx + s[..0] == ctx;
      assert c.(t := c.t + 0) == c;
      if s[0] == k.pad {
        FirstEosUnique(s, k.eos, 0);
        assert s[..1] == [k.pad];
      }
    }
  }

  lemma SameTail(prompt: seq<nat>, gen: seq<nat>, s: seq<nat>, pad: nat, answer: seq<nat>)
    requires s == prompt + gen
    ensures prompt + (gen + [pad]) == s + answer <==> answer == [pad]
  {
    assert prompt + (gen + [pad]) == s + [pad];
    assert (s + [pad])[|s|..] == [pad] && (s + answer)[|s|..] == answer;
  }

  lemma PaddingWithEos(w: Draw, prompt: seq<nat>, gen: seq<nat>, pidx: int, rollout: nat, k: Settings, width: nat)
    requires |prompt| + |gen| < width && k.pad in k.eos && FirstEos(gen, k.eos).None?
    ensures AssembleRow(w, prompt, PadRight(prompt + gen, width, k.pad), pidx, rollout, k)
         == AssembleRow(w, prompt, prompt + gen, pidx, rollout, k)
       <==> HasThinkClose(gen, k.close) && k.budget > 0 && w(prompt + gen, Coord(pidx, rollout, |gen|)) == k.pad
  {
    PaddedFinishes(w, prompt, gen, pidx, rollout, k, width);
    if HasThinkClose(gen, k.close) {
      var s, c := prompt + gen, Coord(pidx, rollout, |gen|);
      ClosedRow(w, prompt, gen, s, pidx, rollout, k);
      SameTail(prompt, gen, s, k.pad, Answer(w, s, c, k));
      FirstAnswer(w, s, c, k);
    } else {
      AssembledForced(w, prompt, gen, pidx, rollout, k);
    }
  }

  lemma NoEosLength(w: Draw, prompt: seq<nat>, gen: seq<nat>, pidx: int, rollout: nat, k: Settings)
    requires k.eos == {}
    ensures var r := AssembleRow(w, prompt, prompt + gen, pidx, rollout, k);
      |r.tokens| == |prompt| + |gen| + (if r.forced then |k.force| else 0) + k.budget
  {
    assert Drop(prompt + gen, |prompt|) == gen;
  }

  /** Without EOS ids padding is never cut off, so it always shows. */
  lemma PaddingWithoutEos(w: Draw, prompt: seq<nat>, gen: seq<nat>, pidx: int, rollout: nat, k: Settings, width: nat)
    requires |prompt| + |gen| < width && k.eos == {}
    ensures AssembleRow(w, prompt, PadRight(prompt + gen, width, k.pad), pidx, rollout, k)
         != AssembleRow(w, prompt, prompt + gen, pidx, rollout, k)
  {
    var padded := gen + Repeat(k.pad, width - |prompt + gen|);
    assert PadRight(prompt + gen, width, k.pad) == prompt + padded;
    NoEosLength(w, prompt, gen, pidx, rollout, k);
    NoEosLength(w, prompt, padded, pidx, rollout, k);
  }

  /** The padded and the unpadded row become the same rollout exactly when the row has an EOS or the
      group's length, or there are EOS ids and the row closed its thinking and its stream's next token
      happens to be the pad. The pad is an EOS id whenever there is one. */
  lemma PaddingHarmlessExactly(w: Draw, prompt: seq<nat>, gen: seq<nat>, pidx: int, rollout: nat, k: Settings,
                               width: nat)
    requires |prompt| + |gen| <= width && (k.eos != {} ==> k.pad in k.eos)
    ensures AssembleRow(w, prompt, PadRight(prompt + gen, width, k.pad), pidx, rollout, k)
         == AssembleRow(w, prompt, prompt + gen, pidx, rollout, k)
       <==> AtCapOrFinished(gen, |prompt| + |gen|, width, k.eos)
            || (k.eos != {} && HasThinkClose(gen, k.close) && k.budget > 0
                && w(prompt + gen, Coord(pidx, rollout, |gen|)) == k.pad)
  {
    if AtCapOrFinished(gen, |prompt| + |gen|, width, k.eos) {
      PaddingHarmless(w, prompt, gen, pidx, rollout, k, width);
    } else if k.eos == {} {
      PaddingWithoutEos(w, prompt, gen, pidx, rollout, k, width);
    } else {
      PaddingWithEos(w, prompt, gen, pidx, rollout, k, width);
    }
  }

  /** A row one token short of its group: the pad is taken for its EOS, whatever the model would have
      said. */
  lemma PaddingCanMatter(w: Draw)
    ensures var k := Settings({}, [7], {0}, 1, {0}, 0);
      AssembleRow(w, [5], PadRight([5, 1], 3, 0), 0, 0, k) != AssembleRow(w, [5], [5, 1], 0, 0, k)
  {
    var k := Settings({}, [7], {0}, 1, {0}, 0);
    assert [5] + [1] == [5, 1];
    FirstEosNone([1], {0});
    PaddingHarmlessExactly(w, [5], [1], 0, 0, k, 3);
  }

  lemma FirstEosNone(tokens: seq<nat>, eos: set<nat>)
    requires forall j :: 0 <= j < |tokens| ==> tokens[j] !in eos
    ensures FirstEos(tokens, eos).None?
  {
  }

  // ---------- whole paths ----------

  /** What every path promises of one rollout: it replays, keeps its prompt, has the force ids exactly in
      its span, which begins at start, holds an EOS at most once, in last position, and is forced and as
      long as the budgets say. */
  ghost predicate GoodRollout(w: Draw, r: Rollout, prompt: seq<nat>, pidx: int, rollout: nat, start: nat, bftOn: bool,
                              k: Settings) {
    && Replays(w, r, pidx, rollout)
    && HasShape(r, prompt, start, k)
    && ((forall t :: t in k.force ==> t !in k.eos) ==> EosOnlyLast(Drop(r.tokens, |prompt|), k.eos))
    && StopsRight(r, |prompt|, start, bftOn, k)
  }

  /** Forced exactly if the thinking stays open, never beyond the limit, and short of it only with an EOS. */
  ghost predicate StopsRight(r: Rollout, from: nat, start: nat, bftOn: bool, k: Settings) {
    && (r.forced <==> bftOn && StaysOpen(r.tokens, from, start, k))
    && |r.tokens| <= Limit(start, bftOn, r.forced, k)
    && (NoEos(r.tokens, from, k.eos) ==> |r.tokens| == Limit(start, bftOn, r.forced, k))
  }

  /** Up to start there is neither an EOS nor the end of the thinking. */
  ghost predicate StaysOpen(tokens: seq<nat>, from: nat, start: nat, k: Settings) {
    |tokens| >= start && forall i :: from <= i < start ==> tokens[i] !in k.eos && tokens[i] !in k.close
  }

  ghost predicate NoEos(tokens: seq<nat>, from: nat, eos: set<nat>) {
    forall i :: from <= i < |tokens| ==> tokens[i] !in eos
  }

  /** The thinking, then the force ids of a forced rollout, then the answer budget. */
  ghost function Limit(start: nat, bftOn: bool, forced: bool, k: Settings): nat {
    if !bftOn then start else start + (if forced then |k.force| else 0) + k.budget
  }

  ghost predicate EosOnlyLast(completion: seq<nat>, eos: set<nat>) {
    forall j :: 0 <= j < |completion| && completion[j] in eos ==> j == |completion| - 1
  }

  /** A row that followed its stream becomes a good rollout; if it has no EOS, start is where it ends. */
  lemma AssembledGood(w: Draw, prompt: seq<nat>, gen: seq<nat>, pidx: int, rollout: nat, k: Settings, r: Rollout,
                      start: nat)
    requires FollowsStream(w, prompt, gen, pidx, rollout, k.eos)
    requires r == AssembleRow(w, prompt, prompt + gen, pidx, rollout, k)
    requires |prompt| + |gen| <= start && (FirstEos(gen, k.eos).None? ==> |prompt| + |gen| == start)
    ensures GoodRollout(w, r, prompt, pidx, rollout, start, true, k)
  {
    AssembledReplays(w, prompt, gen, pidx, rollout, k);
    AssembledForced(w, prompt, gen, pidx, rollout, k);
    GoodShape(w, prompt, gen, pidx, rollout, k, r, start);
    AssembledStops(w, prompt, gen, prompt + gen, pidx, rollout, k, r, start);
    if forall t :: t in k.force ==> t !in k.eos { AssembledTermination(w, prompt, gen, pidx, rollout, k); }
  }

  lemma GoodShape(w: Draw, prompt: seq<nat>, gen: seq<nat>, pidx: int, rollout: nat, k: Settings, r: Rollout,
                  start: nat)
    requires r == AssembleRow(w, prompt, prompt + gen, pidx, rollout, k)
    requires r.forced ==> start == |prompt| + |gen|
    ensures HasShape(r, prompt, start, k)
  {
    AssembledShape(w, prompt, gen, pidx, rollout, k);
    OtherStart(r, prompt, |prompt| + |gen|, start, k);
  }

  lemma OtherStart(r: Rollout, prompt: seq<nat>, start: nat, other: nat, k: Settings)
    requires HasShape(r, prompt, start, k) && (r.forced ==> start == other)
    ensures HasShape(r, prompt, other, k)
  {
  }

  function Primed(prompt: seq<nat>, gen: seq<nat>, k: Settings): seq<nat> {
    prompt + gen + (if HasThinkClose(gen, k.close) then [] else k.force)
  }

  lemma PlanPrimed(prompt: seq<nat>, gen: seq<nat>, k: Settings)
    requires FirstEos(gen, k.eos).None?
    ensures var plan := PlanRow(prompt, prompt + gen, k);
      plan.Continue? && plan.primed == Primed(prompt, gen, k) && (plan.span.Some? <==> !HasThinkClose(gen, k.close))
  {
    assert Drop(prompt + gen, |prompt|) == gen;
    assert prompt + gen + [] == prompt + gen;
  }

  lemma FinishedCase(w: Draw, prompt: seq<nat>, gen: seq<nat>, pidx: int, rollout: nat, k: Settings)
    requires FirstEos(gen, k.eos).Some?
    ensures AssembleRow(w, prompt, prompt + gen, pidx, rollout, k)
         == Rollout(prompt + gen[..FirstEos(gen, k.eos).value + 1], |prompt|, false, None)
  {
    assert Drop(prompt + gen, |prompt|) == gen;
  }

  /** What a row without EOS becomes: all it has, the force ids if its thinking is open, and an answer. */
  ghost predicate Continues(w: Draw, prompt: seq<nat>, gen: seq<nat>, c: Coord, k: Settings, r: Rollout) {
    && r.tokens == Primed(prompt, gen, k) + Answer(w, Primed(prompt, gen, k), c, k)
    && (r.forced <==> !HasThinkClose(gen, k.close))
  }

  lemma ContinuedCase(w: Draw, prompt: seq<nat>, gen: seq<nat>, s: seq<nat>, pidx: int, rollout: nat, k: Settings,
                      r: Rollout)
    returns (c: Coord)
    requires s == prompt + gen && FirstEos(gen, k.eos).None? && r == AssembleRow(w, prompt, s, pidx, rollout, k)
    ensures Continues(w, prompt, gen, c, k, r)
  {
    PlanPrimed(prompt, gen, k);
    var plan := PlanRow(prompt, s, k);
    c := Coord(pidx, rollout, BaseOffset(|plan.primed|, |prompt|));
  }

  lemma FinishedStops(prompt: seq<nat>, gen: seq<nat>, k: Settings, tokens: seq<nat>, start: nat)
    requires FirstEos(gen, k.eos).Some? && |prompt| + |gen| <= start
    requires tokens == prompt + gen[..FirstEos(gen, k.eos).value + 1]
    ensures |tokens| <= start && !StaysOpen(tokens, |prompt|, start, k) && !NoEos(tokens, |prompt|, k.eos)
  {
    var fe := FirstEos(gen, k.eos).value;
    assert tokens[|prompt| + fe] == gen[fe] && gen[fe] in k.eos;
  }

  lemma AnswerStops(w: Draw, primed: seq<nat>, c: Coord, k: Settings, from: nat)
    requires from <= |primed|
    ensures |Answer(w, primed, c, k)| <= k.budget
    ensures NoEos(primed + Answer(w, primed, c, k), from, k.eos) ==> |Answer(w, primed, c, k)| == k.budget
  {
    var s, a := Stream(w, primed, c, k.budget), Answer(w, primed, c, k);
    if FirstEos(s, k.eos).Some? {
      var fe := FirstEos(s, k.eos).value;
      assert (primed + a)[|primed| + fe] == a[fe] == s[fe];
    }
  }

  lemma ContinuedOpen(prompt: seq<nat>, gen: seq<nat>, k: Settings, tail: seq<nat>)
    requires FirstEos(gen, k.eos).None?
    ensures StaysOpen(Primed(prompt, gen, k) + tail, |prompt|, |prompt| + |gen|, k) <==> !HasThinkClose(gen, k.close)
  {
    var tokens := Primed(prompt, gen, k) + tail;
    assert forall i :: |prompt| <= i < |prompt| + |gen| ==> tokens[i] == gen[i - |prompt|];
    if HasThinkClose(gen, k.close) {
      var t :| t in gen && t in k.close;
      var j :| 0 <= j < |gen| && gen[j] == t;
      assert tokens[|prompt| + j] == t;
    }
  }

  lemma ContinuedStops(w: Draw, prompt: seq<nat>, gen: seq<nat>, k: Settings, c: Coord, r: Rollout, start: nat)
    requires FirstEos(gen, k.eos).None? && |prompt| + |gen| == start && Continues(w, prompt, gen, c, k, r)
    ensures StopsRight(r, |prompt|, start, true, k)
  {
    AnswerStops(w, Primed(prompt, gen, k), c, k, |prompt|);
    ContinuedOpen(prompt, gen, k, Answer(w, Primed(prompt, gen, k), c, k));
  }

  lemma FinishedRight(w: Draw, prompt: seq<nat>, gen: seq<nat>, pidx: int, rollout: nat, k: Settings, r: Rollout,
                      start: nat)
    requires r == AssembleRow(w, prompt, prompt + gen, pidx, rollout, k)
    requires FirstEos(gen, k.eos).Some? && |prompt| + |gen| <= start
    ensures StopsRight(r, |prompt|, start, true, k)
  {
    FinishedCase(w, prompt, gen, pidx, rollout, k);
    FinishedStops(prompt, gen, k, r.tokens, start);
  }

  /** When a row is forced, and where it stops. */
  lemma AssembledStops(w: Draw, prompt: seq<nat>, gen: seq<nat>, s: seq<nat>, pidx: int, rollout: nat, k: Settings,
                       r: Rollout, start: nat)
    requires s == prompt + gen && r == AssembleRow(w, prompt, s, pidx, rollout, k)
    requires |prompt| + |gen| <= start && (FirstEos(gen, k.eos).None? ==> |prompt| + |gen| == start)
    ensures StopsRight(r, |prompt|, start, true, k)
  {
    if FirstEos(gen, k.eos).Some? {
      FinishedRight(w, prompt, gen, pidx, rollout, k, r, start);
    } else {
      var c := ContinuedCase(w, prompt, gen, s, pidx, rollout, k, r);
      ContinuedStops(w, prompt, gen, k, c, r, start);
    }
  }

  /** So does one without budget forcing, cut at its first EOS. */
  lemma CutGood(w: Draw, prompt: seq<nat>, gen: seq<nat>, pidx: int, rollout: nat, start: nat, k: Settings)
    requires FollowsStream(w, prompt, gen, pidx, rollout, k.eos)
    requires |prompt| + |gen| <= start && (FirstEos(gen, k.eos).None? ==> |prompt| + |gen| == start)
    ensures GoodRollout(w, Rollout(prompt + CutAtEos(gen, k.eos), |prompt|, false, None), prompt, pidx, rollout, start,
                        false, k)
  {
    var cut := CutAtEos(gen, k.eos);
    FinishedReplays(w, prompt, gen, pidx, rollout, k);
    assert Drop(prompt + cut, |prompt|) == cut;
    if FirstEos(gen, k.eos).Some? {
      var fe := FirstEos(gen, k.eos).value;
      assert (prompt + cut)[|prompt| + fe] == gen[fe] && gen[fe] in k.eos;
    }
  }

  // ---------- nothing is left open ----------

  /** Two good rollouts for the same stream agree as far as both go. */
  lemma {:induction false} GoodAgree(w: Draw, a: Rollout, b: Rollout, prompt: seq<nat>, pidx: int, rollout: nat,
                                     start: nat, bftOn: bool, k: Settings, n: nat)
    requires GoodRollout(w, a, prompt, pidx, rollout, start, bftOn, k)
    requires GoodRollout(w, b, prompt, pidx, rollout, start, bftOn, k)
    requires n <= |a.tokens| && n <= |b.tokens| && (n <= start || a.forced == b.forced)
    ensures a.tokens[..n] == b.tokens[..n]
  {
    if n > 0 {
      GoodAgree(w, a, b, prompt, pidx, rollout, start, bftOn, k, n - 1);
      var i := n - 1;
      assert a.tokens[i] == b.tokens[i] by {
        if i < |prompt| {
          assert a.tokens[i] == prompt[i] == b.tokens[i];
        } else if InSpan(a, i) || InSpan(b, i) {
          assert a.tokens[start + (i - start)] == k.force[i - start] == b.tokens[start + (i - start)];
        } else {
          assert ReplaysAt(w, a.tokens, |prompt|, pidx, rollout, i - |prompt|);
          assert ReplaysAt(w, b.tokens, |prompt|, pidx, rollout, i - |prompt|);
        }
      }
      assert a.tokens[..n] == a.tokens[..i] + [a.tokens[i]] && b.tokens[..n] == b.tokens[..i] + [b.tokens[i]];
    }
  }

  lemma GoodForcedAlike(w: Draw, a: Rollout, b: Rollout, prompt: seq<nat>, pidx: int, rollout: nat, start: nat,
                        bftOn: bool, k: Settings)
    requires GoodRollout(w, a, prompt, pidx, rollout, start, bftOn, k) && a.forced && |prompt| <= start
    requires GoodRollout(w, b, prompt, pidx, rollout, start, bftOn, k)
    ensures b.forced
  {
    var n := if |b.tokens| < start then |b.tokens| else start;
    GoodAgree(w, a, b, prompt, pidx, rollout, start, bftOn, k, n);
    assert forall i :: |prompt| <= i < n ==> b.tokens[i] == b.tokens[..n][i] == a.tokens[..n][i] == a.tokens[i];
  }

  lemma GoodNotLonger(w: Draw, a: Rollout, b: Rollout, prompt: seq<nat>, pidx: int, rollout: nat, start: nat,
                      bftOn: bool, k: Settings)
    requires forall t :: t in k.force ==> t !in k.eos
    requires GoodRollout(w, a, prompt, pidx, rollout, start, bftOn, k)
    requires GoodRollout(w, b, prompt, pidx, rollout, start, bftOn, k) && a.forced == b.forced
    ensures |a.tokens| <= |b.tokens|
  {
    if |b.tokens| < |a.tokens| {
      var n := |b.tokens|;
      GoodAgree(w, a, b, prompt, pidx, rollout, start, bftOn, k, n);
      forall i | |prompt| <= i < n ensures b.tokens[i] !in k.eos {
        assert a.tokens[i] == a.tokens[..n][i] == b.tokens[..n][i] == b.tokens[i];
        assert Drop(a.tokens, |prompt|)[i - |prompt|] == a.tokens[i];
      }
    }
  }

  /** The promises leave one rollout: with EOS-free force ids any two good rollouts are the same. */
  lemma GoodIsUnique(w: Draw, a: Rollout, b: Rollout, prompt: seq<nat>, pidx: int, rollout: nat, start: nat,
                     bftOn: bool, k: Settings)
    requires |prompt| <= start && forall t :: t in k.force ==> t !in k.eos
    requires GoodRollout(w, a, prompt, pidx, rollout, start, bftOn, k)
    requires GoodRollout(w, b, prompt, pidx, rollout, start, bftOn, k)
    ensures a == b
  {
    if a.forced { GoodForcedAlike(w, a, b, prompt, pidx, rollout, start, bftOn, k); }
    if b.forced { GoodForcedAlike(w, b, a, prompt, pidx, rollout, start, bftOn, k); }
    GoodNotLonger(w, a, b, prompt, pidx, rollout, start, bftOn, k);
    GoodNotLonger(w, b, a, prompt, pidx, rollout, start, bftOn, k);
    GoodAgree(w, a, b, prompt, pidx, rollout, start, bftOn, k, |a.tokens|);
    assert a.tokens[..|a.tokens|] == a.tokens && b.tokens[..|b.tokens|] == b.tokens;
  }

  // ---------- phase 1 and what follows it ----------

  lemma Phase1Follows(w: Draw, prompt: seq<nat>, pidx: int, rollout: int, maxNew: nat, stops: set<nat>,
                      gen: seq<nat>, fin: nat, eos: set<nat>)
    requires Generated(w, prompt, Coord(pidx, rollout, 0), maxNew, stops, gen, fin) && stops <= eos
    ensures FollowsStream(w, prompt, gen, pidx, rollout, eos)
    ensures FirstEos(gen, eos).None? ==> |gen| == maxNew
  {
    var c := Coord(pidx, rollout, 0);
    GeneratedCut(w, prompt, c, maxNew, stops, gen, fin, eos);
    var cut, s := CutAtEos(gen, eos), Stream(w, prompt, c, maxNew);
    forall t: nat | t < |cut| ensures FollowsAt(w, prompt, gen, pidx, rollout, t) {
      StreamAt(w, prompt, c, maxNew, t);
      assert gen[..t] == cut[..t] == s[..t];
      assert gen[t] == cut[t] == s[t];
      assert c.(t := c.t + t) == Coord(pidx, rollout, t);
    }
    if fin > 0 && gen[fin - 1] in stops { assert gen[fin - 1] in eos; }
  }

  lemma {:induction false} UnpadAll(row: seq<nat>)
    ensures Unpad(row, Repeat(true, |row|)) == row
  {
    UnpadLeft(0, 0, row);
    assert Repeat(0, 0) + row == row && Repeat(false, 0) + Repeat(true, |row|) == Repeat(true, |row|);
  }

  /** A completion of at most maxNew tokens that followed its stream and stopped only at an EOS or at
      maxNew. */
  ghost predicate Phase1Row(w: Draw, prompt: seq<nat>, gen: seq<nat>, pidx: int, rollout: nat, maxNew: nat,
                            eos: set<nat>) {
    && FollowsStream(w, prompt, gen, pidx, rollout, eos)
    && |gen| <= maxNew && (FirstEos(gen, eos).None? ==> |gen| == maxNew)
  }

  lemma CutRow(w: Draw, prompt: seq<nat>, gen: seq<nat>, pidx: int, rollout: nat, maxNew: nat, eos: set<nat>)
    requires Phase1Row(w, prompt, gen, pidx, rollout, maxNew, eos)
    ensures Phase1Row(w, prompt, CutAtEos(gen, eos), pidx, rollout, maxNew, eos)
  {
    var cut := CutAtEos(gen, eos);
    if FirstEos(gen, eos).Some? { CutAgrees(gen, cut, eos, FirstEos(gen, eos).value); }
    forall t: nat | t < |CutAtEos(cut, eos)| ensures FollowsAt(w, prompt, cut, pidx, rollout, t) {
      assert FollowsAt(w, prompt, gen, pidx, rollout, t);
      assert cut[..t] == gen[..t];
    }
  }

  lemma Phase1Padding(w: Draw, prompt: seq<nat>, gen: seq<nat>, pidx: int, rollout: nat, maxNew: nat, k: Settings,
                      width: nat)
    requires Phase1Row(w, prompt, gen, pidx, rollout, maxNew, k.eos)
    requires |prompt| + |gen| <= width <= |prompt| + maxNew
    ensures AssembleRow(w, prompt, PadRight(prompt + gen, width, k.pad), pidx, rollout, k)
         == AssembleRow(w, prompt, prompt + gen, pidx, rollout, k)
  {
    PaddingHarmless(w, prompt, gen, pidx, rollout, k, width);
  }

  /** A phase-1 row is good after the assembly, padded to its group's length or not. */
  lemma RowIsGood(w: Draw, prompt: seq<nat>, gen: seq<nat>, pidx: int, rollout: nat, maxNew: nat, k: Settings,
                  width: nat, r: Rollout, start: nat)
    requires Phase1Row(w, prompt, gen, pidx, rollout, maxNew, k.eos)
    requires |prompt| + |gen| <= width <= |prompt| + maxNew == start
    requires r == AssembleRow(w, prompt, PadRight(prompt + gen, width, k.pad), pidx, rollout, k)
    ensures GoodRollout(w, r, prompt, pidx, rollout, start, true, k)
  {
    Phase1Padding(w, prompt, gen, pidx, rollout, maxNew, k, width);
    AssembledGood(w, prompt, gen, pidx, rollout, k, r, start);
  }

  /** The token budget of phase 1. */
  function Phase1MaxNewTokens(bftOn: bool, maxNewTokens: nat, thinkingBudget: nat): nat {
    if bftOn then thinkingBudget else maxNewTokens
  }

  /** All rollouts are good, with spans that begin at start. */
  ghost predicate AllGood(w: Draw, out: seq<Rollout>, prompt: seq<nat>, pidx: int, start: nat, bftOn: bool,
                          k: Settings) {
    forall r :: 0 <= r < |out| ==>
      GoodRollout(w, out[r], prompt, pidx, r, start, bftOn, k)
  }

  method FinishForced(w: Draw, prompt: seq<nat>, gens: seq<seq<nat>>, pidx: int, ghost maxNew: nat, ghost start: nat,
                      k: Settings)
    returns (out: Result<seq<Rollout>, string>)
    requires ValidSettings(k) && start == |prompt| + maxNew
    requires forall r :: 0 <= r < |gens| ==> Phase1Row(w, prompt, gens[r], pidx, r, maxNew, k.eos)
    ensures out.Err? <==> gens == []
    ensures out.Ok? ==> |out.value| == |gens| && AllGood(w, out.value, prompt, pidx, start, true, k)
  {
    var seqs := seq(|gens|, r requires 0 <= r < |gens| => prompt + gens[r]);
    ghost var width;
    out, width := RolloutsFromCompletions(w, seqs, prompt, pidx, k);
    forall r | 0 <= r < |gens| && out.Ok? ensures GoodRollout(w, out.value[r], prompt, pidx, r, start, true, k) {
      assert |seqs[r]| <= width;
      RowIsGood(w, prompt, gens[r], pidx, r, maxNew, k, width, out.value[r], start);
    }
  }

  method FinishPlain(w: Draw, prompt: seq<nat>, gens: seq<seq<nat>>, pidx: int, ghost maxNew: nat, ghost start: nat,
                     k: Settings)
    returns (out: seq<Rollout>)
    requires start == |prompt| + maxNew
    requires forall r :: 0 <= r < |gens| ==> Phase1Row(w, prompt, gens[r], pidx, r, maxNew, k.eos)
    ensures |out| == |gens| && AllGood(w, out, prompt, pidx, start, false, k)
  {
    out := [];
    for i := 0 to |gens|
      invariant |out| == i && AllGood(w, out, prompt, pidx, start, false, k)
    {
      var fe := FirstEosIndex(gens[i], k.eos);
      var gen := if fe.Some? then gens[i][..fe.value + 1] else gens[i];
      CutGood(w, prompt, gens[i], pidx, i, start, k);
      out := out + [Rollout(prompt + gen, |prompt|, false, None)];
    }
  }

  /** From phase-1 completions to rollouts, with or without budget forcing. */
  method FinishRollouts(w: Draw, prompt: seq<nat>, gens: seq<seq<nat>>, pidx: int, bftOn: bool, ghost maxNew: nat,
                        ghost start: nat, k: Settings)
    returns (out: Result<seq<Rollout>, string>)
    requires ValidSettings(k) && start == |prompt| + maxNew
    requires forall r :: 0 <= r < |gens| ==> Phase1Row(w, prompt, gens[r], pidx, r, maxNew, k.eos)
    ensures out.Err? <==> bftOn && gens == []
    ensures out.Ok? ==> |out.value| == |gens| && AllGood(w, out.value, prompt, pidx, start, bftOn, k)
  {
    if bftOn {
      out := FinishForced(w, prompt, gens, pidx, maxNew, start, k);
    } else {
      var rollouts := FinishPlain(w, prompt, gens, pidx, maxNew, start, k);
      out := Ok(rollouts);
    }
  }

  /** The HF path: m rows of the prompt on the forced stream, then the assembly. With budget forcing a
      forced span begins exactly at prompt length plus thinking budget; without it no completion is longer
      than maxNewTokens, and one without EOS is exactly as long. */
  method GenerateMRollouts(w: Draw, prompt: seq<nat>, m: nat, pidx: int, bftOn: bool, maxNewTokens: nat,
                           thinkingBudget: nat, k: Settings)
    returns (out: Result<seq<Rollout>, string>, ghost start: nat)
    requires ValidSettings(k)
    ensures start == |prompt| + if bftOn then thinkingBudget else maxNewTokens
    ensures out.Err? <==> bftOn && m == 0
    ensures out.Ok? ==> |out.value| == m && AllGood(w, out.value, prompt, pidx, start, bftOn, k)
    ensures out.Ok? && bftOn ==> forall r :: 0 <= r < m && out.value[r].forced ==>
      out.value[r].forceSpan == Some((|prompt| + thinkingBudget, |prompt| + thinkingBudget + |k.force|))
    ensures out.Ok? && !bftOn ==> forall r :: 0 <= r < m ==>
      && !out.value[r].forced && |out.value[r].tokens| <= |prompt| + maxNewTokens
      && (NoEos(out.value[r].tokens, |prompt|, k.eos) ==> |out.value[r].tokens| == |prompt| + maxNewTokens)
  {
    var maxNew := Phase1MaxNewTokens(bftOn, maxNewTokens, thinkingBudget);
    start := |prompt| + maxNew;
    var gens := Phase1(w, prompt, m, pidx, maxNew, k);
    out := FinishRollouts(w, prompt, gens, pidx, bftOn, maxNew, start, k);
  }

  /** Phase 1: one generate() call for m rows of the prompt. */
  method Phase1(w: Draw, prompt: seq<nat>, m: nat, pidx: int, maxNew: nat, k: Settings) returns (gens: seq<seq<nat>>)
    requires ValidSettings(k)
    ensures |gens| == m && forall r :: 0 <= r < m ==> Phase1Row(w, prompt, gens[r], pidx, r, maxNew, k.eos)
  {
    var p := Processor(Repeat(pidx, m), seq(m, r requires 0 <= r < m => r), Repeat(0, m), |prompt|);
    var steps;
    ghost var fins;
    gens, steps, fins := Generate(w, Repeat(prompt, m), Repeat(Repeat(true, |prompt|), m), p, maxNew, k.stops, k.pad);
    UnpadAll(prompt);
    forall r | 0 <= r < m ensures Phase1Row(w, prompt, gens[r], pidx, r, maxNew, k.eos) {
      assert CoordAt(p, r, |prompt|) == Coord(pidx, r, 0);
      Phase1Follows(w, prompt, pidx, r, maxNew, k.stops, gens[r], fins[r], k.eos);
    }
  }

  /** The vLLM path: a backend's completions, cut at their first EOS, then the same. */
  method FinishBackend(w: Draw, prompt: seq<nat>, completions: seq<seq<nat>>, pidx: int, bftOn: bool, ghost maxNew: nat,
                       ghost start: nat, k: Settings)
    returns (out: Result<seq<Rollout>, string>)
    requires ValidSettings(k) && start == |prompt| + maxNew
    requires forall r :: 0 <= r < |completions| ==> Phase1Row(w, prompt, completions[r], pidx, r, maxNew, k.eos)
    ensures out.Err? <==> bftOn && completions == []
    ensures out.Ok? ==> |out.value| == |completions| && AllGood(w, out.value, prompt, pidx, start, bftOn, k)
  {
    var gens := CutAnswers(completions, k.eos);
    forall r | 0 <= r < |gens| ensures Phase1Row(w, prompt, gens[r], pidx, r, maxNew, k.eos) {
      CutRow(w, prompt, completions[r], pidx, r, maxNew, k.eos);
    }
    out := FinishRollouts(w, prompt, gens, pidx, bftOn, maxNew, start, k);
  }

  /** Each completion of each group extends its own prompt and followed its own stream. */
  ghost predicate GroupsFollow(w: Draw, groups: seq<Group>, eos: set<nat>) {
    forall g, r :: 0 <= g < |groups| && 0 <= r < |groups[g].completions| ==> RowFollows(w, groups[g], r, eos)
  }

  ghost predicate RowFollows(w: Draw, g: Group, r: nat, eos: set<nat>)
    requires r < |g.completions|
  {
    g.prompt <= g.completions[r] && FollowsStream(w, g.prompt, g.completions[r][|g.prompt|..], g.pidx, r, eos)
  }

  /** Phase 2 for many prompts at once: every rollout of every group is good for its own prompt, its own
      index within the group and its own stream. */
  method FinishGroups(w: Draw, groups: seq<Group>, k: Settings) returns (out: Result<seq<seq<Rollout>>, string>)
    requires ValidSettings(k) && GroupsFollow(w, groups, k.eos)
    ensures out.Err? <==> groups == []
    ensures out.Ok? ==> |out.value| == |groups|
    ensures out.Ok? ==> forall g :: 0 <= g < |groups| ==> |out.value[g]| == |groups[g].completions|
    ensures out.Ok? ==> forall g, r :: 0 <= g < |groups| && 0 <= r < |groups[g].completions| ==>
      GoodRollout(w, out.value[g][r], groups[g].prompt, groups[g].pidx, r, |groups[g].completions[r]|, true, k)
  {
    out := RolloutsFromCompletionsMulti(w, groups, k);
    forall g, r | out.Ok? && 0 <= g < |groups| && 0 <= r < |groups[g].completions|
      ensures GoodRollout(w, out.value[g][r], groups[g].prompt, groups[g].pidx, r, |groups[g].completions[r]|, true, k)
    {
      GroupRowGood(w, groups, g, r, k);
    }
  }

  lemma GroupRowGood(w: Draw, groups: seq<Group>, g: nat, r: nat, k: Settings)
    requires g < |groups| && r < |groups[g].completions| && RowFollows(w, groups[g], r, k.eos)
    ensures GoodRollout(w, RowOf(w, groups, g, r, k), groups[g].prompt, groups[g].pidx, r, |groups[g].completions[r]|,
                        true, k)
  {
    var grp := groups[g];
    var gen := grp.completions[r][|grp.prompt|..];
    assert grp.completions[r] == grp.prompt + gen;
    AssembledGood(w, grp.prompt, gen, grp.pidx, r, k, RowOf(w, groups, g, r, k), |grp.completions[r]|);
  }
}
