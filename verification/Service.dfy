/** The validator: windows run one after the other over a shared cooldown map and score table, and a
    restart that rebuilds both from the archived windows.
 */
module Service {
  import opened Reals
  import opened Cooldown
  import opened BatchSelection
  import opened Batcher
  import Sorting
  import S = Scores

  /** One archived window. */
  datatype Sealed = Sealed(window: int, batch: seq<Submission>)

  function Hotkeys(batch: seq<Submission>): (r: seq<string>)
    ensures |r| == |batch|
  {
    seq(|batch|, i requires 0 <= i < |batch| => batch[i].hotkey)
  }

  /** What the cooldown rebuild reads of the archives. */
  function PromptView(history: seq<Sealed>): (r: seq<Archive>)
    ensures |r| == |history|
  {
    seq(|history|, i requires 0 <= i < |history| => Archive(history[i].window, PromptList(history[i].batch)))
  }

  /** What the score replay reads of the archives. */
  function HotkeyView(history: seq<Sealed>): (r: seq<S.Record>)
    ensures |r| == |history|
  {
    seq(|history|, i requires 0 <= i < |history| => S.Record(history[i].window, Hotkeys(history[i].batch)))
  }

  function RecordWindow(): S.Record -> int { (r: S.Record) => r.window }

  /** Windows in strictly increasing order, with full or partial batches. */
  ghost predicate OrderedHistory(history: seq<Sealed>, slots: nat) {
    && (forall i, j :: 0 <= i < j < |history| ==> history[i].window < history[j].window)
    && (forall i :: 0 <= i < |history| ==> 0 <= history[i].window && |history[i].batch| <= slots)
  }

  /** And none of them after last. */
  ghost predicate ValidHistory(history: seq<Sealed>, last: int, slots: nat) {
    OrderedHistory(history, slots) && forall i :: 0 <= i < |history| ==> history[i].window <= last
  }

  /** The scores are those of the archives from start on; the cooldown map knows the archives above
      limit, which is far enough back for every window after last. */
  ghost predicate Agrees(k: S.Ema, history: seq<Sealed>, last: int, start: nat, limit: int, horizon: nat,
                         cooldown: map<int, int>, scores: S.Scores)
  {
    && S.ValidEma(k) && ValidHistory(history, last, k.slots)
    && start <= |history| && scores == S.Fold(k, map[], HotkeyView(history)[start..])
    && (limit < 0 || limit <= last + 1 - horizon) && limit <= last
    && IsRebuilt(PromptView(history), limit, cooldown)
    && Spaced(horizon, PromptView(history))
  }

  lemma HistoryBatched(history: seq<Sealed>, last: int, slots: nat)
    requires ValidHistory(history, last, slots)
    ensures forall p, w :: BatchedAt(PromptView(history), p, w) ==> 0 <= w <= last
  {
  }

  /** Sealing the next window keeps everything. */
  lemma SealAgrees(k: S.Ema, history: seq<Sealed>, last: int, start: nat, limit: int, horizon: nat,
                   cooldown: map<int, int>, scores: S.Scores, batch: seq<Submission>)
    requires Agrees(k, history, last, start, limit, horizon, cooldown, scores)
    requires last >= 0 && |batch| <= k.slots
    requires forall i :: 0 <= i < |batch| ==> !Blocked(View(horizon, cooldown, last + 1), batch[i].promptIdx)
    ensures Agrees(k, history + [Sealed(last + 1, batch)], last + 1, start, limit, horizon,
                   Record(cooldown, PromptList(batch), last + 1), S.Step(k, scores, Hotkeys(batch)))
  {
    var sealed := Sealed(last + 1, batch);
    var a := Archive(last + 1, PromptList(batch));
    assert PromptView(history + [sealed]) == PromptView(history) + [a];
    HistoryBatched(history, last, k.slots);
    RecordKeeps(PromptView(history), limit, cooldown, a);
    SpacingKept(horizon, PromptView(history), limit, cooldown, a);
    SealScores(k, history, start, scores, sealed);
  }

  lemma SealScores(k: S.Ema, history: seq<Sealed>, start: nat, scores: S.Scores, sealed: Sealed)
    requires start <= |history| && scores == S.Fold(k, map[], HotkeyView(history)[start..])
    ensures S.Step(k, scores, Hotkeys(sealed.batch)) == S.Fold(k, map[], HotkeyView(history + [sealed])[start..])
  {
    var r := S.Record(sealed.window, Hotkeys(sealed.batch));
    assert HotkeyView(history + [sealed])[start..] == HotkeyView(history)[start..] + [r];
    S.FoldConcat(k, map[], HotkeyView(history)[start..], [r]);
  }

  /** Whatever the run, the scores are conserved. */
  lemma AgreesConserved(k: S.Ema, history: seq<Sealed>, last: int, start: nat, scores: S.Scores)
    requires S.ValidEma(k) && ValidHistory(history, last, k.slots)
    requires start <= |history| && scores == S.Fold(k, map[], HotkeyView(history)[start..])
    ensures S.NonNegativeScores(scores) && S.Total(scores) <= 1.0
  {
    S.Conservation(k, map[], HotkeyView(history)[start..]);
  }

  // ---------- restart ----------

  /** The cooldown map rebuilt from the download agrees with the whole history. */
  lemma RebuiltAgrees(history: seq<Sealed>, last: int, slots: nat, horizon: nat, cooldown: map<int, int>)
    requires ValidHistory(history, last, slots)
    requires IsRebuilt(ListRecent(PromptView(history), WindowOf(), last + 1, horizon), last - horizon, cooldown)
    ensures IsRebuilt(PromptView(history), last - horizon, cooldown)
  {
    var recent := ListRecent(PromptView(history), WindowOf(), last + 1, horizon);
    HistoryBatched(history, last, slots);
    ListRecentCovers(PromptView(history), recent, last, horizon);
    RebuiltFromRecent(PromptView(history), recent, last - horizon, cooldown);
  }

  /** The scores replayed from the download are those of a suffix of the history: the windows less
      than rolling before the next one. */
  lemma ReplayedAgrees(k: S.Ema, history: seq<Sealed>, last: int, rolling: nat) returns (start: nat)
    requires ValidHistory(history, last, k.slots)
    ensures start <= |history|
    ensures S.Replay(k, ListRecent(HotkeyView(history), RecordWindow(), last + 1, rolling)) ==
      S.Fold(k, map[], HotkeyView(history)[start..])
    ensures forall i :: 0 <= i < |history| ==> (i >= start <==> rolling > 0 && history[i].window >= last + 1 - rolling)
  {
    var records := HotkeyView(history);
    start := ListRecentIsSuffix(records, RecordWindow(), last + 1, rolling);
    S.ReplayEqualsOnline(k, records[start..], ListRecent(records, RecordWindow(), last + 1, rolling));
    forall i | 0 <= i < |history| ensures i >= start <==> rolling > 0 && history[i].window >= last + 1 - rolling {
      assert records[i].window == history[i].window;
    }
  }

  /** max(windows), or 0 without archives. */
  method LargestWindow(archived: seq<Sealed>) returns (n: int)
    ensures archived == [] ==> n == 0
    ensures forall i :: 0 <= i < |archived| ==> archived[i].window <= n
    ensures archived != [] ==> exists i :: 0 <= i < |archived| && archived[i].window == n
  {
    if archived == [] { return 0; }
    n := archived[0].window;
    for i := 1 to |archived|
      invariant forall j :: 0 <= j < i ==> archived[j].window <= n
      invariant exists j :: 0 <= j < i && archived[j].window == n
    {
      if archived[i].window > n { n := archived[i].window; }
    }
  }

  // ---------- the service ----------

  class ValidationService {
    const k: S.Ema
    const cooldown: CooldownMap
    var windowN: nat
    var scores: S.Scores
    /** Everything archived so far, and how far back this process looked when it started. */
    ghost var history: seq<Sealed>
    ghost var start: nat
    ghost var limit: int

    ghost predicate Valid()
      reads this, cooldown
    {
      Agrees(k, history, windowN, start, limit, cooldown.horizon, cooldown.last, scores)
    }

    /** Startup: the window counter, the scores and the cooldown map all come from the archives, read
        in window order. */
    constructor Recover(ema: S.Ema, horizon: nat, rolling: nat, archived: seq<Sealed>)
      requires S.ValidEma(ema) && OrderedHistory(archived, ema.slots)
      requires Spaced(horizon, PromptView(archived))
      ensures Valid() && fresh(cooldown) && k == ema && cooldown.horizon == horizon
      ensures history == archived && windowN == if archived == [] then 0 else archived[|archived| - 1].window
      ensures forall i :: 0 <= i < |archived| ==> archived[i].window <= windowN
      ensures forall i :: 0 <= i < |archived| ==>
        (i >= start <==> rolling > 0 && archived[i].window >= windowN + 1 - rolling)
    {
      k := ema;
      var last := LargestWindow(archived);
      var map_ := new CooldownMap(horizon);
      map_.RebuildFromHistory(ListRecent(PromptView(archived), WindowOf(), last + 1, horizon), last);
      var replayed := S.ReplayEma(ema, ListRecent(HotkeyView(archived), RecordWindow(), last + 1, rolling));
      RebuiltAgrees(archived, last, ema.slots, horizon, map_.last);
      ghost var from := ReplayedAgrees(ema, archived, last, rolling);
      cooldown, scores, windowN := map_, replayed, last;
      history, start, limit := archived, from, last - horizon;
    }

    /** Opens the next window, takes its submissions in order of arrival, seals it, credits the miners
        and decides whether to train. */
    method RunWindow(arrivals: seq<Arrival>, envSize: nat, checkpointHash: string, digest: Digest)
      returns (batch: seq<Submission>, trained: bool)
      requires Valid()
      modifies this, cooldown
      ensures Valid() && windowN == old(windowN) + 1 && start == old(start)
      ensures history == old(history) + [Sealed(windowN, batch)]
      ensures batch == Select(Admitted(old(NextView()), envSize, checkpointHash, arrivals), k.slots, old(NextView()),
                              digest)
      ensures FirstServed(old(NextView()), envSize, checkpointHash, arrivals, batch)
      ensures |batch| == AtMost(k.slots, |PassingPrompts(old(NextView()), envSize, checkpointHash, arrivals)|)
      ensures trained <==> |PassingPrompts(old(NextView()), envSize, checkpointHash, arrivals)| >= k.slots
    {
      windowN := windowN + 1;
      var batcher := TakeSubmissions(arrivals, envSize, checkpointHash);
      ghost var v := batcher.CurrentView();
      WindowBatch(v, envSize, checkpointHash, arrivals, k.slots, digest);
      batch := batcher.SealBatch(digest);
      trained := |batch| >= k.slots;
      SealAgrees(k, history, windowN - 1, start, limit, cooldown.horizon, v.last, scores, batch);
      scores := S.UpdateScores(k, scores, Hotkeys(batch));
      history := history + [Sealed(windowN, batch)];
    }

    function NextView(): View
      reads this, cooldown
    {
      View(cooldown.horizon, cooldown.last, windowN + 1)
    }

    method TakeSubmissions(arrivals: seq<Arrival>, envSize: nat, checkpointHash: string)
      returns (batcher: GrpoWindowBatcher)
      requires k.slots > 0
      ensures fresh(batcher) && batcher.Valid() && !batcher.sealed
      ensures batcher.cooldown == cooldown && batcher.window == windowN && batcher.slots == k.slots
      ensures batcher.valid == Admitted(batcher.CurrentView(), envSize, checkpointHash, arrivals)
      ensures batcher.calls == |arrivals|
    {
      batcher := new GrpoWindowBatcher(windowN, envSize, k.slots, checkpointHash, cooldown);
      for i := 0 to |arrivals|
        invariant fresh(batcher) && batcher.Valid() && !batcher.sealed && batcher.calls == i
        invariant batcher.valid == Admitted(batcher.CurrentView(), envSize, checkpointHash, arrivals[..i])
      {
        assert arrivals[..i + 1][..i] == arrivals[..i];
        var outcome := batcher.Accept(arrivals[i].request, arrivals[i].at);
      }
      assert arrivals[..|arrivals|] == arrivals;
    }
  }

  // ---------- two validators over the same archives ----------

  /** However far back each of them looked when it started, two validators over the same archives see
      the same prompts in cooldown in every later window, */
  lemma SameCooldown(a: ValidationService, b: ValidationService, prompt: int, window: int)
    requires a.Valid() && b.Valid() && a.history == b.history && a.cooldown.horizon == b.cooldown.horizon
    requires window > a.windowN && window > b.windowN
    ensures a.cooldown.IsInCooldown(prompt, window) == b.cooldown.IsInCooldown(prompt, window)
  {
    BlockedMeaning(PromptView(a.history), a.limit, a.cooldown.last, a.cooldown.horizon, prompt, window);
    BlockedMeaning(PromptView(b.history), b.limit, b.cooldown.last, b.cooldown.horizon, prompt, window);
  }

  /** A map that looks far enough back answers what cooldown means: the prompt was batched less than
      the horizon ago. */
  lemma BlockedMeaning(history: seq<Archive>, limit: int, last: map<int, int>, horizon: nat, prompt: int, window: int)
    requires IsRebuilt(history, limit, last) && (limit < 0 || limit <= window - horizon)
    requires forall p, w :: BatchedAt(history, p, w) ==> 0 <= w < window
    ensures InCooldown(horizon, last, prompt, window)
       <==> exists w :: BatchedAt(history, prompt, w) && window - w < horizon
  {
    if w :| BatchedAt(history, prompt, w) && window - w < horizon {
      assert w > limit;
      assert IsLatest(history, limit, prompt, last[prompt]);
    }
    if prompt in last { assert IsLatest(history, limit, prompt, last[prompt]); }
  }

  lemma {:induction false} GreedyCongruence(ordered: seq<Submission>, n: int, seen: set<int>, v: View, w: View)
    requires forall p :: Blocked(v, p) == Blocked(w, p)
    ensures Greedy(ordered, n, seen, v) == Greedy(ordered, n, seen, w)
  {
    if n > 0 && ordered != [] {
      GreedyCongruence(ordered[1..], n, seen, v, w);
      GreedyCongruence(ordered[1..], n - 1, seen + {ordered[0].promptIdx}, v, w);
    }
  }

  lemma {:induction false} AdmittedCongruence(arrivals: seq<Arrival>, envSize: nat, hash: string, v: View, w: View)
    requires v.window == w.window && forall p :: Blocked(v, p) == Blocked(w, p)
    ensures Admitted(v, envSize, hash, arrivals) == Admitted(w, envSize, hash, arrivals)
  {
    if arrivals != [] { AdmittedCongruence(arrivals[..|arrivals| - 1], envSize, hash, v, w); }
  }

  /** so given the same submissions they seal the same batch, */
  lemma SameBatch(a: ValidationService, b: ValidationService, arrivals: seq<Arrival>, envSize: nat, hash: string,
                  digest: Digest)
    requires a.Valid() && b.Valid() && a.history == b.history && a.cooldown.horizon == b.cooldown.horizon
    requires a.windowN == b.windowN && a.k == b.k
    ensures Select(Admitted(a.NextView(), envSize, hash, arrivals), a.k.slots, a.NextView(), digest)
         == Select(Admitted(b.NextView(), envSize, hash, arrivals), b.k.slots, b.NextView(), digest)
  {
    forall p ensures Blocked(a.NextView(), p) == Blocked(b.NextView(), p) { SameCooldown(a, b, p, a.windowN + 1); }
    AdmittedCongruence(arrivals, envSize, hash, a.NextView(), b.NextView());
    GreedyCongruence(Sorting.Sort(Admitted(a.NextView(), envSize, hash, arrivals), ByKey(digest)), a.k.slots, {},
                     a.NextView(), b.NextView());
  }

  lemma SuffixClose(k: S.Ema, view: seq<S.Record>, i: nat, j: nat, more: S.Scores, fewer: S.Scores, hk: string)
    requires S.ValidEma(k) && S.Filled(k, view) && i <= j <= |view|
    requires more == S.Fold(k, map[], view[i..]) && fewer == S.Fold(k, map[], view[j..])
    ensures S.ScoreOf(fewer, hk) <= S.ScoreOf(more, hk)
    ensures S.ScoreOf(more, hk) <= S.ScoreOf(fewer, hk) + Power(1.0 - k.alpha, |view| - j) + S.PruneCost(k)
  {
    var records, n := view[i..], |view| - j;
    assert |records| - n == j - i;
    assert records[|records| - n..] == view[j..];
    S.RecentReplayIsClose(k, records, n, hk);
  }

  /** and their scores differ by at most (1 - alpha)^n + prune / alpha, where n windows were replayed
      or lived through by the one that started later. */
  lemma CloseScores(a: ValidationService, b: ValidationService, hk: string)
    requires a.Valid() && b.Valid() && a.history == b.history && a.k == b.k && a.start <= b.start
    ensures S.ScoreOf(b.scores, hk) <= S.ScoreOf(a.scores, hk)
    ensures S.ScoreOf(a.scores, hk) <=
      S.ScoreOf(b.scores, hk) + Power(1.0 - a.k.alpha, |a.history| - b.start) + S.PruneCost(a.k)
  {
    var view := HotkeyView(a.history);
    SuffixClose(a.k, view, a.start, b.start, a.scores, b.scores, hk);
  }

  /** After every window the weights sent to the chain add up to 1, before unregistered miners are
      left out. */
  method Submit(service: ValidationService, uids: map<string, int>)
    returns (entries: seq<(int, real)>, burn: real, ghost miners: seq<string>)
    requires service.Valid()
    ensures burn >= 0.0 && S.Total(service.scores) + burn == 1.0
    ensures S.Lists(miners, S.Registered(service.scores, uids))
    ensures entries == S.EntriesFor(service.scores, uids, miners) + if burn > 0.0 then [(S.UID_BURN, burn)] else []
  {
    AgreesConserved(service.k, service.history, service.windowN, service.start, service.scores);
    entries, burn, miners := S.SubmitWeights(service.scores, uids);
  }
}
