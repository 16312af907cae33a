/** What every interleaving of the fire loop keeps: one fire at a time, no entry lost or doubled, and the
    per-window budget, as long as windows do not roll back further than the counters are kept.
 */
module FireRuns {
  import opened Wrappers
  import opened Sorting
  import opened FireLoop

  /** A machine with what an observer has seen: the highest window ticked, the entries drained for each
      window, the entries that came in and those that are gone for good. */
  datatype Run = Run(m: Machine, highest: Option<int>, drained: map<int, nat>, entered: multiset<Entry>,
                     gone: multiset<Entry>)

  function Higher(h: Option<int>, w: int): Option<int> {
    if h.Some? && h.value >= w then h else Some(w)
  }

  function SeeDrain(s: Run, window: int, n: nat, unfit: seq<Entry>): Run {
    s.(drained := Raised(s.drained, window, n), gone := s.gone + multiset(unfit))
  }

  function SeeGone(s: Run, lost: seq<Entry>): Run {
    s.(gone := s.gone + multiset(lost))
  }

  function Observe(s: Run, e: Event): Run
    requires Possible(s.m, e)
  {
    match e
    case Append(entry) => s.(entered := s.entered + multiset{entry})
    case Flush => s.(gone := s.gone + multiset(s.m.pool))
    case Tick(scope, _, _) => s.(highest := Higher(s.highest, scope.window))
    case Drain(i) =>
      var f := s.m.inflight[i];
      SeeDrain(s, f.scope.window, |Fired(f.scope, f.budget, s.m.pool)|, Unfit(f.scope, s.m.pool))
    case Respond(i, outcomes) => SeeGone(s, Answered(s.m.inflight[i].fired, outcomes, false))
    case _ => s
  }

  function Happen(cap: nat, s: Run, e: Event): Run {
    if Possible(s.m, e) then Observe(s, e).(m := Step(cap, s.m, e)) else s
  }

  function Start(reloaded: seq<Entry>): Run {
    Run(Machine(reloaded, map[], []), None, map[], multiset(reloaded), multiset{})
  }

  function Reach(cap: nat, s: Run, events: seq<Event>): Run
    decreases |events|
  {
    if events == [] then s else Reach(cap, Happen(cap, s, events[0]), events[1..])
  }

  // ---------- one fire, nothing lost ----------

  function Held(f: Fire): seq<Entry> {
    match f
    case Posted(fired) => fired
    case PuttingBack(requeue) => requeue
    case _ => []
  }

  function Flying(inflight: seq<Fire>): seq<Entry> {
    if inflight == [] then [] else Held(inflight[0])
  }

  /** Every entry that came in is in the pool, in flight or gone, as often as it came in. */
  ghost predicate Whole(s: Run) {
    && |s.m.inflight| <= 1
    && s.entered == multiset(s.m.pool) + multiset(Flying(s.m.inflight)) + s.gone
  }

  lemma DrainParts(cap: nat, s: Run, f: Fire)
    requires s.m.inflight == [f] && f.Scheduled?
    ensures var fire := Fired(f.scope, f.budget, s.m.pool);
      Happen(cap, s, Drain(0))
      == SeeDrain(s, f.scope.window, |fire|, Unfit(f.scope, s.m.pool)).(
           m := AfterDrain(s.m, 0, f.scope.window, fire, KeptBack(f.scope, f.budget, s.m.pool)))
  {
  }

  lemma Regroup(pool: multiset<Entry>, fire: multiset<Entry>, kept: multiset<Entry>, unfit: multiset<Entry>,
                gone: multiset<Entry>)
    requires pool == fire + kept + unfit
    ensures pool + multiset{} + gone == kept + fire + (gone + unfit)
  {
  }

  lemma SplitWhole(s: Run, f: Fire, fire: seq<Entry>, kept: seq<Entry>, unfit: seq<Entry>)
    requires Whole(s) && s.m.inflight == [f] && f.Scheduled?
    requires multiset(s.m.pool) == multiset(fire) + multiset(kept) + multiset(unfit)
    ensures Whole(SeeDrain(s, f.scope.window, |fire|, unfit).(m := AfterDrain(s.m, 0, f.scope.window, fire, kept)))
  {
    Regroup(multiset(s.m.pool), multiset(fire), multiset(kept), multiset(unfit), s.gone);
    assert Flying(s.m.inflight) == [];
    var m' := AfterDrain(s.m, 0, f.scope.window, fire, kept);
    assert Flying(m'.inflight) == fire;
  }

  lemma DrainWhole(cap: nat, s: Run, f: Fire)
    requires Whole(s) && s.m.inflight == [f] && f.Scheduled?
    ensures Whole(Happen(cap, s, Drain(0)))
  {
    DrainParts(cap, s, f);
    DrainSplits(f.scope, f.budget, s.m.pool);
    SplitWhole(s, f, Fired(f.scope, f.budget, s.m.pool), KeptBack(f.scope, f.budget, s.m.pool),
               Unfit(f.scope, s.m.pool));
  }

  lemma RespondStep(cap: nat, m: Machine, fired: seq<Entry>, outcomes: seq<Outcome>)
    requires m.inflight == [Posted(fired)] && |fired| == |outcomes|
    ensures Step(cap, m, Respond(0, outcomes)) == AfterAnswer(m, 0, Answered(fired, outcomes, true))
  {
    assert m.inflight[0].fired == fired;
  }

  lemma RespondSeen(s: Run, fired: seq<Entry>, outcomes: seq<Outcome>)
    requires s.m.inflight == [Posted(fired)] && |fired| == |outcomes|
    ensures Observe(s, Respond(0, outcomes)) == SeeGone(s, Answered(fired, outcomes, false))
  {
    assert s.m.inflight[0].fired == fired;
  }

  lemma AnswerParts(cap: nat, s: Run, fired: seq<Entry>, outcomes: seq<Outcome>, kept: seq<Entry>, lost: seq<Entry>)
    requires s.m.inflight == [Posted(fired)] && |fired| == |outcomes|
    requires kept == Answered(fired, outcomes, true) && lost == Answered(fired, outcomes, false)
    ensures Happen(cap, s, Respond(0, outcomes)) == SeeGone(s, lost).(m := AfterAnswer(s.m, 0, kept))
  {
    RespondStep(cap, s.m, fired, outcomes);
    RespondSeen(s, fired, outcomes);
  }

  lemma ReleaseWhole(s: Run, fired: seq<Entry>, kept: seq<Entry>, lost: seq<Entry>)
    requires Whole(s) && s.m.inflight == [Posted(fired)] && multiset(fired) == multiset(kept) + multiset(lost)
    ensures Whole(SeeGone(s, lost).(m := AfterAnswer(s.m, 0, kept)))
  {
    MoveGone(multiset(s.m.pool), multiset(fired), multiset(kept), multiset(lost), s.gone);
    assert Flying(s.m.inflight) == fired && Flying(AfterAnswer(s.m, 0, kept).inflight) == kept;
  }

  lemma AnswerWhole(cap: nat, s: Run, fired: seq<Entry>, outcomes: seq<Outcome>)
    requires Whole(s) && s.m.inflight == [Posted(fired)] && |fired| == |outcomes|
    ensures Whole(Happen(cap, s, Respond(0, outcomes)))
  {
    var kept, lost := Answered(fired, outcomes, true), Answered(fired, outcomes, false);
    AnswerParts(cap, s, fired, outcomes, kept, lost);
    AnsweredPartition(fired, outcomes);
    ReleaseWhole(s, fired, kept, lost);
  }

  lemma MoveGone(pool: multiset<Entry>, fired: multiset<Entry>, kept: multiset<Entry>, lost: multiset<Entry>,
                 gone: multiset<Entry>)
    requires fired == kept + lost
    ensures pool + fired + gone == pool + kept + (gone + lost)
  {
  }

  lemma PutBackWhole(cap: nat, s: Run, requeue: seq<Entry>)
    requires Whole(s) && s.m.inflight == [PuttingBack(requeue)]
    ensures Whole(Happen(cap, s, PutBack(0)))
  {
    var m' := s.m.(pool := s.m.pool + requeue, inflight := s.m.inflight[0 := Finished]);
    assert Happen(cap, s, PutBack(0)) == s.(m := m');
    assert Flying(m'.inflight) == [];
    assert multiset(m'.pool) == multiset(s.m.pool) + multiset(requeue);
  }

  lemma ReapWhole(cap: nat, s: Run)
    requires Whole(s) && s.m.inflight == [Finished]
    ensures Whole(Happen(cap, s, Reap(0)))
  {
    assert Happen(cap, s, Reap(0)).m.inflight == [];
  }

  lemma PoolWhole(cap: nat, s: Run, e: Event)
    requires Whole(s) && (e.Append? || e.Flush? || e.Tick?)
    ensures Whole(Happen(cap, s, e))
  {
    match e {
      case Append(entry) => assert multiset(s.m.pool + [entry]) == multiset(s.m.pool) + multiset{entry};
      case Flush =>
      case Tick(_, _, _) => assert Flying(Happen(cap, s, e).m.inflight) == Flying(s.m.inflight);
    }
  }

  /** A step of the one fire there is. */
  lemma FireWhole(cap: nat, s: Run, e: Event, f: Fire)
    requires Whole(s) && Possible(s.m, e) && !(e.Append? || e.Flush? || e.Tick?) && s.m.inflight == [f]
    ensures Whole(Happen(cap, s, e))
  {
    assert e.i == 0;
    match f {
      case Scheduled(_, _) => DrainWhole(cap, s, f);
      case Posted(fired) => AnswerWhole(cap, s, fired, e.outcomes);
      case PuttingBack(requeue) => PutBackWhole(cap, s, requeue);
      case Finished => ReapWhole(cap, s);
    }
  }

  lemma HappenWhole(cap: nat, s: Run, e: Event)
    requires Whole(s)
    ensures Whole(Happen(cap, s, e))
  {
    if e.Append? || e.Flush? || e.Tick? {
      PoolWhole(cap, s, e);
    } else if Possible(s.m, e) {
      assert s.m.inflight == [s.m.inflight[0]];
      FireWhole(cap, s, e, s.m.inflight[0]);
    }
  }

  lemma {:induction false} ReachWhole(cap: nat, s: Run, events: seq<Event>)
    requires Whole(s)
    ensures Whole(Reach(cap, s, events))
    decreases |events|
  {
    if events != [] {
      HappenWhole(cap, s, events[0]);
      ReachWhole(cap, Happen(cap, s, events[0]), events[1..]);
    }
  }

  /** In every interleaving at most one fire is alive, and no entry is lost, doubled or both put back
      and dropped. */
  lemma EveryRunIsWhole(cap: nat, reloaded: seq<Entry>, events: seq<Event>)
    ensures Whole(Reach(cap, Start(reloaded), events))
  {
    ReachWhole(cap, Start(reloaded), events);
  }

  // ---------- the budget ----------

  /** No tick is more than d windows below the highest so far. */
  predicate RollsBackAtMost(d: nat, highest: Option<int>, events: seq<Event>)
    decreases |events|
  {
    events == [] ||
    match events[0]
    case Tick(scope, _, _) =>
      && (highest.Some? ==> scope.window >= highest.value - d)
      && RollsBackAtMost(d, Higher(highest, scope.window), events[1..])
    case _ => RollsBackAtMost(d, highest, events[1..])
  }

  function Pending(inflight: seq<Fire>, w: int): nat {
    if inflight != [] && inflight[0].Scheduled? && inflight[0].scope.window == w then inflight[0].budget else 0
  }

  /** What is drained and what is promised fits the budget of every window; the counters of the windows
      still kept are right. */
  ghost predicate WithinBudget(cap: nat, s: Run) {
    && |s.m.inflight| <= 1
    && (forall w :: CountOf(s.drained, w) + Pending(s.m.inflight, w) <= cap)
    && (forall w :: (s.highest.Some? ==> w >= s.highest.value - WINDOWS_KEPT) ==>
          CountOf(s.m.submitted, w) == CountOf(s.drained, w))
  }

  lemma TickWithinBudget(cap: nat, s: Run, e: Event)
    requires WithinBudget(cap, s) && e.Tick? && (s.highest.Some? ==> e.scope.window >= s.highest.value - WINDOWS_KEPT)
    ensures WithinBudget(cap, Happen(cap, s, e))
  {
    var w0 := e.scope.window;
    assert CountOf(s.m.submitted, w0) == CountOf(s.drained, w0);
    var s' := Happen(cap, s, e);
    forall w ensures CountOf(s'.drained, w) + Pending(s'.m.inflight, w) <= cap {
      assert CountOf(s.drained, w) + Pending(s.m.inflight, w) <= cap;
    }
  }

  lemma DrainWithinBudget(cap: nat, s: Run, f: Fire)
    requires WithinBudget(cap, s) && s.m.inflight == [f] && f.Scheduled?
    ensures WithinBudget(cap, Happen(cap, s, Drain(0)))
  {
    DrainParts(cap, s, f);
    DrainSplits(f.scope, f.budget, s.m.pool);
    RaisedWithin(cap, s, f, Happen(cap, s, Drain(0)), |Fired(f.scope, f.budget, s.m.pool)|);
  }

  lemma RaisedWithin(cap: nat, s: Run, f: Fire, s': Run, n: nat)
    requires WithinBudget(cap, s) && s.m.inflight == [f] && f.Scheduled? && n <= f.budget
    requires s'.drained == Raised(s.drained, f.scope.window, n) && s'.highest == s.highest
    requires s'.m.submitted == if n == 0 then s.m.submitted else Raised(s.m.submitted, f.scope.window, n)
    requires |s'.m.inflight| == 1 && !s'.m.inflight[0].Scheduled?
    ensures WithinBudget(cap, s')
  {
    forall counts, w
      ensures CountOf(Raised(counts, f.scope.window, n), w) == CountOf(counts, w) + if w == f.scope.window then n else 0
    {
    }
    forall w ensures CountOf(s'.drained, w) + Pending(s'.m.inflight, w) <= cap {
      assert CountOf(s.drained, w) + Pending(s.m.inflight, w) <= cap;
    }
  }

  /** An event that schedules and drains nothing. */
  lemma OtherChanges(cap: nat, s: Run, e: Event)
    requires !e.Tick? && !e.Drain? && Possible(s.m, e) && |s.m.inflight| <= 1
    ensures var s' := Happen(cap, s, e);
      && s'.drained == s.drained && s'.m.submitted == s.m.submitted && s'.highest == s.highest
      && (s'.m.inflight == s.m.inflight || s'.m.inflight == []
          || (|s'.m.inflight| == 1 && !s'.m.inflight[0].Scheduled?))
  {
  }

  lemma OtherWithinBudget(cap: nat, s: Run, e: Event)
    requires WithinBudget(cap, s) && !e.Tick? && !e.Drain? && Possible(s.m, e)
    ensures WithinBudget(cap, Happen(cap, s, e))
  {
    var s' := Happen(cap, s, e);
    OtherChanges(cap, s, e);
    SmallerWithin(cap, s, s');
  }

  lemma SmallerWithin(cap: nat, s: Run, s': Run)
    requires WithinBudget(cap, s)
    requires s'.drained == s.drained && s'.m.submitted == s.m.submitted && s'.highest == s.highest
    requires s'.m.inflight == s.m.inflight || s'.m.inflight == []
          || (|s'.m.inflight| == 1 && !s'.m.inflight[0].Scheduled?)
    ensures WithinBudget(cap, s')
  {
    forall w ensures CountOf(s'.drained, w) + Pending(s'.m.inflight, w) <= cap {
      assert CountOf(s.drained, w) + Pending(s.m.inflight, w) <= cap;
    }
  }

  lemma HappenWithinBudget(cap: nat, s: Run, e: Event)
    requires WithinBudget(cap, s)
    requires e.Tick? && s.highest.Some? ==> e.scope.window >= s.highest.value - WINDOWS_KEPT
    ensures WithinBudget(cap, Happen(cap, s, e))
  {
    if Possible(s.m, e) {
      match e {
        case Tick(_, _, _) => TickWithinBudget(cap, s, e);
        case Drain(_) =>
          assert s.m.inflight == [s.m.inflight[0]];
          DrainWithinBudget(cap, s, s.m.inflight[0]);
        case _ => OtherWithinBudget(cap, s, e);
      }
    }
  }

  lemma {:induction false} ReachWithinBudget(cap: nat, s: Run, events: seq<Event>, d: nat)
    requires WithinBudget(cap, s) && d <= WINDOWS_KEPT && RollsBackAtMost(d, s.highest, events)
    ensures WithinBudget(cap, Reach(cap, s, events))
    decreases |events|
  {
    if events != [] {
      HappenWithinBudget(cap, s, events[0]);
      ReachWithinBudget(cap, Happen(cap, s, events[0]), events[1..], d);
    }
  }

  ghost predicate CapHolds(cap: nat, s: Run) {
    forall w :: CountOf(s.drained, w) <= cap
  }

  /** If the run's windows roll back at most d, the cap holds. */
  ghost predicate SafeRun(cap: nat, d: nat, reloaded: seq<Entry>, events: seq<Event>) {
    RollsBackAtMost(d, None, events) ==> CapHolds(cap, Reach(cap, Start(reloaded), events))
  }

  /** However ticks, appends, flushes and fires interleave, no window is drained of more than its cap,
      exactly if the windows seen never roll back further than the counters are kept. In particular
      for windows that never go back. */
  lemma CapHoldsExactly(cap: nat, d: nat)
    requires cap > 0
    ensures (forall reloaded, events :: SafeRun(cap, d, reloaded, events)) <==> d <= 64
  {
    if d <= WINDOWS_KEPT {
      forall reloaded, events ensures SafeRun(cap, d, reloaded, events) {
        if RollsBackAtMost(d, None, events) { BoundedIsSafe(cap, d, reloaded, events); }
      }
    } else {
      var reloaded, events := OverdrawingRun(cap, d);
      assert !SafeRun(cap, d, reloaded, events);
    }
  }

  lemma BoundedIsSafe(cap: nat, d: nat, reloaded: seq<Entry>, events: seq<Event>)
    requires d <= WINDOWS_KEPT && RollsBackAtMost(d, None, events)
    ensures CapHolds(cap, Reach(cap, Start(reloaded), events))
  {
    ReachWithinBudget(cap, Start(reloaded), events, d);
    var s := Reach(cap, Start(reloaded), events);
    forall w ensures CountOf(s.drained, w) <= cap { assert CountOf(s.drained, w) + Pending(s.m.inflight, w) <= cap; }
  }

  // ---------- the run that overdraws ----------

  function Same(n: nat): seq<Entry> { seq(n, _ => Entry(0, 0, "")) }

  const NO_SCOPE := Scope(0, {}, map[])

  lemma {:induction false} AllFit(n: nat)
    ensures Filter<Entry>(Same(n), EligibleIn(NO_SCOPE)) == Same(n)
    ensures Filter<Entry>(Same(n), Not(EligibleIn(NO_SCOPE))) == []
  {
    if n > 0 {
      assert Same(n)[1..] == Same(n - 1);
      assert Same(n) == [Entry(0, 0, "")] + Same(n - 1);
      AllFit(n - 1);
    }
  }

  lemma {:induction false} AllDropped(n: nat)
    ensures Answered(Same(n), seq(n, _ => Failed), true) == []
  {
    if n > 0 {
      assert Same(n)[..n - 1] == Same(n - 1);
      assert seq(n, _ => Failed)[..n - 1] == seq(n - 1, _ => Failed);
      AllDropped(n - 1);
    }
  }

  const TICK := Tick(NO_SCOPE, true, true)
  const AHEAD := Tick(Scope(WINDOWS_KEPT + 1, {}, map[]), false, true)

  function FirstRound(cap: nat): seq<Event> {
    [TICK] + ([Drain(0)] + Answers(cap))
  }

  function Answers(cap: nat): seq<Event> { [Respond(0, seq(cap, _ => Failed)), PutBack(0), Reap(0)] }

  function SecondRound(): seq<Event> { [AHEAD, TICK, Drain(0)] }

  lemma {:induction false} ReachConcat(cap: nat, s: Run, a: seq<Event>, b: seq<Event>)
    ensures Reach(cap, s, a + b) == Reach(cap, Reach(cap, s, a), b)
    decreases |a|
  {
    if a == [] {
      assert a + b == b;
    } else {
      assert (a + b)[0] == a[0] && (a + b)[1..] == a[1..] + b;
      ReachConcat(cap, Happen(cap, s, a[0]), a[1..], b);
    }
  }

  lemma Unfold(cap: nat, s: Run, e: Event, rest: seq<Event>)
    ensures Reach(cap, s, [e] + rest) == Reach(cap, Happen(cap, s, e), rest)
  {
    assert ([e] + rest)[1..] == rest;
  }

  lemma DrainAll(cap: nat, s: Run)
    requires cap > 0 && s.m == Machine(Same(cap + 1), map[], [Scheduled(NO_SCOPE, cap)]) && CountOf(s.drained, 0) == 0
    ensures var s' := Happen(cap, s, Drain(0));
      s'.m == Machine(Same(1), map[0 := cap], [Posted(Same(cap))]) && CountOf(s'.drained, 0) == cap
  {
    AllFit(cap + 1);
    DrainParts(cap, s, s.m.inflight[0]);
    assert Take(cap, Same(cap + 1)) == Same(cap) && Drop(cap, Same(cap + 1)) == Same(1);
  }

  lemma PutBackNothing(cap: nat, s: Run)
    requires s.m.inflight == [PuttingBack([])]
    ensures var s' := Reach(cap, s, [PutBack(0), Reap(0)]);
      s'.m == s.m.(inflight := []) && s'.drained == s.drained
  {
    var s4 := Happen(cap, s, PutBack(0));
    assert s4.m == s.m.(inflight := [Finished]);
    var s5 := Happen(cap, s4, Reap(0));
    assert s5.m == s.m.(inflight := []);
    Unfold(cap, s, PutBack(0), [Reap(0)]);
    Unfold(cap, s4, Reap(0), []);
  }

  lemma AllAnswered(cap: nat, s: Run)
    requires s.m == Machine(Same(1), map[0 := cap], [Posted(Same(cap))])
    ensures var s' := Reach(cap, s, [Respond(0, seq(cap, _ => Failed)), PutBack(0), Reap(0)]);
      s'.m == Machine(Same(1), map[0 := cap], []) && s'.drained == s.drained
  {
    var failed := seq(cap, _ => Failed);
    AllDropped(cap);
    AnswerParts(cap, s, Same(cap), failed, [], Answered(Same(cap), failed, false));
    PutBackNothing(cap, Happen(cap, s, Respond(0, failed)));
    Unfold(cap, s, Respond(0, failed), [PutBack(0), Reap(0)]);
  }

  lemma FirstTick(cap: nat)
    requires cap > 0
    ensures var s := Happen(cap, Start(Same(cap + 1)), TICK);
      s.m == Machine(Same(cap + 1), map[], [Scheduled(NO_SCOPE, cap)]) && CountOf(s.drained, 0) == 0
  {
  }

  lemma AfterFirstTick(cap: nat, s: Run)
    requires cap > 0 && s.m == Machine(Same(cap + 1), map[], [Scheduled(NO_SCOPE, cap)]) && CountOf(s.drained, 0) == 0
    ensures var s' := Reach(cap, s, [Drain(0)] + Answers(cap));
      s'.m == Machine(Same(1), map[0 := cap], []) && CountOf(s'.drained, 0) == cap
  {
    DrainAll(cap, s);
    AllAnswered(cap, Happen(cap, s, Drain(0)));
    Unfold(cap, s, Drain(0), Answers(cap));
  }

  lemma AfterFirstRound(cap: nat)
    requires cap > 0
    ensures var s := Reach(cap, Start(Same(cap + 1)), FirstRound(cap));
      s.m == Machine(Same(1), map[0 := cap], []) && CountOf(s.drained, 0) == cap
  {
    var s0 := Start(Same(cap + 1));
    FirstTick(cap);
    AfterFirstTick(cap, Happen(cap, s0, TICK));
    Unfold(cap, s0, TICK, [Drain(0)] + Answers(cap));
  }

  lemma DrainOne(cap: nat, s: Run)
    requires cap > 0 && s.m.inflight == [Scheduled(NO_SCOPE, cap)] && s.m.pool == Same(1)
    ensures CountOf(Happen(cap, s, Drain(0)).drained, 0) == CountOf(s.drained, 0) + 1
  {
    AllFit(1);
    DrainParts(cap, s, s.m.inflight[0]);
    assert Take(cap, Same(1)) == Same(1);
  }

  lemma AfterSecondRound(cap: nat, s: Run)
    requires cap > 0 && s.m == Machine(Same(1), map[0 := cap], []) && CountOf(s.drained, 0) == cap
    ensures CountOf(Reach(cap, s, SecondRound()).drained, 0) == cap + 1
  {
    var s1 := Happen(cap, s, AHEAD);
    assert s1.m == Machine(Same(1), map[], []) && s1.drained == s.drained;
    var s2 := Happen(cap, s1, TICK);
    assert s2.m == Machine(Same(1), map[], [Scheduled(NO_SCOPE, cap)]) && s2.drained == s.drained;
    DrainOne(cap, s2);
    assert SecondRound() == [AHEAD] + ([TICK] + ([Drain(0)] + []));
    Unfold(cap, s, AHEAD, [TICK] + ([Drain(0)] + []));
    Unfold(cap, s1, TICK, [Drain(0)] + []);
    Unfold(cap, s2, Drain(0), []);
  }

  lemma RoundsRollBack(cap: nat, d: nat)
    requires d > WINDOWS_KEPT
    ensures RollsBackAtMost(d, None, FirstRound(cap) + SecondRound())
  {
    var e := FirstRound(cap) + SecondRound();
    assert RollsBackAtMost(d, Some(WINDOWS_KEPT + 1), e[7..]) by {
      assert e[7..] == [Drain(0)] && e[7..][1..] == [];
    }
    assert e[6..][1..] == e[7..] && e[6] == TICK;
    assert RollsBackAtMost(d, Some(WINDOWS_KEPT + 1), e[6..]);
    assert e[5..][1..] == e[6..] && e[5] == AHEAD;
    assert RollsBackAtMost(d, Some(0), e[5..]);
    assert e[4..][1..] == e[5..];
    assert RollsBackAtMost(d, Some(0), e[4..]);
    assert e[3..][1..] == e[4..];
    assert RollsBackAtMost(d, Some(0), e[3..]);
    assert e[2..][1..] == e[3..];
    assert RollsBackAtMost(d, Some(0), e[2..]);
    assert e[1..][1..] == e[2..];
    assert RollsBackAtMost(d, Some(0), e[1..]);
  }

  /** Window 0 is drained to its cap, a tick far ahead forgets it, and a tick back at 0 drains it again. */
  lemma OverdrawingRun(cap: nat, d: nat) returns (reloaded: seq<Entry>, events: seq<Event>)
    requires cap > 0 && d > WINDOWS_KEPT
    ensures RollsBackAtMost(d, None, events)
    ensures !CapHolds(cap, Reach(cap, Start(reloaded), events))
  {
    reloaded, events := Same(cap + 1), FirstRound(cap) + SecondRound();
    RoundsRollBack(cap, d);
    AfterFirstRound(cap);
    AfterSecondRound(cap, Reach(cap, Start(reloaded), FirstRound(cap)));
    ReachConcat(cap, Start(reloaded), FirstRound(cap), SecondRound());
  }
}
