/** The miner's fire-as-ready loop: ticks that schedule at most one fire at a time, fires that drain the
    pool within the window's budget, and what becomes of each fired entry.

    The pool lock and the single-threaded event loop make each of the events below one step.
 */
module FireLoop {
  import opened Wrappers
  import opened Sorting

  datatype Entry = Entry(id: nat, promptIdx: int, env: string)

  /** What a fire knows of its window: the prompts in cooldown and the slice of each armed environment. */
  datatype Scope = Scope(window: int, cooldown: set<int>, slices: map<string, (int, int)>)

  /** Where a fire is: scheduled with a budget, its entries posted, about to put some back, finished. */
  datatype Fire =
    | Scheduled(scope: Scope, budget: nat)
    | Posted(fired: seq<Entry>)
    | PuttingBack(requeue: seq<Entry>)
    | Finished

  datatype Outcome = Failed | Accepted | Rejected(reason: string)

  datatype Machine = Machine(pool: seq<Entry>, submitted: map<int, nat>, inflight: seq<Fire>)

  /** How many windows back the counters are kept. */
  const WINDOWS_KEPT := 64

  // ---------- one fire ----------

  predicate Eligible(s: Scope, e: Entry) {
    && e.promptIdx !in s.cooldown
    && (e.env in s.slices ==> s.slices[e.env].0 <= e.promptIdx < s.slices[e.env].1)
  }

  function EligibleIn(s: Scope): Entry -> bool { (e: Entry) => Eligible(s, e) }

  function Take(n: nat, s: seq<Entry>): seq<Entry> { if n <= |s| then s[..n] else s }

  function Drop(n: nat, s: seq<Entry>): seq<Entry> { if n <= |s| then s[n..] else [] }

  /** The three parts of a drained pool, each in pool order. */
  function Fired(s: Scope, budget: nat, pool: seq<Entry>): seq<Entry> {
    Take(budget, Filter<Entry>(pool, EligibleIn(s)))
  }

  function KeptBack(s: Scope, budget: nat, pool: seq<Entry>): seq<Entry> {
    Drop(budget, Filter<Entry>(pool, EligibleIn(s)))
  }

  function Unfit(s: Scope, pool: seq<Entry>): seq<Entry> { Filter<Entry>(pool, Not(EligibleIn(s))) }

  method DrainPool(s: Scope, budget: nat, pool: seq<Entry>)
    returns (fire: seq<Entry>, kept: seq<Entry>, dropped: seq<Entry>)
    ensures fire == Fired(s, budget, pool) && kept == KeptBack(s, budget, pool) && dropped == Unfit(s, pool)
  {
    fire, kept, dropped := [], [], [];
    for i := 0 to |pool|
      invariant fire + kept == Filter<Entry>(pool[..i], EligibleIn(s)) && dropped == Unfit(s, pool[..i])
      invariant |fire| <= budget && (kept != [] ==> |fire| == budget)
    {
      var entry := pool[i];
      assert pool[..i + 1] == pool[..i] + [entry];
      FilterSnoc(pool[..i], entry, EligibleIn(s));
      FilterSnoc(pool[..i], entry, Not(EligibleIn(s)));
      if entry.promptIdx in s.cooldown {
        dropped := dropped + [entry];
        continue;
      }
      if entry.env in s.slices && !(s.slices[entry.env].0 <= entry.promptIdx < s.slices[entry.env].1) {
        dropped := dropped + [entry];
        continue;
      }
      if |fire| < budget {
        fire := fire + [entry];
      } else {
        assert fire + (kept + [entry]) == (fire + kept) + [entry];
        kept := kept + [entry];
      }
    }
    assert pool[..|pool|] == pool;
    assert kept == [] ==> fire + kept == fire;
  }

  lemma {:induction false} FilterSnoc(xs: seq<Entry>, x: Entry, p: Entry -> bool)
    ensures Filter<Entry>(xs + [x], p) == Filter<Entry>(xs, p) + if p(x) then [x] else []
  {
    if xs != [] {
      assert (xs + [x])[1..] == xs[1..] + [x];
      FilterSnoc(xs[1..], x, p);
    }
  }

  lemma {:induction false} FilterPartition(xs: seq<Entry>, p: Entry -> bool)
    ensures multiset(xs) == multiset(Filter<Entry>(xs, p)) + multiset(Filter<Entry>(xs, Not(p)))
  {
    if xs != [] {
      FilterPartition(xs[1..], p);
      assert xs == [xs[0]] + xs[1..];
    }
  }

  lemma TakeDrop(n: nat, s: seq<Entry>)
    ensures Take(n, s) + Drop(n, s) == s && |Take(n, s)| <= n
    ensures |Take(n, s)| < n ==> Drop(n, s) == []
    ensures multiset(s) == multiset(Take(n, s)) + multiset(Drop(n, s))
  {
    assert Take(n, s) + Drop(n, s) == s;
  }

  /** A drain loses nothing and invents nothing, takes as much as the budget allows and keeps the order. */
  lemma DrainSplits(s: Scope, budget: nat, pool: seq<Entry>)
    ensures multiset(pool)
         == multiset(Fired(s, budget, pool)) + multiset(KeptBack(s, budget, pool)) + multiset(Unfit(s, pool))
    ensures Fired(s, budget, pool) + KeptBack(s, budget, pool) == Filter<Entry>(pool, EligibleIn(s))
    ensures |Fired(s, budget, pool)| <= budget
    ensures |Fired(s, budget, pool)| < budget ==> KeptBack(s, budget, pool) == []
  {
    FilterPartition(pool, EligibleIn(s));
    TakeDrop(budget, Filter<Entry>(pool, EligibleIn(s)));
  }

  /** A prompt the validator would take in this window: out of cooldown, and in its environment's slice if that
      environment is armed. */
  ghost predicate Takeable(s: Scope, e: Entry) {
    && !(e.promptIdx in s.cooldown)
    && !(e.env in s.slices && (e.promptIdx < s.slices[e.env].0 || e.promptIdx >= s.slices[e.env].1))
  }

  /** Exactly the entries the validator would take are fired or kept, the others are dropped. */
  lemma DrainMeaning(s: Scope, budget: nat, pool: seq<Entry>, e: Entry)
    ensures e in Fired(s, budget, pool) + KeptBack(s, budget, pool) <==> e in pool && Takeable(s, e)
    ensures e in Unfit(s, pool) <==> e in pool && !Takeable(s, e)
  {
    TakeDrop(budget, Filter<Entry>(pool, EligibleIn(s)));
    FilterMembers(pool, EligibleIn(s));
    FilterMembers(pool, Not(EligibleIn(s)));
  }

  predicate Retryable(o: Outcome) {
    o.Rejected? && o.reason in {"stale_round", "batch_filled", "rate_limited", "future_round",
                                "registration_unavailable"}
  }

  /** The fired entries whose outcome says retry, or the others. */
  function Answered(fired: seq<Entry>, outcomes: seq<Outcome>, retry: bool): seq<Entry>
    requires |fired| == |outcomes|
  {
    if fired == [] then []
    else
      var n := |fired| - 1;
      Answered(fired[..n], outcomes[..n], retry) + if Retryable(outcomes[n]) == retry then [fired[n]] else []
  }

  method Decide(fired: seq<Entry>, outcomes: seq<Outcome>) returns (requeue: seq<Entry>, drop: seq<Entry>)
    requires |fired| == |outcomes|
    ensures requeue == Answered(fired, outcomes, true) && drop == Answered(fired, outcomes, false)
  {
    requeue, drop := [], [];
    for i := 0 to |fired|
      invariant requeue == Answered(fired[..i], outcomes[..i], true) &&
        drop == Answered(fired[..i], outcomes[..i], false)
    {
      assert fired[..i + 1][..i] == fired[..i] && outcomes[..i + 1][..i] == outcomes[..i];
      match outcomes[i] {
        case Failed => drop := drop + [fired[i]];
        case Accepted => drop := drop + [fired[i]];
        case Rejected(_) =>
          if Retryable(outcomes[i]) { requeue := requeue + [fired[i]]; } else { drop := drop + [fired[i]]; }
      }
    }
    assert fired[..|fired|] == fired && outcomes[..|outcomes|] == outcomes;
  }

  /** A rejection that another window, or a pause, may turn into an acceptance. */
  ghost predicate WorthRetrying(o: Outcome) {
    o.Rejected?
    && (o.reason == "stale_round" || o.reason == "batch_filled" || o.reason == "rate_limited"
        || o.reason == "future_round" || o.reason == "registration_unavailable")
  }

  /** Put back are exactly the entries rejected for a passing reason; accepted ones, failed ones and those
      rejected for good are dropped. */
  lemma {:induction false} AnsweredMeaning(fired: seq<Entry>, outcomes: seq<Outcome>, e: Entry)
    requires |fired| == |outcomes|
    ensures e in Answered(fired, outcomes, true)
       <==> exists i :: 0 <= i < |fired| && fired[i] == e && WorthRetrying(outcomes[i])
    ensures e in Answered(fired, outcomes, false)
       <==> exists i :: 0 <= i < |fired| && fired[i] == e && !WorthRetrying(outcomes[i])
  {
    if fired != [] {
      var n := |fired| - 1;
      AnsweredMeaning(fired[..n], outcomes[..n], e);
      assert forall i :: 0 <= i < n ==> fired[..n][i] == fired[i] && outcomes[..n][i] == outcomes[i];
      assert Retryable(outcomes[n]) == WorthRetrying(outcomes[n]);
    }
  }

  /** Every fired entry is put back or dropped, never both and never neither. */
  lemma {:induction false} AnsweredPartition(fired: seq<Entry>, outcomes: seq<Outcome>)
    requires |fired| == |outcomes|
    ensures multiset(fired) == multiset(Answered(fired, outcomes, true)) + multiset(Answered(fired, outcomes, false))
  {
    if fired != [] {
      var n := |fired| - 1;
      AnsweredPartition(fired[..n], outcomes[..n]);
      assert fired == fired[..n] + [fired[n]];
      AddToOne(fired[..n], Answered(fired[..n], outcomes[..n], true), Answered(fired[..n], outcomes[..n], false),
               fired[n]);
    }
  }

  lemma AddToOne(all: seq<Entry>, a: seq<Entry>, b: seq<Entry>, x: Entry)
    requires multiset(all) == multiset(a) + multiset(b)
    ensures multiset(all + [x]) == multiset(a + [x]) + multiset(b + [])
    ensures multiset(all + [x]) == multiset(a + []) + multiset(b + [x])
  {
    assert multiset(all + [x]) == multiset(all) + multiset{x};
    assert a + [] == a && b + [] == b;
  }

  // ---------- the machine ----------

  datatype Event =
    | Append(entry: Entry)
    | Flush
    | Tick(scope: Scope, isOpen: bool, hasRandomness: bool)
    | Drain(i: nat)
    | Respond(i: nat, outcomes: seq<Outcome>)
    | PutBack(i: nat)
    | Reap(i: nat)

  function CountOf(counts: map<int, nat>, w: int): nat { if w in counts then counts[w] else 0 }

  function Pruned(counts: map<int, nat>, window: int): map<int, nat> {
    map w | w in counts && w >= window - WINDOWS_KEPT :: counts[w]
  }

  predicate ShouldFire(cap: nat, m: Machine, e: Event)
    requires e.Tick?
  {
    e.isOpen && e.hasRandomness && CountOf(m.submitted, e.scope.window) < cap && m.pool != [] && m.inflight == []
  }

  /** Whether an event can happen: a step of a fire needs the fire to be at that point. */
  predicate Possible(m: Machine, e: Event) {
    match e
    case Drain(i) => i < |m.inflight| && m.inflight[i].Scheduled?
    case Respond(i, outcomes) => i < |m.inflight| && m.inflight[i].Posted? && |m.inflight[i].fired| == |outcomes|
    case PutBack(i) => i < |m.inflight| && m.inflight[i].PuttingBack?
    case Reap(i) => i < |m.inflight| && m.inflight[i].Finished?
    case _ => true
  }

  function Raised(counts: map<int, nat>, w: int, n: nat): map<int, nat> {
    counts[w := CountOf(counts, w) + n]
  }

  /** The fired entries count against their window at once; an empty fire is over. */
  function AfterDrain(m: Machine, i: nat, window: int, fire: seq<Entry>, kept: seq<Entry>): Machine
    requires i < |m.inflight|
  {
    if fire == [] then Machine(kept, m.submitted, m.inflight[i := Finished])
    else Machine(kept, Raised(m.submitted, window, |fire|), m.inflight[i := Posted(fire)])
  }

  function AfterAnswer(m: Machine, i: nat, requeue: seq<Entry>): Machine
    requires i < |m.inflight|
  {
    m.(inflight := m.inflight[i := PuttingBack(requeue)])
  }

  function Step(cap: nat, m: Machine, e: Event): Machine
    requires Possible(m, e)
  {
    match e
    case Append(entry) => m.(pool := m.pool + [entry])
    case Flush => m.(pool := [])
    case Tick(scope, _, _) =>
      Machine(m.pool, Pruned(m.submitted, scope.window),
              if ShouldFire(cap, m, e)
              then m.inflight + [Scheduled(scope, cap - CountOf(m.submitted, scope.window))] else m.inflight)
    case Drain(i) =>
      var s, budget := m.inflight[i].scope, m.inflight[i].budget;
      AfterDrain(m, i, s.window, Fired(s, budget, m.pool), KeptBack(s, budget, m.pool))
    case Respond(i, outcomes) => AfterAnswer(m, i, Answered(m.inflight[i].fired, outcomes, true))
    case PutBack(i) => m.(pool := m.pool + m.inflight[i].requeue, inflight := m.inflight[i := Finished])
    case Reap(i) => m.(inflight := m.inflight[..i] + m.inflight[i + 1..])
  }

  /** The engine's fields, updated as the code does. */
  class MiningEngine {
    const cap: nat
    var pool: seq<Entry>
    var submittedCount: map<int, nat>
    var inflight: seq<Fire>

    function Current(): Machine
      reads this
    {
      Machine(pool, submittedCount, inflight)
    }

    constructor (maxSubmissions: nat, reloaded: seq<Entry>)
      ensures cap == maxSubmissions && Current() == Machine(reloaded, map[], [])
    {
      cap, pool, submittedCount, inflight := maxSubmissions, reloaded, map[], [];
    }

    /** A group was baked. */
    method AppendEntry(entry: Entry)
      modifies this
      ensures Current() == Step(cap, old(Current()), Append(entry))
      ensures Current() == old(Current()).(pool := old(pool) + [entry])
    {
      pool := pool + [entry];
    }

    /** A flip of the randomness, or a new checkpoint. */
    method FlushPool()
      modifies this
      ensures Current() == Step(cap, old(Current()), Flush)
      ensures Current() == old(Current()).(pool := [])
    {
      pool := [];
    }

    /** The callback of a finished fire. */
    method DiscardFire(i: nat)
      requires i < |inflight| && inflight[i].Finished?
      modifies this
      ensures Current() == Step(cap, old(Current()), Reap(i))
      ensures Current() == old(Current()).(inflight := old(inflight)[..i] + old(inflight)[i + 1..])
    {
      inflight := inflight[..i] + inflight[i + 1..];
    }

    /** The fire part of one trigger tick. */
    method TriggerTick(scope: Scope, isOpen: bool, hasRandomness: bool)
      modifies this
      ensures Current() == Step(cap, old(Current()), Tick(scope, isOpen, hasRandomness))
      ensures pool == old(pool)
      ensures submittedCount == map w | w in old(submittedCount) && w >= scope.window - 64 :: old(submittedCount)[w]
      ensures var used := if scope.window in old(submittedCount) then old(submittedCount)[scope.window] else 0;
        if isOpen && hasRandomness && used < cap && pool != [] && old(inflight) == []
        then inflight == [Scheduled(scope, cap - used)] else inflight == old(inflight)
    {
      var remaining := cap - CountOf(submittedCount, scope.window);
      if isOpen && hasRandomness && remaining > 0 && |pool| > 0 && inflight == [] {
        inflight := inflight + [Scheduled(scope, remaining)];
      }
      submittedCount := map w | w in submittedCount && w >= scope.window - WINDOWS_KEPT :: submittedCount[w];
    }

    /** The start of a fire, under the pool lock. */
    method StartFire(i: nat)
      requires i < |inflight| && inflight[i].Scheduled?
      modifies this
      ensures Current() == Step(cap, old(Current()), Drain(i))
      ensures var f := old(inflight[i]);
        var fire := Fired(f.scope, f.budget, old(pool));
        && pool == KeptBack(f.scope, f.budget, old(pool))
        && inflight == old(inflight)[i := if fire == [] then Finished else Posted(fire)]
        && CountOf(submittedCount, f.scope.window) == CountOf(old(submittedCount), f.scope.window) + |fire|
        && forall w :: w != f.scope.window ==> CountOf(submittedCount, w) == CountOf(old(submittedCount), w)
    {
      var s, budget := inflight[i].scope, inflight[i].budget;
      var fire, kept, dropped := DrainPool(s, budget, pool);
      pool := kept;
      if fire != [] {
        submittedCount := submittedCount[s.window := CountOf(submittedCount, s.window) + |fire|];
        inflight := inflight[i := Posted(fire)];
      } else {
        inflight := inflight[i := Finished];
      }
    }

    /** The answers are in. */
    method FinishFire(i: nat, outcomes: seq<Outcome>)
      requires i < |inflight| && inflight[i].Posted? && |inflight[i].fired| == |outcomes|
      modifies this
      ensures Current() == Step(cap, Step(cap, old(Current()), Respond(i, outcomes)), PutBack(i))
      ensures pool == old(pool) + Answered(old(inflight[i]).fired, outcomes, true)
      ensures inflight == old(inflight)[i := Finished] && submittedCount == old(submittedCount)
    {
      var requeue, drop := Decide(inflight[i].fired, outcomes);
      if requeue != [] { pool := pool + requeue; }
      inflight := inflight[i := Finished];
    }
  }
}
