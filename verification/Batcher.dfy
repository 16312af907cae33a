/** One window of the market: submissions come in one at a time, cheap checks first, and the window
    seals a batch.

    Everything expensive (rewards, zone, tokens, signature, proof, termination, log-probs,
    distribution) is one verdict carried by the request: None passes, a reason rejects.
 */
module Batcher {
  import opened Reals
  import opened Wrappers
  import opened Cooldown
  import opened BatchSelection

  datatype Reason =
    | WindowMismatch | WrongCheckpoint | BadPromptIdx | PromptInCooldown | Superseded
    | RewardMismatch | OutOfZone | BadSchema | BadTokens | PromptMismatch | BadSignature
    | GrailFail | BadTermination | LogprobMismatch | DistributionSuspicious

  datatype Request = Request(window: int, hotkey: string, prompt: nat, checkpoint: string, merkleRoot: seq<int>,
                             verdict: Option<Reason>)

  // ---------- counting rejects ----------

  function CountOf(counts: map<Reason, nat>, r: Reason): nat {
    if r in counts then counts[r] else 0
  }

  function CountFn(counts: map<Reason, nat>): Reason -> real { r => CountOf(counts, r) as real }

  /** All rejects of the window. */
  ghost function TotalCount(counts: map<Reason, nat>): real {
    SumOver(counts.Keys, CountFn(counts))
  }

  function Bump(counts: map<Reason, nat>, r: Reason): map<Reason, nat> {
    counts[r := CountOf(counts, r) + 1]
  }

  lemma TotalBump(counts: map<Reason, nat>, r: Reason)
    ensures TotalCount(Bump(counts, r)) == TotalCount(counts) + 1.0
  {
    var bumped := Bump(counts, r);
    SumRemove(bumped.Keys, CountFn(bumped), r);
    assert bumped.Keys - {r} == counts.Keys - {r};
    SumSame(counts.Keys - {r}, CountFn(counts), CountFn(bumped));
    if r in counts { SumRemove(counts.Keys, CountFn(counts), r); } else { assert counts.Keys - {r} == counts.Keys; }
  }

  // ---------- distinct prompts ----------

  lemma {:induction false} PromptCount(subs: seq<Submission>)
    requires DistinctPrompts(subs)
    ensures |Prompts(subs)| == |subs|
  {
    if subs == [] {
      assert Prompts(subs) == {};
    } else {
      var head, rest := subs[0], subs[1..];
      assert subs == [head] + rest;
      assert DistinctPrompts(rest);
      PromptCount(rest);
      PromptsCons(head, rest);
      assert head.promptIdx !in Prompts(rest);
    }
  }

  lemma PromptsAppend(subs: seq<Submission>, s: Submission)
    ensures Prompts(subs + [s]) == Prompts(subs) + {s.promptIdx}
  {
    var all := subs + [s];
    forall p ensures p in Prompts(all) <==> p in Prompts(subs) || p == s.promptIdx {
      if p in Prompts(subs) {
        var i :| 0 <= i < |subs| && subs[i].promptIdx == p;
        assert all[i].promptIdx == p;
      }
      assert all[|subs|] == s;
    }
  }

  function PromptList(subs: seq<Submission>): (r: seq<int>)
    ensures |r| == |subs|
  {
    seq(|subs|, i requires 0 <= i < |subs| => subs[i].promptIdx)
  }

  /** The eligible prompts counted for the seal. */
  ghost predicate NoneBlocked(subs: seq<Submission>, v: View) {
    forall i :: 0 <= i < |subs| ==> !Blocked(v, subs[i].promptIdx)
  }

  lemma EligibleAll(subs: seq<Submission>, v: View)
    requires DistinctPrompts(subs) && NoneBlocked(subs, v)
    ensures |Eligible(subs, {}, v)| == |subs|
  {
    PromptCount(subs);
    assert Eligible(subs, {}, v) == Prompts(subs);
  }

  // ---------- a window's run ----------

  /** The checks that do not depend on the window's earlier submissions. */
  predicate Passes(v: View, envSize: nat, hash: string, r: Request) {
    && r.window == v.window
    && (hash == "" || r.checkpoint == hash)
    && r.prompt < envSize
    && !Blocked(v, r.prompt)
    && r.verdict.None?
  }

  /** A request with the validator's clock at its acceptance. */
  datatype Arrival = Arrival(request: Request, at: real)

  function Submitted(a: Arrival): Submission {
    Submission(a.request.hotkey, a.request.prompt, a.request.merkleRoot, a.at)
  }

  /** Who is accepted when the requests of a window come in this order: whoever passes first for a
      prompt. */
  ghost function Admitted(v: View, envSize: nat, hash: string, arrivals: seq<Arrival>): seq<Submission> {
    if arrivals == [] then []
    else Admit(v, envSize, hash, Admitted(v, envSize, hash, arrivals[..|arrivals| - 1]), arrivals[|arrivals| - 1])
  }

  ghost function Admit(v: View, envSize: nat, hash: string, before: seq<Submission>, last: Arrival): seq<Submission> {
    if Passes(v, envSize, hash, last.request) && last.request.prompt !in Prompts(before)
    then before + [Submitted(last)] else before
  }

  lemma AdmitPrompts(v: View, envSize: nat, hash: string, before: seq<Submission>, last: Arrival)
    requires DistinctPrompts(before)
    ensures Prompts(Admit(v, envSize, hash, before, last))
         == Prompts(before) + if Passes(v, envSize, hash, last.request) then {last.request.prompt as int} else {}
    ensures DistinctPrompts(Admit(v, envSize, hash, before, last))
  {
    PromptsAppend(before, Submitted(last));
    assert forall i :: 0 <= i < |before| ==> before[i].promptIdx in Prompts(before);
  }

  ghost function PassingPrompts(v: View, envSize: nat, hash: string, arrivals: seq<Arrival>): set<int> {
    set i | 0 <= i < |arrivals| && Passes(v, envSize, hash, arrivals[i].request) :: arrivals[i].request.prompt
  }

  /** The accepted prompts are the prompts with a passing request, once each. */
  lemma {:induction false} AdmittedMeaning(v: View, envSize: nat, hash: string, arrivals: seq<Arrival>)
    ensures var subs := Admitted(v, envSize, hash, arrivals);
      Prompts(subs) == PassingPrompts(v, envSize, hash, arrivals) && DistinctPrompts(subs)
      && |subs| == |PassingPrompts(v, envSize, hash, arrivals)|
  {
    if arrivals == [] {
      assert Prompts([]) == PassingPrompts(v, envSize, hash, []);
    } else {
      var init, last := arrivals[..|arrivals| - 1], arrivals[|arrivals| - 1];
      AdmittedMeaning(v, envSize, hash, init);
      AdmitPrompts(v, envSize, hash, Admitted(v, envSize, hash, init), last);
      PassingAppend(v, envSize, hash, init, last);
      assert arrivals == init + [last];
    }
    PromptCount(Admitted(v, envSize, hash, arrivals));
  }

  lemma PassingAppend(v: View, envSize: nat, hash: string, init: seq<Arrival>, last: Arrival)
    ensures PassingPrompts(v, envSize, hash, init + [last]) == PassingPrompts(v, envSize, hash, init)
         + if Passes(v, envSize, hash, last.request) then {last.request.prompt as int} else {}
  {
    var all := init + [last];
    forall p | p in PassingPrompts(v, envSize, hash, init) ensures p in PassingPrompts(v, envSize, hash, all) {
      var i :| 0 <= i < |init| && Passes(v, envSize, hash, init[i].request) && init[i].request.prompt == p;
      assert all[i] == init[i];
    }
    assert all[|init|] == last;
  }

  /** The request at position m passes, and none before it passed for the same prompt. */
  ghost predicate FirstPassing(v: View, envSize: nat, hash: string, arrivals: seq<Arrival>, m: nat) {
    && m < |arrivals| && Passes(v, envSize, hash, arrivals[m].request)
    && forall l :: 0 <= l < m && Passes(v, envSize, hash, arrivals[l].request) ==>
         arrivals[l].request.prompt != arrivals[m].request.prompt
  }

  lemma PassingPrefix(v: View, envSize: nat, hash: string, init: seq<Arrival>, last: Arrival)
    ensures FirstPassing(v, envSize, hash, init + [last], |init|)
       <==> Passes(v, envSize, hash, last.request) && last.request.prompt !in PassingPrompts(v, envSize, hash, init)
    ensures forall m: nat :: m < |init| ==>
      (FirstPassing(v, envSize, hash, init + [last], m) <==> FirstPassing(v, envSize, hash, init, m))
  {
    var all := init + [last];
    assert forall l :: 0 <= l < |init| ==> all[l] == init[l];
  }

  /** The accepted submissions are the first passing requests for their prompts, with hotkey, prompt and root
      of the request and the time of its acceptance. */
  lemma {:induction false} AdmittedExactly(v: View, envSize: nat, hash: string, arrivals: seq<Arrival>, s: Submission)
    ensures s in Admitted(v, envSize, hash, arrivals) <==> IsFirst(v, envSize, hash, arrivals, s)
  {
    if arrivals != [] {
      var init, last := arrivals[..|arrivals| - 1], arrivals[|arrivals| - 1];
      assert arrivals == init + [last];
      AdmittedExactly(v, envSize, hash, init, s);
      AdmittedMeaning(v, envSize, hash, init);
      PassingPrefix(v, envSize, hash, init, last);
      if m: nat :| FirstPassing(v, envSize, hash, init, m) && IsOf(s, init[m]) {
        assert FirstPassing(v, envSize, hash, arrivals, m) && IsOf(s, arrivals[m]);
      }
      if m: nat :| FirstPassing(v, envSize, hash, arrivals, m) && IsOf(s, arrivals[m]) && m < |init| {
        assert FirstPassing(v, envSize, hash, init, m) && IsOf(s, init[m]);
      }
    }
  }

  ghost predicate IsFirst(v: View, envSize: nat, hash: string, arrivals: seq<Arrival>, s: Submission) {
    exists m: nat :: FirstPassing(v, envSize, hash, arrivals, m) && IsOf(s, arrivals[m])
  }

  ghost predicate IsOf(s: Submission, a: Arrival) {
    && s.hotkey == a.request.hotkey && s.promptIdx == a.request.prompt
    && s.merkleRoot == a.request.merkleRoot && s.arrivedAt == a.at
  }

  /** First come, first served: each member is the first passing request for its prompt, members are in the
      order of their times, and nobody left out for want of a slot was accepted before a member. */
  ghost predicate FirstServed(v: View, envSize: nat, hash: string, arrivals: seq<Arrival>, batch: seq<Submission>) {
    && (forall i :: 0 <= i < |batch| ==> IsFirst(v, envSize, hash, arrivals, batch[i]))
    && (forall i, j :: 0 <= i < j < |batch| ==> batch[i].arrivedAt <= batch[j].arrivedAt)
    && (forall i, m: nat :: 0 <= i < |batch| && FirstPassing(v, envSize, hash, arrivals, m) ==>
          arrivals[m].request.prompt in Prompts(batch) || batch[i].arrivedAt <= arrivals[m].at)
  }

  lemma MemberServed(v: View, envSize: nat, hash: string, arrivals: seq<Arrival>, b: int, digest: Digest, i: nat)
    requires i < |Select(Admitted(v, envSize, hash, arrivals), b, v, digest)|
    ensures IsFirst(v, envSize, hash, arrivals, Select(Admitted(v, envSize, hash, arrivals), b, v, digest)[i])
  {
    var subs := Admitted(v, envSize, hash, arrivals);
    SelectMembers(subs, b, v, digest);
    AdmittedExactly(v, envSize, hash, arrivals, Select(subs, b, v, digest)[i]);
  }

  lemma LeftOutLater(v: View, envSize: nat, hash: string, arrivals: seq<Arrival>, b: int, digest: Digest, i: nat,
                     m: nat)
    requires i < |Select(Admitted(v, envSize, hash, arrivals), b, v, digest)|
    requires FirstPassing(v, envSize, hash, arrivals, m)
    requires arrivals[m].request.prompt !in Prompts(Select(Admitted(v, envSize, hash, arrivals), b, v, digest))
    ensures Select(Admitted(v, envSize, hash, arrivals), b, v, digest)[i].arrivedAt <= arrivals[m].at
  {
    var s := Submitted(arrivals[m]);
    AdmittedExactly(v, envSize, hash, arrivals, s);
    BeforeLeftOut(Admitted(v, envSize, hash, arrivals), b, v, digest, i, s);
  }

  lemma SelectServes(v: View, envSize: nat, hash: string, arrivals: seq<Arrival>, b: int, digest: Digest)
    ensures FirstServed(v, envSize, hash, arrivals, Select(Admitted(v, envSize, hash, arrivals), b, v, digest))
  {
    var subs := Admitted(v, envSize, hash, arrivals);
    var batch := Select(subs, b, v, digest);
    forall i | 0 <= i < |batch| ensures IsFirst(v, envSize, hash, arrivals, batch[i]) {
      MemberServed(v, envSize, hash, arrivals, b, digest, i);
    }
    forall i, j | 0 <= i < j < |batch| ensures batch[i].arrivedAt <= batch[j].arrivedAt {
      BeforeLater(subs, b, v, digest, i, j);
    }
    forall i, m: nat | 0 <= i < |batch| && FirstPassing(v, envSize, hash, arrivals, m)
      ensures arrivals[m].request.prompt in Prompts(batch) || batch[i].arrivedAt <= arrivals[m].at
    {
      if arrivals[m].request.prompt !in Prompts(batch) { LeftOutLater(v, envSize, hash, arrivals, b, digest, i, m); }
    }
  }

  /** The batch of a window whose requests come in this order. */
  lemma WindowBatch(v: View, envSize: nat, hash: string, arrivals: seq<Arrival>, b: nat, digest: Digest)
    ensures var batch := Select(Admitted(v, envSize, hash, arrivals), b, v, digest);
      && FirstServed(v, envSize, hash, arrivals, batch) && NoneBlocked(batch, v)
      && |batch| == AtMost(b, |PassingPrompts(v, envSize, hash, arrivals)|) <= b
  {
    var subs := Admitted(v, envSize, hash, arrivals);
    forall i | 0 <= i < |subs| ensures !Blocked(v, subs[i].promptIdx) {
      AdmittedExactly(v, envSize, hash, arrivals, subs[i]);
    }
    AdmittedMeaning(v, envSize, hash, arrivals);
    EligibleAll(subs, v);
    SelectMembers(subs, b, v, digest);
    SelectServes(v, envSize, hash, arrivals, b, digest);
  }

  lemma {:induction false} FirstFor(v: View, envSize: nat, hash: string, arrivals: seq<Arrival>, m: nat)
    returns (l: nat)
    requires m < |arrivals| && Passes(v, envSize, hash, arrivals[m].request)
    ensures l <= m && FirstPassing(v, envSize, hash, arrivals, l)
    ensures arrivals[l].request.prompt == arrivals[m].request.prompt
  {
    l := m;
    if !FirstPassing(v, envSize, hash, arrivals, m) {
      var i :| 0 <= i < m && Passes(v, envSize, hash, arrivals[i].request)
               && arrivals[i].request.prompt == arrivals[m].request.prompt;
      l := FirstFor(v, envSize, hash, arrivals, i);
    }
  }

  /** With a clock that does not run backwards nobody whose request passes, and whose prompt is not in the
      batch, came before a member. */
  lemma NobodyOvertakes(v: View, envSize: nat, hash: string, arrivals: seq<Arrival>, batch: seq<Submission>, i: nat,
                        m: nat)
    requires FirstServed(v, envSize, hash, arrivals, batch) && i < |batch| && m < |arrivals|
    requires forall k, l :: 0 <= k <= l < |arrivals| ==> arrivals[k].at <= arrivals[l].at
    requires Passes(v, envSize, hash, arrivals[m].request) && arrivals[m].request.prompt !in Prompts(batch)
    ensures batch[i].arrivedAt <= arrivals[m].at
  {
    var l := FirstFor(v, envSize, hash, arrivals, m);
  }

  // ---------- the window ----------

  class GrpoWindowBatcher {
    const window: nat
    const envSize: nat
    const slots: nat
    const checkpointHash: string
    const cooldown: CooldownMap
    var valid: seq<Submission>
    var claimed: set<int>
    var rejectCounts: map<Reason, nat>
    var sealFlag: bool
    ghost var calls: nat
    ghost var sealed: bool

    function CurrentView(): View
      reads cooldown
    {
      View(cooldown.horizon, cooldown.last, window)
    }

    /** Claimed prompts are those of the accepted submissions, all distinct; every call is counted
        once; before the seal no accepted prompt is in cooldown and the flag says whether the batch
        is full. */
    ghost predicate Valid()
      reads this, cooldown
    {
      && slots > 0
      && claimed == Prompts(valid) && DistinctPrompts(valid)
      && (forall i :: 0 <= i < |valid| ==> valid[i].promptIdx >= 0)
      && calls as real == TotalCount(rejectCounts) + |valid| as real
      && (!sealed ==> NoneBlocked(valid, CurrentView()) && (sealFlag <==> |valid| >= slots))
    }

    constructor (w: nat, size: nat, b: nat, hash: string, map_: CooldownMap)
      requires b > 0
      ensures Valid() && valid == [] && !sealed && !sealFlag && calls == 0
      ensures window == w && envSize == size && slots == b && checkpointHash == hash && cooldown == map_
    {
      window, envSize, slots, checkpointHash, cooldown := w, size, b, hash, map_;
      valid, claimed, rejectCounts, sealFlag := [], {}, map[], false;
      calls, sealed := 0, false;
      new;
      assert Prompts(valid) == {};
    }

    /** The first check a request fails, in the order they are made. */
    function FirstFailure(r: Request): Option<Reason>
      reads this, cooldown
    {
      if r.window != window then Some(WindowMismatch)
      else if checkpointHash != "" && r.checkpoint != checkpointHash then Some(WrongCheckpoint)
      else if r.prompt >= envSize then Some(BadPromptIdx)
      else if InCooldown(cooldown.horizon, cooldown.last, r.prompt, window) then Some(PromptInCooldown)
      else if r.prompt in claimed then Some(Superseded)
      else r.verdict
    }

    /** For this window, and for this checkpoint if there is one. */
    ghost predicate Addressed(r: Request) {
      r.window == window && (checkpointHash == "" || r.checkpoint == checkpointHash)
    }

    method Reject(reason: Reason)
      modifies this
      ensures rejectCounts == Bump(old(rejectCounts), reason)
      ensures calls == old(calls) && valid == old(valid) && claimed == old(claimed)
      ensures sealFlag == old(sealFlag) && sealed == old(sealed)
    {
      rejectCounts := Bump(rejectCounts, reason);
    }

    /** One submission; now is the validator's clock. */
    method Accept(r: Request, now: real) returns (outcome: Option<Reason>)
      requires Valid()
      modifies this
      ensures Valid() && sealed == old(sealed) && calls == old(calls) + 1
      ensures outcome == old(FirstFailure(r))
      ensures outcome.None? <==> Passes(CurrentView(), envSize, checkpointHash, r) && r.prompt !in Prompts(old(valid))
      ensures outcome.None? <==>
        && r.window == window && (checkpointHash == "" || r.checkpoint == checkpointHash) && r.prompt < envSize
        && !(cooldown.horizon > 0 && r.prompt in cooldown.last && window - cooldown.last[r.prompt] < cooldown.horizon)
        && (forall i :: 0 <= i < |old(valid)| ==> old(valid)[i].promptIdx != r.prompt) && r.verdict.None?
      ensures r.window != window ==> outcome == Some(WindowMismatch)
      ensures r.window == window && !Addressed(r) ==> outcome == Some(WrongCheckpoint)
      ensures Addressed(r) && r.prompt >= envSize ==> outcome == Some(BadPromptIdx)
      ensures Addressed(r) && r.prompt < envSize && Blocked(CurrentView(), r.prompt) ==>
        outcome == Some(PromptInCooldown)
      ensures Addressed(r) && r.prompt < envSize && !Blocked(CurrentView(), r.prompt) ==>
        outcome == if r.prompt in Prompts(old(valid)) then Some(Superseded) else r.verdict
      ensures valid == old(valid) + if outcome.None? then [Submission(r.hotkey, r.prompt, r.merkleRoot, now)] else []
      ensures rejectCounts == if outcome.None? then old(rejectCounts) else Bump(old(rejectCounts), outcome.value)
      ensures old(sealFlag) ==> sealFlag
    {
      calls := calls + 1;
      outcome := FirstFailure(r);
      if outcome.Some? {
        TotalBump(rejectCounts, outcome.value);
        Reject(outcome.value);
        return;
      }
      Claim(Submission(r.hotkey, r.prompt, r.merkleRoot, now));
    }

    /** Takes the prompt's slot and raises the flag when the batch is full. */
    method Claim(sub: Submission)
      requires slots > 0 && claimed == Prompts(valid) && DistinctPrompts(valid)
      requires sub.promptIdx >= 0 && sub.promptIdx !in claimed && !Blocked(CurrentView(), sub.promptIdx)
      requires !sealed ==> NoneBlocked(valid, CurrentView()) && (sealFlag <==> |valid| >= slots)
      modifies this
      ensures valid == old(valid) + [sub] && claimed == Prompts(valid) && DistinctPrompts(valid)
      ensures rejectCounts == old(rejectCounts) && calls == old(calls) && sealed == old(sealed)
      ensures !sealed ==> NoneBlocked(valid, CurrentView()) && (sealFlag <==> |valid| >= slots)
      ensures old(sealFlag) ==> sealFlag
    {
      PromptsAppend(valid, sub);
      assert forall i :: 0 <= i < |valid| ==> valid[i].promptIdx in Prompts(valid);
      claimed := claimed + {sub.promptIdx};
      valid := valid + [sub];
      var eligible := DistinctEligible();
      if eligible >= slots && !sealFlag {
        sealFlag := true;
      }
    }

    method DistinctEligible() returns (n: nat)
      ensures n == |Eligible(valid, {}, CurrentView())|
      ensures DistinctPrompts(valid) && NoneBlocked(valid, CurrentView()) ==> n == |valid|
    {
      var ps := set i | 0 <= i < |valid| && !InCooldown(cooldown.horizon, cooldown.last, valid[i].promptIdx, window)
        :: valid[i].promptIdx;
      assert ps == Eligible(valid, {}, CurrentView());
      if DistinctPrompts(valid) && NoneBlocked(valid, CurrentView()) { EligibleAll(valid, CurrentView()); }
      return |ps|;
    }

    /** Seals the window: selects the batch and puts its prompts in cooldown. */
    method SealBatch(digest: Digest) returns (batch: seq<Submission>)
      requires Valid()
      modifies this, cooldown
      ensures Valid() && sealed && valid == old(valid) && sealFlag == old(sealFlag) && calls == old(calls)
      ensures batch == Select(valid, slots, old(CurrentView()), digest)
      ensures cooldown.last == Record(old(cooldown.last), PromptList(batch), window)
      ensures !old(sealed) ==> |batch| == AtMost(slots, |valid|) && (|batch| == slots <==> sealFlag)
      ensures !old(sealed) && sealFlag ==> |batch| >= slots
    {
      batch := SelectBatch(valid, slots, CurrentView(), digest);
      SelectMeaning(valid, slots, CurrentView(), digest);
      if !sealed { EligibleAll(valid, CurrentView()); }
      sealed := true;
      RecordAll(batch);
    }

    method RecordAll(batch: seq<Submission>)
      requires forall i :: 0 <= i < |batch| ==> batch[i].promptIdx >= 0
      modifies cooldown
      ensures cooldown.last == Record(old(cooldown.last), PromptList(batch), window)
    {
      for i := 0 to |batch|
        invariant Record(cooldown.last, PromptList(batch)[i..], window) ==
          Record(old(cooldown.last), PromptList(batch), window)
      {
        assert PromptList(batch)[i..][1..] == PromptList(batch)[i + 1..];
        var ok := cooldown.RecordBatched(batch[i].promptIdx, window);
      }
    }
  }
}
