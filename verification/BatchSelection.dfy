/** Choosing a window's training batch: first come, first served, one submission per prompt, no
    prompt in cooldown.
 */
module BatchSelection {
  import opened Sorting
  import opened Cooldown

  datatype Submission = Submission(hotkey: string, promptIdx: int, merkleRoot: seq<int>, arrivedAt: real)

  /** The deterministic tiebreak digest, compared as a number. */
  type Digest = Submission -> int

  /** The ordering key: arrival time, then the digest. */
  predicate KeyLe(digest: Digest, a: Submission, b: Submission) {
    a.arrivedAt < b.arrivedAt || (a.arrivedAt == b.arrivedAt && digest(a) <= digest(b))
  }

  function ByKey(digest: Digest): (Submission, Submission) -> bool {
    (a, b) => KeyLe(digest, a, b)
  }

  /** The state of cooldown a selection looks at. */
  datatype View = View(horizon: nat, last: map<int, int>, window: int)

  predicate Blocked(v: View, p: int) {
    InCooldown(v.horizon, v.last, p, v.window)
  }

  function Greedy(ordered: seq<Submission>, b: int, seen: set<int>, v: View): seq<Submission> {
    if b <= 0 || ordered == [] then []
    else
      var p := ordered[0].promptIdx;
      if p in seen || Blocked(v, p) then Greedy(ordered[1..], b, seen, v)
      else [ordered[0]] + Greedy(ordered[1..], b - 1, seen + {p}, v)
  }

  function Select(submissions: seq<Submission>, b: int, v: View, digest: Digest): seq<Submission> {
    Greedy(Sort(submissions, ByKey(digest)), b, {}, v)
  }

  /** One turn of the greedy loop. */
  lemma GreedyTurn(ordered: seq<Submission>, i: nat, batch: seq<Submission>, b: int, seen: set<int>, v: View)
    requires i < |ordered| && b > 0
    ensures var sub := ordered[i];
      batch + Greedy(ordered[i..], b, seen, v)
      == if sub.promptIdx in seen || Blocked(v, sub.promptIdx) then batch + Greedy(ordered[i + 1..], b, seen, v)
         else (batch + [sub]) + Greedy(ordered[i + 1..], b - 1, seen + {sub.promptIdx}, v)
  {
    assert ordered[i..][0] == ordered[i] && ordered[i..][1..] == ordered[i + 1..];
  }

  /** First come: in order of arrival, each before every other submission for its prompt and before every
      submission for a prompt that could have been taken and was not. */
  ghost predicate FirstCome(batch: seq<Submission>, subs: seq<Submission>, v: View, digest: Digest) {
    && (forall i, j :: 0 <= i < j < |batch| ==> NotAfter(digest, batch[i], batch[j]))
    && (forall i, s :: 0 <= i < |batch| && s in subs && s.promptIdx == batch[i].promptIdx ==>
          NotAfter(digest, batch[i], s))
    && (forall i, s :: 0 <= i < |batch| && s in subs && !Blocked(v, s.promptIdx) && s.promptIdx !in Prompts(batch) ==>
          NotAfter(digest, batch[i], s))
  }

  /** Arrived no later, and at the same moment with a digest no larger. */
  ghost predicate NotAfter(digest: Digest, a: Submission, b: Submission) {
    a.arrivedAt <= b.arrivedAt && (a.arrivedAt == b.arrivedAt ==> digest(a) <= digest(b))
  }

  method SelectBatch(submissions: seq<Submission>, b: int, v: View, digest: Digest) returns (batch: seq<Submission>)
    ensures batch == Select(submissions, b, v, digest)
  {
    if b <= 0 { return []; }
    var ordered := Sort(submissions, ByKey(digest));
    batch := [];
    var seen: set<int> := {};
    var i := 0;
    assert ordered[0..] == ordered;
    while i < |ordered|
      invariant 0 <= i <= |ordered| && |batch| <= b
      invariant batch + Greedy(ordered[i..], b - |batch|, seen, v) == Greedy(ordered, b, {}, v)
    {
      if |batch| >= b { break; }
      var sub := ordered[i];
      GreedyTurn(ordered, i, batch, b - |batch|, seen, v);
      i := i + 1;
      if sub.promptIdx in seen { continue; }
      if InCooldown(v.horizon, v.last, sub.promptIdx, v.window) { continue; }
      batch := batch + [sub];
      seen := seen + {sub.promptIdx};
    }
  }

  // ---------- what is selected ----------

  ghost function Prompts(subs: seq<Submission>): set<int> {
    set i | 0 <= i < |subs| :: subs[i].promptIdx
  }

  /** The prompts that could enter a batch. */
  ghost function Eligible(subs: seq<Submission>, seen: set<int>, v: View): set<int> {
    set p | p in Prompts(subs) && p !in seen && !Blocked(v, p)
  }

  ghost predicate DistinctPrompts(subs: seq<Submission>) {
    forall i, j :: 0 <= i < j < |subs| ==> subs[i].promptIdx != subs[j].promptIdx
  }

  lemma EligibleTail(ordered: seq<Submission>, seen: set<int>, v: View)
    requires ordered != []
    ensures var p := ordered[0].promptIdx;
      if p in seen || Blocked(v, p) then Eligible(ordered, seen, v) == Eligible(ordered[1..], seen, v)
      else Eligible(ordered, seen, v) == {p} + Eligible(ordered[1..], seen + {p}, v)
           && p !in Eligible(ordered[1..], seen + {p}, v)
  {
    forall p ensures p in Prompts(ordered) <==> p == ordered[0].promptIdx || p in Prompts(ordered[1..]) {
      if p in Prompts(ordered[1..]) {
        var i :| 0 <= i < |ordered[1..]| && ordered[1..][i].promptIdx == p;
        assert ordered[i + 1].promptIdx == p;
      }
      if p in Prompts(ordered) {
        var i :| 0 <= i < |ordered| && ordered[i].promptIdx == p;
        assert i > 0 ==> ordered[1..][i - 1].promptIdx == p;
      }
    }
  }

  function AtMost(b: int, n: nat): nat {
    if b <= 0 then 0 else if n <= b then n else b
  }

  /** One member for each of min(b, eligible prompts) prompts. */
  ghost predicate FillsSlots(batch: seq<Submission>, ordered: seq<Submission>, b: int, eligible: set<int>) {
    && |batch| == AtMost(b, |eligible|)
    && DistinctPrompts(batch)
    && (forall i :: 0 <= i < |batch| ==> batch[i] in ordered && batch[i].promptIdx in eligible)
  }

  lemma TakeFillsSlots(head: Submission, more: seq<Submission>, rest: seq<Submission>, b: int, eligible: set<int>)
    requires b > 0 && FillsSlots(more, rest, b - 1, eligible) && head.promptIdx !in eligible
    ensures FillsSlots([head] + more, [head] + rest, b, {head.promptIdx} + eligible)
  {
    var batch := [head] + more;
    forall i | 0 <= i < |batch| ensures batch[i] in [head] + rest && batch[i].promptIdx in {head.promptIdx} + eligible {
      assert i > 0 ==> batch[i] == more[i - 1] && more[i - 1] in rest;
    }
  }

  lemma {:induction false} GreedyFillsSlots(ordered: seq<Submission>, b: int, seen: set<int>, v: View)
    ensures FillsSlots(Greedy(ordered, b, seen, v), ordered, b, Eligible(ordered, seen, v))
  {
    if ordered == [] {
      assert Eligible(ordered, seen, v) == {};
    } else if b > 0 {
      var head, rest := ordered[0], ordered[1..];
      assert ordered == [head] + rest;
      EligibleTail(ordered, seen, v);
      if head.promptIdx in seen || Blocked(v, head.promptIdx) {
        GreedyFillsSlots(rest, b, seen, v);
      } else {
        GreedyFillsSlots(rest, b - 1, seen + {head.promptIdx}, v);
        TakeFillsSlots(head, Greedy(rest, b - 1, seen + {head.promptIdx}, v), rest, b,
                       Eligible(rest, seen + {head.promptIdx}, v));
      }
    }
  }

  /** A submission that may enter and whose prompt was not taken before position i. */
  ghost predicate StillOpen(batch: seq<Submission>, i: nat, s: Submission, seen: set<int>, v: View)
    requires i <= |batch|
  {
    && s.promptIdx !in seen && !Blocked(v, s.promptIdx)
    && forall j :: 0 <= j < i ==> batch[j].promptIdx != s.promptIdx
  }

  /** Each member comes before every submission that was still open when it was taken. */
  lemma {:induction false} TakenIsEarliest(ordered: seq<Submission>, b: int, seen: set<int>, v: View,
                                           le: (Submission, Submission) -> bool, i: nat, s: Submission)
    requires SortedBy(ordered, le) && le(s, s) && s in ordered
    requires i < |Greedy(ordered, b, seen, v)| && StillOpen(Greedy(ordered, b, seen, v), i, s, seen, v)
    ensures le(Greedy(ordered, b, seen, v)[i], s)
  {
    var head, rest := ordered[0], ordered[1..];
    var batch := Greedy(ordered, b, seen, v);
    assert s == head || s in rest;
    if head.promptIdx in seen || Blocked(v, head.promptIdx) {
      TakenIsEarliest(rest, b, seen, v, le, i, s);
    } else if i == 0 {
      var k :| 0 <= k < |ordered| && ordered[k] == s;
    } else {
      assert batch[0] == head;
      var more := Greedy(rest, b - 1, seen + {head.promptIdx}, v);
      assert forall j :: 0 <= j < i - 1 ==> more[j] == batch[j + 1];
      TakenIsEarliest(rest, b - 1, seen + {head.promptIdx}, v, le, i - 1, s);
    }
  }

  lemma PromptsCons(head: Submission, more: seq<Submission>)
    ensures Prompts([head] + more) == {head.promptIdx} + Prompts(more)
  {
    var all := [head] + more;
    forall p ensures p in Prompts(all) <==> p == head.promptIdx || p in Prompts(more) {
      if p in Prompts(more) {
        var i :| 0 <= i < |more| && more[i].promptIdx == p;
        assert all[i + 1].promptIdx == p;
      }
      assert all[0] == head;
      if p in Prompts(all) {
        var i :| 0 <= i < |all| && all[i].promptIdx == p;
        assert i > 0 ==> more[i - 1].promptIdx == p;
      }
    }
  }

  lemma ByKeyTotal(digest: Digest)
    ensures TotalPreorder(ByKey(digest))
  {
  }

  lemma SelectMembers(subs: seq<Submission>, b: int, v: View, digest: Digest)
    ensures FillsSlots(Select(subs, b, v, digest), subs, b, Eligible(subs, {}, v))
  {
    var ordered := Sort(subs, ByKey(digest));
    GreedyFillsSlots(ordered, b, {}, v);
    forall s ensures s in ordered <==> s in subs { SortMember(subs, ByKey(digest), s); }
    SamePrompts(ordered, subs);
  }

  lemma SelectEarliest(subs: seq<Submission>, b: int, v: View, digest: Digest, i: nat, s: Submission)
    requires i < |Select(subs, b, v, digest)| && s in subs && StillOpen(Select(subs, b, v, digest), i, s, {}, v)
    ensures NotAfter(digest, Select(subs, b, v, digest)[i], s)
  {
    ByKeyTotal(digest);
    SortSorted(subs, ByKey(digest));
    SortMember(subs, ByKey(digest), s);
    TakenIsEarliest(Sort(subs, ByKey(digest)), b, {}, v, ByKey(digest), i, s);
  }

  lemma BeforeSamePrompt(subs: seq<Submission>, b: int, v: View, digest: Digest, i: nat, s: Submission)
    requires i < |Select(subs, b, v, digest)| && s in subs && s.promptIdx == Select(subs, b, v, digest)[i].promptIdx
    ensures NotAfter(digest, Select(subs, b, v, digest)[i], s)
  {
    SelectMembers(subs, b, v, digest);
    assert StillOpen(Select(subs, b, v, digest), i, s, {}, v);
    SelectEarliest(subs, b, v, digest, i, s);
  }

  lemma BeforeLeftOut(subs: seq<Submission>, b: int, v: View, digest: Digest, i: nat, s: Submission)
    requires i < |Select(subs, b, v, digest)| && s in subs && !Blocked(v, s.promptIdx)
    requires s.promptIdx !in Prompts(Select(subs, b, v, digest))
    ensures NotAfter(digest, Select(subs, b, v, digest)[i], s)
  {
    assert StillOpen(Select(subs, b, v, digest), i, s, {}, v);
    SelectEarliest(subs, b, v, digest, i, s);
  }

  lemma BeforeLater(subs: seq<Submission>, b: int, v: View, digest: Digest, i: nat, j: nat)
    requires i < j < |Select(subs, b, v, digest)|
    ensures NotAfter(digest, Select(subs, b, v, digest)[i], Select(subs, b, v, digest)[j])
  {
    var batch := Select(subs, b, v, digest);
    SelectMembers(subs, b, v, digest);
    assert StillOpen(batch, i, batch[j], {}, v);
    SelectEarliest(subs, b, v, digest, i, batch[j]);
  }

  lemma SelectFirstCome(subs: seq<Submission>, b: int, v: View, digest: Digest)
    ensures FirstCome(Select(subs, b, v, digest), subs, v, digest)
  {
    var batch := Select(subs, b, v, digest);
    forall i, j | 0 <= i < j < |batch| ensures NotAfter(digest, batch[i], batch[j]) {
      BeforeLater(subs, b, v, digest, i, j);
    }
    forall i, s | 0 <= i < |batch| && s in subs && s.promptIdx == batch[i].promptIdx
      ensures NotAfter(digest, batch[i], s)
    {
      BeforeSamePrompt(subs, b, v, digest, i, s);
    }
    forall i, s | 0 <= i < |batch| && s in subs && !Blocked(v, s.promptIdx) && s.promptIdx !in Prompts(batch)
      ensures NotAfter(digest, batch[i], s)
    {
      BeforeLeftOut(subs, b, v, digest, i, s);
    }
  }

  /** The contract of select_batch. */
  lemma SelectMeaning(subs: seq<Submission>, b: int, v: View, digest: Digest)
    ensures var batch := Select(subs, b, v, digest);
      && |batch| == AtMost(b, |Eligible(subs, {}, v)|)
      && DistinctPrompts(batch)
      && (forall i :: 0 <= i < |batch| ==> batch[i] in subs && !Blocked(v, batch[i].promptIdx))
      && FirstCome(batch, subs, v, digest)
  {
    SelectMembers(subs, b, v, digest);
    SelectFirstCome(subs, b, v, digest);
  }

  lemma SamePrompts(xs: seq<Submission>, ys: seq<Submission>)
    requires forall s :: s in xs <==> s in ys
    ensures Prompts(xs) == Prompts(ys)
  {
    PromptsIncluded(xs, ys);
    PromptsIncluded(ys, xs);
  }

  lemma PromptsIncluded(xs: seq<Submission>, ys: seq<Submission>)
    requires forall s :: s in xs ==> s in ys
    ensures Prompts(xs) <= Prompts(ys)
  {
    forall p | p in Prompts(xs) ensures p in Prompts(ys) {
      var i :| 0 <= i < |xs| && xs[i].promptIdx == p;
      assert xs[i] in ys;
      var j :| 0 <= j < |ys| && ys[j] == xs[i];
    }
  }

  /** With distinct keys the batch does not depend on the order submissions are listed in. */
  lemma SelectOrderIndependent(xs: seq<Submission>, ys: seq<Submission>, b: int, v: View, digest: Digest)
    requires multiset(xs) == multiset(ys) && NoTies(xs, ByKey(digest))
    ensures Select(xs, b, v, digest) == Select(ys, b, v, digest)
  {
    ByKeyTotal(digest);
    SortOrderIndependent(xs, ys, ByKey(digest));
  }
}
