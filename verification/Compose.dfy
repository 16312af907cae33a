/** Composing a submission from a prompt's rollouts, binary rewards: m rollouts with distinct tokens, k
    correct with k in a band, few members whose termination is in doubt.
 */
module Compose {
  import opened Wrappers
  import opened Sorting

  datatype Rollout = Rollout(
    tokens: seq<nat>, reward: real, btOk: bool, inEos: bool,
    q10: Option<real>, median: Option<real>, pStop: Option<real>)

  /** Group size, band, tolerance, local distribution floors, and whether the environment forces
      answers (then termination is not gated here). */
  datatype Limits = Limits(m: nat, kMin: nat, kMax: nat, maxNonBt: int, minQ10: real, minMedian: real, bftEnv: bool)

  predicate ValidLimits(c: Limits) {
    c.kMax <= c.m
  }

  // ---------- which rollouts are kept ----------

  function Terminating(c: Limits, rs: seq<Rollout>): seq<Rollout> {
    if c.bftEnv then rs else Filter<Rollout>(rs, (r: Rollout) => r.inEos)
  }

  /** The first rollout with each token list. */
  function Dedup(rs: seq<Rollout>): seq<Rollout> {
    if rs == [] then []
    else
      var before, last := Dedup(rs[..|rs| - 1]), rs[|rs| - 1];
      if Seen(rs[..|rs| - 1], last.tokens) then before else before + [last]
  }

  predicate Seen(rs: seq<Rollout>, tokens: seq<nat>) {
    exists i :: 0 <= i < |rs| && rs[i].tokens == tokens
  }

  function PassesLocal(c: Limits): Rollout -> bool {
    (r: Rollout) =>
      !(c.minQ10 > 0.0 && (r.q10.None? || r.q10.value < c.minQ10))
      && !(c.minMedian > 0.0 && (r.median.None? || r.median.value < c.minMedian))
  }

  function Kept(c: Limits, rs: seq<Rollout>): seq<Rollout> {
    Filter<Rollout>(Dedup(Terminating(c, rs)), PassesLocal(c))
  }

  ghost predicate DistinctTokens(rs: seq<Rollout>) {
    forall i, j :: 0 <= i < j < |rs| ==> rs[i].tokens != rs[j].tokens
  }

  method DropDuplicates(rs: seq<Rollout>) returns (r: seq<Rollout>)
    ensures r == Dedup(rs)
  {
    var seen: set<seq<nat>> := {};
    r := [];
    for i := 0 to |rs|
      invariant r == Dedup(rs[..i])
      invariant forall t :: t in seen <==> Seen(rs[..i], t)
    {
      assert rs[..i + 1][..i] == rs[..i];
      forall t ensures Seen(rs[..i + 1], t) <==> Seen(rs[..i], t) || rs[i].tokens == t {
        SeenAppend(rs[..i], rs[i], t);
        assert rs[..i + 1] == rs[..i] + [rs[i]];
      }
      if rs[i].tokens !in seen {
        seen := seen + {rs[i].tokens};
        r := r + [rs[i]];
      }
    }
    assert rs[..|rs|] == rs;
  }

  lemma SeenAppend(rs: seq<Rollout>, r: Rollout, t: seq<nat>)
    ensures Seen(rs + [r], t) <==> Seen(rs, t) || r.tokens == t
  {
    var all := rs + [r];
    if Seen(rs, t) {
      var i :| 0 <= i < |rs| && rs[i].tokens == t;
      assert all[i].tokens == t;
    }
    assert all[|rs|] == r;
  }

  /** What is left has every token list of the input exactly once, and nothing else. */
  lemma {:induction false} DedupMeaning(rs: seq<Rollout>)
    ensures DistinctTokens(Dedup(rs))
    ensures forall r :: r in Dedup(rs) ==> r in rs
    ensures forall t :: Seen(Dedup(rs), t) <==> Seen(rs, t)
  {
    if rs != [] {
      var init, last := rs[..|rs| - 1], rs[|rs| - 1];
      assert rs == init + [last];
      DedupMeaning(init);
      forall t ensures Seen(Dedup(rs), t) <==> Seen(rs, t) {
        SeenAppend(init, last, t);
        SeenAppend(Dedup(init), last, t);
      }
      if !Seen(init, last.tokens) {
        assert !Seen(Dedup(init), last.tokens);
      }
    }
  }

  /** Of the rollouts with one token list the first is left. */
  lemma {:induction false} DedupFirst(rs: seq<Rollout>, r: Rollout)
    ensures r in Dedup(rs) <==> exists i :: 0 <= i < |rs| && rs[i] == r && !Seen(rs[..i], r.tokens)
  {
    if rs != [] {
      var n := |rs| - 1;
      DedupFirst(rs[..n], r);
      assert forall i :: 0 <= i <= n ==> rs[..n][..i] == rs[..i];
      if i :| 0 <= i < n && rs[..n][i] == r && !Seen(rs[..n][..i], r.tokens) {
        assert rs[i] == r && !Seen(rs[..i], r.tokens);
      }
      if i :| 0 <= i < n && rs[i] == r && !Seen(rs[..i], r.tokens) {
        assert rs[..n][i] == r && !Seen(rs[..n][..i], r.tokens);
      }
      assert rs[..n + 1] == rs;
    }
  }

  /** At or above each floor that is switched on, where a missing value is below every floor. */
  ghost predicate AboveFloors(c: Limits, r: Rollout) {
    && (c.minQ10 > 0.0 ==> r.q10.Some? && r.q10.value >= c.minQ10)
    && (c.minMedian > 0.0 ==> r.median.Some? && r.median.value >= c.minMedian)
  }

  lemma KeptMeaning(c: Limits, rs: seq<Rollout>)
    ensures DistinctTokens(Kept(c, rs))
    ensures forall r :: r in Kept(c, rs) ==> r in rs && (c.bftEnv || r.inEos) && AboveFloors(c, r)
    ensures forall r :: r in Dedup(Terminating(c, rs)) && AboveFloors(c, r) ==> r in Kept(c, rs)
    ensures forall r :: r in rs && (c.bftEnv || r.inEos) ==> r in Terminating(c, rs)
  {
    DedupMeaning(Terminating(c, rs));
    FilterMembers(rs, (r: Rollout) => r.inEos);
    FilterMembers(Dedup(Terminating(c, rs)), PassesLocal(c));
    FilterDistinct(Dedup(Terminating(c, rs)), PassesLocal(c));
  }

  // ---------- lists with distinct tokens ----------

  lemma {:induction false} FilterDistinct(rs: seq<Rollout>, p: Rollout -> bool)
    requires DistinctTokens(rs)
    ensures DistinctTokens(Filter<Rollout>(rs, p))
  {
    if rs != [] {
      assert DistinctTokens(rs[1..]);
      FilterDistinct(rs[1..], p);
      FilterMembers(rs[1..], p);
      var rest := Filter<Rollout>(rs[1..], p);
      forall i | 0 <= i < |rest| ensures rest[i].tokens != rs[0].tokens {
        assert rest[i] in rs[1..];
      }
    }
  }

  lemma DifferentTokens(kept: seq<Rollout>, a: Rollout, b: Rollout)
    requires DistinctTokens(kept) && a in kept && b in kept && a != b
    ensures a.tokens != b.tokens
  {
    var i, j :| 0 <= i < |kept| && 0 <= j < |kept| && kept[i] == a && kept[j] == b;
    assert i < j || j < i;
  }

  lemma SortDistinct(rs: seq<Rollout>, le: (Rollout, Rollout) -> bool)
    requires DistinctTokens(rs)
    ensures DistinctTokens(Sort<Rollout>(rs, le))
  {
    var s := Sort<Rollout>(rs, le);
    SortMultiset(rs, le);
    DistinctByMultiset(rs, s);
    forall i, j | 0 <= i < j < |s| ensures s[i].tokens != s[j].tokens {
      SortMember(rs, le, s[i]);
      SortMember(rs, le, s[j]);
      DifferentTokens(rs, s[i], s[j]);
    }
  }

  /** A list with distinct tokens fits in every list that has its members. */
  lemma {:induction false} DistinctFits(a: seq<Rollout>, b: seq<Rollout>)
    requires DistinctTokens(a) && forall x :: x in a ==> x in b
    ensures |a| <= |b|
  {
    if a != [] {
      assert a[0] in b;
      var i :| 0 <= i < |b| && b[i] == a[0];
      var rest := b[..i] + b[i + 1..];
      forall x | x in a[1..] ensures x in rest {
        assert x in b && x != a[0];
        var j :| 0 <= j < |b| && b[j] == x;
        assert j < i ==> rest[j] == x;
        assert j > i ==> rest[j - 1] == x;
      }
      assert DistinctTokens(a[1..]);
      DistinctFits(a[1..], rest);
    }
  }

  // ---------- counting ----------

  function Num(rs: seq<Rollout>, p: Rollout -> bool): nat {
    |Filter<Rollout>(rs, p)|
  }

  function IsNonBt(): Rollout -> bool { (r: Rollout) => !r.btOk }
  function IsCorrect(): Rollout -> bool { (r: Rollout) => r.reward == 1.0 }

  /** Membership of one of the four lists: correct or wrong, termination trusted or not. */
  function InBucket(correct: bool, bt: bool): Rollout -> bool {
    (r: Rollout) => r.btOk == bt && r.reward == if correct then 1.0 else 0.0
  }

  lemma {:induction false} NumConcat(a: seq<Rollout>, b: seq<Rollout>, p: Rollout -> bool)
    ensures Num(a + b, p) == Num(a, p) + Num(b, p)
  {
    if a == [] {
      assert a + b == b;
    } else {
      assert (a + b)[1..] == a[1..] + b;
      NumConcat(a[1..], b, p);
    }
  }

  lemma {:induction false} NumUniform(rs: seq<Rollout>, p: Rollout -> bool, yes: bool)
    requires forall r :: r in rs ==> p(r) == yes
    ensures Num(rs, p) == if yes then |rs| else 0
  {
    if rs != [] {
      assert rs[0] in rs;
      NumUniform(rs[1..], p, yes);
    }
  }

  lemma {:induction false} NumSplit(rs: seq<Rollout>, p: Rollout -> bool, q: Rollout -> bool, whole: Rollout -> bool)
    requires forall r :: r in rs ==> (whole(r) <==> p(r) || q(r)) && !(p(r) && q(r))
    ensures Num(rs, whole) == Num(rs, p) + Num(rs, q)
  {
    if rs != [] {
      assert rs[0] in rs;
      NumSplit(rs[1..], p, q, whole);
    }
  }

  /** A group's members of one kind are no more than those there are. */
  lemma NumFits(g: seq<Rollout>, kept: seq<Rollout>, p: Rollout -> bool)
    requires DistinctTokens(g) && forall r :: r in g ==> r in kept
    ensures Num(g, p) <= Num(kept, p)
  {
    FilterMembers(g, p);
    FilterMembers(kept, p);
    FilterDistinct(g, p);
    DistinctFits(Filter<Rollout>(g, p), Filter<Rollout>(kept, p));
  }

  // ---------- what is chosen for a given k ----------

  function OrZero(x: Option<real>): real { match x case Some(v) => v case None => 0.0 }

  /** Highest local quantile first, then highest stop probability. */
  predicate BtLe(a: Rollout, b: Rollout) {
    OrZero(a.q10) > OrZero(b.q10) || (OrZero(a.q10) == OrZero(b.q10) && OrZero(a.pStop) >= OrZero(b.pStop))
  }

  /** Ended by itself first, then highest stop probability. */
  predicate NonBtLe(a: Rollout, b: Rollout) {
    (a.inEos && !b.inEos) || (a.inEos == b.inEos && OrZero(a.pStop) >= OrZero(b.pStop))
  }

  function Bucket(kept: seq<Rollout>, correct: bool, bt: bool): seq<Rollout> {
    Sort<Rollout>(Filter<Rollout>(kept, InBucket(correct, bt)), if bt then BtLe else NonBtLe)
  }

  /** All correct, or all wrong, rollouts by preference: trusted ones first. */
  function Line(kept: seq<Rollout>, correct: bool): seq<Rollout> {
    Bucket(kept, correct, true) + Bucket(kept, correct, false)
  }

  /** The first n of a line. */
  function Front(kept: seq<Rollout>, correct: bool, n: nat): seq<Rollout>
    requires n <= |Line(kept, correct)|
  {
    Line(kept, correct)[..n]
  }

  ghost function ValueOf(x: Option<real>): real { if x.Some? then x.value else 0.0 }

  /** A trusted rollout is preferred to an untrusted one, a trusted one with the higher local quantile, or with
      the same and no lower stop probability; an untrusted one that ended by itself, or did so alike and has no
      lower stop probability. */
  ghost predicate Preferred(r: Rollout, s: Rollout) {
    && (s.btOk ==> r.btOk)
    && (r.btOk && s.btOk ==>
          && ValueOf(r.q10) >= ValueOf(s.q10)
          && (ValueOf(r.q10) == ValueOf(s.q10) ==> ValueOf(r.pStop) >= ValueOf(s.pStop)))
    && (!r.btOk && !s.btOk ==>
          && (s.inEos ==> r.inEos)
          && (r.inEos == s.inEos ==> ValueOf(r.pStop) >= ValueOf(s.pStop)))
  }

  lemma BucketSorted(kept: seq<Rollout>, correct: bool, bt: bool, i: nat, j: nat)
    requires i < j < |Bucket(kept, correct, bt)|
    ensures Preferred(Bucket(kept, correct, bt)[i], Bucket(kept, correct, bt)[j])
  {
    var le := if bt then BtLe else NonBtLe;
    assert TotalPreorder(le);
    SortSorted(Filter<Rollout>(kept, InBucket(correct, bt)), le);
    BucketFacts(kept, correct, bt);
    var b := Bucket(kept, correct, bt);
    assert b[i] in b && b[j] in b && le(b[i], b[j]);
  }

  /** A line is in order of preference. */
  lemma LinePreferred(kept: seq<Rollout>, correct: bool, i: nat, j: nat)
    requires i < j < |Line(kept, correct)|
    ensures Preferred(Line(kept, correct)[i], Line(kept, correct)[j])
  {
    var a, b := Bucket(kept, correct, true), Bucket(kept, correct, false);
    if j < |a| {
      BucketSorted(kept, correct, true, i, j);
    } else if i >= |a| {
      BucketSorted(kept, correct, false, i - |a|, j - |a|);
    } else {
      BucketFacts(kept, correct, true);
      BucketFacts(kept, correct, false);
      assert a[i] in a && b[j - |a|] in b;
    }
  }

  lemma LineHas(kept: seq<Rollout>, correct: bool, r: Rollout)
    requires r in kept && r.reward == if correct then 1.0 else 0.0
    ensures r in Line(kept, correct)
  {
    BucketFacts(kept, correct, true);
    BucketFacts(kept, correct, false);
    assert InBucket(correct, r.btOk)(r);
  }

  lemma FrontPreferred(kept: seq<Rollout>, correct: bool, n: nat, r: Rollout, s: Rollout)
    requires n <= |Line(kept, correct)| && r in Front(kept, correct, n)
    requires s in Line(kept, correct) && s !in Front(kept, correct, n)
    ensures Preferred(r, s)
  {
    var line := Line(kept, correct);
    var i :| 0 <= i < n && line[i] == r;
    var j :| 0 <= j < |line| && line[j] == s;
    assert forall t :: 0 <= t < n ==> line[..n][t] == line[t];
    assert j >= n;
    LinePreferred(kept, correct, i, j);
  }

  /** Nobody left out is preferred to a chosen rollout of the same reward. */
  lemma ChosenPreferred(c: Limits, kept: seq<Rollout>, k: nat, r: Rollout, s: Rollout)
    requires Enough(c, kept, k) && r in Chosen(c, kept, k) && s in kept && s !in Chosen(c, kept, k)
    requires s.reward == r.reward
    ensures Preferred(r, s)
  {
    var correct := r in Front(kept, true, k);
    var front := if correct then Front(kept, true, k) else Front(kept, false, c.m - k);
    assert r in front && s !in front;
    LineRewards(kept, correct, r);
    LineHas(kept, correct, s);
    FrontPreferred(kept, correct, |front|, r, s);
  }

  lemma AllPreferred(c: Limits, kept: seq<Rollout>, k: nat)
    requires Enough(c, kept, k)
    ensures var chosen := Chosen(c, kept, k);
      forall x, y :: x in chosen && y in kept && y !in chosen && x.reward == y.reward ==> Preferred(x, y)
  {
    var chosen := Chosen(c, kept, k);
    forall x, y | x in chosen && y in kept && y !in chosen && x.reward == y.reward ensures Preferred(x, y) {
      ChosenPreferred(c, kept, k, x, y);
    }
  }

  lemma LineRewards(kept: seq<Rollout>, correct: bool, r: Rollout)
    requires r in Line(kept, correct)
    ensures r.reward == if correct then 1.0 else 0.0
  {
    BucketFacts(kept, correct, true);
    BucketFacts(kept, correct, false);
  }

  predicate Enough(c: Limits, kept: seq<Rollout>, k: nat) {
    k <= c.m && k <= |Line(kept, true)| && c.m - k <= |Line(kept, false)|
  }

  function Chosen(c: Limits, kept: seq<Rollout>, k: nat): seq<Rollout>
    requires Enough(c, kept, k)
  {
    Front(kept, true, k) + Front(kept, false, c.m - k)
  }

  predicate Accepts(c: Limits, kept: seq<Rollout>, k: nat) {
    Enough(c, kept, k) && Num(Chosen(c, kept, k), IsNonBt()) <= c.maxNonBt
  }

  /** A group the validator can take: m of the given rollouts with distinct tokens, k correct, the
      others wrong, not too many untrusted. */
  ghost predicate IsGroup(c: Limits, kept: seq<Rollout>, g: seq<Rollout>, k: nat) {
    && |g| == c.m && DistinctTokens(g)
    && (forall r :: r in g ==> r in kept && (r.reward == 1.0 || r.reward == 0.0))
    && Num(g, IsCorrect()) == k
    && Num(g, IsNonBt()) <= c.maxNonBt
  }

  lemma BucketFacts(kept: seq<Rollout>, correct: bool, bt: bool)
    ensures |Bucket(kept, correct, bt)| == Num(kept, InBucket(correct, bt))
    ensures forall r :: r in Bucket(kept, correct, bt) <==> r in kept && InBucket(correct, bt)(r)
    ensures DistinctTokens(kept) ==> DistinctTokens(Bucket(kept, correct, bt))
  {
    var f, le := Filter<Rollout>(kept, InBucket(correct, bt)), if bt then BtLe else NonBtLe;
    SortMultiset(f, le);
    forall r ensures r in Bucket(kept, correct, bt) <==> r in kept && InBucket(correct, bt)(r) {
      SortMember(f, le, r);
      FilterMembers(kept, InBucket(correct, bt));
    }
    if DistinctTokens(kept) {
      FilterDistinct(kept, InBucket(correct, bt));
      SortDistinct(f, le);
    }
  }

  function AtLeastZero(x: int): nat { if x > 0 then x else 0 }

  /** Members of kept with one reward and distinct tokens. */
  ghost predicate OfKind(kept: seq<Rollout>, correct: bool, s: seq<Rollout>) {
    && (forall r :: r in s ==> r in kept && r.reward == if correct then 1.0 else 0.0)
    && DistinctTokens(s)
  }

  /** The first n of a line: members of kept with that reward and distinct tokens, as few untrusted as
      the numbers allow. */
  lemma LineFacts(kept: seq<Rollout>, correct: bool, n: nat)
    requires n <= |Line(kept, correct)| && DistinctTokens(kept)
    ensures OfKind(kept, correct, Front(kept, correct, n))
    ensures Num(Front(kept, correct, n), IsNonBt()) == AtLeastZero(n - Num(kept, InBucket(correct, true)))
  {
    BucketFacts(kept, correct, true);
    BucketFacts(kept, correct, false);
    FrontFacts(kept, correct, Bucket(kept, correct, true), Bucket(kept, correct, false), n);
  }

  lemma FrontFacts(kept: seq<Rollout>, correct: bool, a: seq<Rollout>, b: seq<Rollout>, n: nat)
    requires n <= |a| + |b| && DistinctTokens(kept) && OfKind(kept, correct, a) && OfKind(kept, correct, b)
    requires (forall r :: r in a ==> r.btOk) && (forall r :: r in b ==> !r.btOk)
    ensures OfKind(kept, correct, (a + b)[..n]) && Num((a + b)[..n], IsNonBt()) == AtLeastZero(n - |a|)
  {
    var x, y := if n <= |a| then a[..n] else a, if n <= |a| then [] else b[..n - |a|];
    assert (a + b)[..n] == x + y;
    forall r | r in x ensures r in a { }
    forall r | r in y ensures r in b { }
    forall r, t | r in x && t in y ensures r.tokens != t.tokens { DifferentTokens(kept, r, t); }
    JoinDistinct(x, y);
    NumUniform(x, IsNonBt(), false);
    NumUniform(y, IsNonBt(), true);
    NumConcat(x, y, IsNonBt());
  }

  lemma JoinDistinct(x: seq<Rollout>, y: seq<Rollout>)
    requires DistinctTokens(x) && DistinctTokens(y) && forall r, t :: r in x && t in y ==> r.tokens != t.tokens
    ensures DistinctTokens(x + y)
  {
    forall i, j | 0 <= i < j < |x + y| ensures (x + y)[i].tokens != (x + y)[j].tokens {
      if i < |x| <= j { assert x[i] in x && y[j - |x|] in y; }
    }
  }

  lemma ChosenNonBt(c: Limits, kept: seq<Rollout>, k: nat)
    requires Enough(c, kept, k) && DistinctTokens(kept)
    ensures Num(Chosen(c, kept, k), IsNonBt())
         == AtLeastZero(k - Num(kept, InBucket(true, true))) + AtLeastZero(c.m - k - Num(kept, InBucket(false, true)))
  {
    LineFacts(kept, true, k);
    LineFacts(kept, false, c.m - k);
    NumConcat(Front(kept, true, k), Front(kept, false, c.m - k), IsNonBt());
  }

  lemma ChosenMembers(c: Limits, kept: seq<Rollout>, k: nat)
    requires Enough(c, kept, k) && DistinctTokens(kept)
    ensures DistinctTokens(Chosen(c, kept, k))
    ensures forall r :: r in Chosen(c, kept, k) ==> r in kept && (r.reward == 1.0 || r.reward == 0.0)
  {
    var x, y := Front(kept, true, k), Front(kept, false, c.m - k);
    LineFacts(kept, true, k);
    LineFacts(kept, false, c.m - k);
    JoinLines(kept, x, y);
  }

  lemma JoinLines(kept: seq<Rollout>, x: seq<Rollout>, y: seq<Rollout>)
    requires DistinctTokens(kept) && OfKind(kept, true, x) && OfKind(kept, false, y)
    ensures DistinctTokens(x + y)
    ensures forall r :: r in x + y ==> r in kept && (r.reward == 1.0 || r.reward == 0.0)
  {
    forall r, t | r in x && t in y ensures r.tokens != t.tokens { DifferentTokens(kept, r, t); }
    JoinDistinct(x, y);
  }

  lemma ChosenCorrect(c: Limits, kept: seq<Rollout>, k: nat)
    requires Enough(c, kept, k) && DistinctTokens(kept)
    ensures Num(Chosen(c, kept, k), IsCorrect()) == k
  {
    LineFacts(kept, true, k);
    LineFacts(kept, false, c.m - k);
    CountCorrect(kept, Front(kept, true, k), Front(kept, false, c.m - k));
  }

  lemma CountCorrect(kept: seq<Rollout>, x: seq<Rollout>, y: seq<Rollout>)
    requires OfKind(kept, true, x) && OfKind(kept, false, y)
    ensures Num(x + y, IsCorrect()) == |x|
  {
    NumUniform(x, IsCorrect(), true);
    NumUniform(y, IsCorrect(), false);
    NumConcat(x, y, IsCorrect());
  }

  /** What is chosen is a group. */
  lemma ChosenIsGroup(c: Limits, kept: seq<Rollout>, k: nat)
    requires Accepts(c, kept, k) && DistinctTokens(kept)
    ensures IsGroup(c, kept, Chosen(c, kept, k), k)
  {
    ChosenMembers(c, kept, k);
    ChosenCorrect(c, kept, k);
  }

  /** How a group's numbers divide over the four lists. */
  lemma GroupCounts(c: Limits, kept: seq<Rollout>, g: seq<Rollout>, k: nat)
    requires IsGroup(c, kept, g, k)
    ensures Num(g, InBucket(true, true)) + Num(g, InBucket(true, false)) == k
    ensures Num(g, InBucket(false, true)) + Num(g, InBucket(false, false)) == c.m - k
    ensures Num(g, InBucket(true, false)) + Num(g, InBucket(false, false)) == Num(g, IsNonBt())
  {
    var isWrong := (r: Rollout) => r.reward == 0.0;
    var any := (r: Rollout) => true;
    NumSplit(g, InBucket(true, true), InBucket(true, false), IsCorrect());
    NumSplit(g, InBucket(false, true), InBucket(false, false), isWrong);
    NumSplit(g, IsCorrect(), isWrong, any);
    NumUniform(g, any, true);
    NumSplit(g, InBucket(true, false), InBucket(false, false), IsNonBt());
  }

  /** If there is any group with k correct, the choice for k is accepted. */
  lemma GroupIsAccepted(c: Limits, kept: seq<Rollout>, g: seq<Rollout>, k: nat)
    requires DistinctTokens(kept) && IsGroup(c, kept, g, k)
    ensures Accepts(c, kept, k)
  {
    GroupCounts(c, kept, g, k);
    NumFits(g, kept, InBucket(true, true));
    NumFits(g, kept, InBucket(true, false));
    NumFits(g, kept, InBucket(false, true));
    NumFits(g, kept, InBucket(false, false));
    BucketFacts(kept, true, true);
    BucketFacts(kept, true, false);
    BucketFacts(kept, false, true);
    BucketFacts(kept, false, false);
    ChosenNonBt(c, kept, k);
  }

  // ---------- the order of the k's ----------

  function Distance(mid: int, k: int): nat { if k >= mid then k - mid else mid - k }

  function ByDistance(mid: int): (nat, nat) -> bool { (a: nat, b: nat) => Distance(mid, a) <= Distance(mid, b) }

  /** Nearer the middle, or as near and smaller. */
  predicate Before(mid: int, a: nat, b: nat) {
    Distance(mid, a) < Distance(mid, b) || (Distance(mid, a) == Distance(mid, b) && a <= b)
  }

  function ByBefore(mid: int): (nat, nat) -> bool { (a: nat, b: nat) => Before(mid, a, b) }

  function Range(lo: nat, hi: nat): seq<nat>
    decreases hi - lo
  {
    if lo >= hi then [] else [lo] + Range(lo + 1, hi)
  }

  lemma {:induction false} RangeMembers(lo: nat, hi: nat)
    ensures forall x: nat :: x in Range(lo, hi) <==> lo <= x < hi
    decreases hi - lo
  {
    if lo < hi { RangeMembers(lo + 1, hi); }
  }

  /** Sorting the band by distance breaks ties towards the smaller k, since the sort is stable. */
  lemma {:induction false} StableTies(lo: nat, hi: nat, mid: int)
    ensures Sort<nat>(Range(lo, hi), ByDistance(mid)) == Sort<nat>(Range(lo, hi), ByBefore(mid))
    decreases hi - lo
  {
    if lo < hi {
      var rest := Range(lo + 1, hi);
      StableTies(lo + 1, hi, mid);
      RangeMembers(lo + 1, hi);
      assert Range(lo, hi)[1..] == rest;
      var sorted := Sort<nat>(rest, ByBefore(mid));
      forall y | y in sorted
        ensures ByDistance(mid)(lo, y) == ByBefore(mid)(lo, y)
      {
        SortMember(rest, ByBefore(mid), y);
      }
      InsertCongruence(lo, sorted, ByDistance(mid), ByBefore(mid));
    }
  }

  function KOrder(c: Limits): seq<nat> {
    Sort<nat>(Range(c.kMin, c.kMax + 1), ByDistance((c.kMin + c.kMax) / 2))
  }

  lemma KOrderFacts(c: Limits)
    ensures forall k: nat :: k in KOrder(c) <==> c.kMin <= k <= c.kMax
    ensures SortedBy(KOrder(c), ByBefore((c.kMin + c.kMax) / 2))
  {
    var mid := (c.kMin + c.kMax) / 2;
    var range := Range(c.kMin, c.kMax + 1);
    RangeMembers(c.kMin, c.kMax + 1);
    forall k: nat ensures k in KOrder(c) <==> k in range { SortMember(range, ByDistance(mid), k); }
    StableTies(c.kMin, c.kMax + 1, mid);
    assert TotalPreorder(ByBefore(mid));
    SortSorted(range, ByBefore(mid));
  }

  // ---------- the selection ----------

  datatype Selected = Selected(subset: seq<Rollout>, k: nat)

  /** k is accepted, in the band, and no accepted k of the band is nearer its middle. */
  ghost predicate IsNearest(c: Limits, kept: seq<Rollout>, k: nat) {
    && Accepts(c, kept, k) && c.kMin <= k <= c.kMax
    && forall k': nat :: c.kMin <= k' <= c.kMax && AcceptFn(c, kept)(k') ==> Before((c.kMin + c.kMax) / 2, k, k')
  }

  method UseLine(kept: seq<Rollout>, correct: bool, n: nat) returns (used: seq<Rollout>)
    requires n <= |Line(kept, correct)|
    ensures used == Front(kept, correct, n)
  {
    var bt, nbt := Bucket(kept, correct, true), Bucket(kept, correct, false);
    used := if n <= |bt| then bt[..n] else bt;
    if |used| < n {
      used := used + nbt[..n - |used|];
      assert (bt + nbt)[..n] == bt + nbt[..n - |bt|];
    } else {
      assert (bt + nbt)[..n] == bt[..n];
    }
  }

  /** The choice for k, if it is accepted. */
  method Choose(c: Limits, kept: seq<Rollout>, k: nat) returns (r: Option<seq<Rollout>>)
    requires k <= c.m
    ensures r == if Accepts(c, kept, k) then Some(Chosen(c, kept, k)) else None
  {
    if !Enough(c, kept, k) { return None; }
    var correct := UseLine(kept, true, k);
    var wrong := UseLine(kept, false, c.m - k);
    var nonBt := Num(correct + wrong, IsNonBt());
    if nonBt > c.maxNonBt || c.m - nonBt < c.m - c.maxNonBt { return None; }
    return Some(correct + wrong);
  }

  /** In the order of the k's, the first with a property is the nearest with it. */
  lemma FirstIsNearest(c: Limits, p: nat -> bool, i: nat)
    requires i < |KOrder(c)| && p(KOrder(c)[i]) && forall j :: 0 <= j < i ==> !p(KOrder(c)[j])
    ensures c.kMin <= KOrder(c)[i] <= c.kMax
    ensures forall k: nat :: c.kMin <= k <= c.kMax && p(k) ==> Before((c.kMin + c.kMax) / 2, KOrder(c)[i], k)
  {
    var order, mid := KOrder(c), (c.kMin + c.kMax) / 2;
    KOrderFacts(c);
    assert order[i] in order;
    forall k: nat | c.kMin <= k <= c.kMax && p(k) ensures Before(mid, order[i], k) {
      assert k in order;
      var j :| 0 <= j < |order| && order[j] == k;
      assert j > i ==> ByBefore(mid)(order[i], order[j]);
    }
  }

  lemma NoneInOrder(c: Limits, p: nat -> bool)
    requires forall j :: 0 <= j < |KOrder(c)| ==> !p(KOrder(c)[j])
    ensures forall k: nat :: c.kMin <= k <= c.kMax ==> !p(k)
  {
    KOrderFacts(c);
    forall k: nat | c.kMin <= k <= c.kMax ensures !p(k) {
      assert k in KOrder(c);
    }
  }

  function AcceptFn(c: Limits, kept: seq<Rollout>): nat -> bool { (k: nat) => Accepts(c, kept, k) }

  /** The first k of the order whose choice is accepted. */
  method FirstAccepted(c: Limits, kept: seq<Rollout>) returns (r: Option<Selected>)
    requires ValidLimits(c)
    ensures match r
      case Some(s) => IsNearest(c, kept, s.k) && s.subset == Chosen(c, kept, s.k)
      case None => forall k: nat :: c.kMin <= k <= c.kMax ==> !AcceptFn(c, kept)(k)
  {
    var order := KOrder(c);
    KOrderFacts(c);
    for i := 0 to |order|
      invariant forall j :: 0 <= j < i ==> !AcceptFn(c, kept)(order[j])
    {
      assert order[i] in order;
      var subset := Choose(c, kept, order[i]);
      if subset.Some? {
        FirstIsNearest(c, AcceptFn(c, kept), i);
        return Some(Selected(subset.value, order[i]));
      }
    }
    NoneInOrder(c, AcceptFn(c, kept));
    r := None;
  }

  /** Sound and complete: a returned group is a group of kept rollouts for the feasible k nearest the
      middle of the band; None means the kept rollouts have no group for any k of the band. */
  method TrySelect(c: Limits, rollouts: seq<Rollout>) returns (r: Option<Selected>)
    requires ValidLimits(c)
    ensures r.Some? ==>
      && IsGroup(c, Kept(c, rollouts), r.value.subset, r.value.k) && c.kMin <= r.value.k <= c.kMax
      && Enough(c, Kept(c, rollouts), r.value.k) && r.value.subset == Chosen(c, Kept(c, rollouts), r.value.k)
      && (forall x, y :: x in r.value.subset && y in Kept(c, rollouts) && y !in r.value.subset ==>
            x.reward == y.reward ==> Preferred(x, y))
      && forall g, k: nat :: c.kMin <= k <= c.kMax && IsGroup(c, Kept(c, rollouts), g, k) ==>
           Before((c.kMin + c.kMax) / 2, r.value.k, k)
    ensures r.None? ==> forall g, k: nat :: c.kMin <= k <= c.kMax ==> !IsGroup(c, Kept(c, rollouts), g, k)
    ensures r.Some? && c.m == 8 && 2 <= c.kMin && c.kMax <= 6 ==>
      !SkipForOutOfZone(Rewards(r.value.subset), 0.43)
  {
    var composable := Terminating(c, rollouts);
    ghost var all := Kept(c, rollouts);
    KeptMeaning(c, rollouts);
    KeptShrinks(c, rollouts);
    TooFew(c, all);
    if |composable| < c.m { return None; }
    var dedup := DropDuplicates(composable);
    var kept := Filter<Rollout>(dedup, PassesLocal(c));
    if |kept| < c.m { return None; }
    forall g, k: nat | IsGroup(c, kept, g, k) ensures AcceptFn(c, kept)(k) { GroupIsAccepted(c, kept, g, k); }
    r := FirstAccepted(c, kept);
    if r.Some? {
      AllPreferred(c, kept, r.value.k);
      ChosenIsGroup(c, kept, r.value.k);
      if c.m == 8 { ZoneForEight(c, kept, r.value.subset, r.value.k); }
    }
  }

  lemma {:induction false} DedupShrinks(rs: seq<Rollout>)
    ensures |Dedup(rs)| <= |rs|
  {
    if rs != [] { DedupShrinks(rs[..|rs| - 1]); }
  }

  lemma KeptShrinks(c: Limits, rs: seq<Rollout>)
    ensures |Kept(c, rs)| <= |Terminating(c, rs)|
  {
    DedupShrinks(Terminating(c, rs));
    FilterMembers(Dedup(Terminating(c, rs)), PassesLocal(c));
  }

  /** Fewer rollouts than a group has members make no group. */
  lemma TooFew(c: Limits, kept: seq<Rollout>)
    ensures |kept| < c.m ==> forall g, k: nat :: !IsGroup(c, kept, g, k)
  {
    forall g, k: nat | IsGroup(c, kept, g, k) ensures |kept| >= c.m { DistinctFits(g, kept); }
  }

  // ---------- the validator's zone ----------

  function SumOf(rewards: seq<real>): real {
    if rewards == [] then 0.0 else rewards[0] + SumOf(rewards[1..])
  }

  function SumBy(rewards: seq<real>, f: real -> real): real {
    if rewards == [] then 0.0 else f(rewards[0]) + SumBy(rewards[1..], f)
  }

  function Deviation(mean: real): real -> real { (x: real) => (x - mean) * (x - mean) }

  /** The square of rewards_std. */
  function Variance(rewards: seq<real>): real {
    if |rewards| < 2 then 0.0
    else
      var n := |rewards| as real;
      SumBy(rewards, Deviation(SumOf(rewards) / n)) / n
  }

  /** rewards_std(rewards) < threshold, without the square root. */
  predicate SkipForOutOfZone(rewards: seq<real>, threshold: real) {
    threshold > 0.0 && Variance(rewards) < threshold * threshold
  }

  const STEADY_THRESHOLD := 0.43

  function Rewards(g: seq<Rollout>): seq<real> {
    seq(|g|, i requires 0 <= i < |g| => g[i].reward)
  }

  /** n times a. */
  function Times(n: nat, a: real): real {
    if n == 0 then 0.0 else a + Times(n - 1, a)
  }

  lemma {:induction false} BinarySum(g: seq<Rollout>, k: nat, f: real -> real)
    requires forall r :: r in g ==> r.reward == 1.0 || r.reward == 0.0
    requires Num(g, IsCorrect()) == k
    ensures k <= |g| && SumBy(Rewards(g), f) == Times(k, f(1.0)) + Times(|g| - k, f(0.0))
  {
    if g != [] {
      assert g[0] in g;
      assert Rewards(g)[1..] == Rewards(g[1..]);
      BinarySum(g[1..], if IsCorrect()(g[0]) then k - 1 else k, f);
    }
  }

  lemma {:induction false} SumIsSumBy(rewards: seq<real>, f: real -> real)
    requires forall x :: f(x) == x
    ensures SumOf(rewards) == SumBy(rewards, f)
  {
    if rewards != [] { SumIsSumBy(rewards[1..], f); }
  }

  lemma {:induction false} TimesIs(n: nat, a: real)
    ensures Times(n, a) == n as real * a
  {
    if n > 0 {
      TimesIs(n - 1, a);
      assert n as real * a == (n - 1) as real * a + a;
    }
  }

  lemma BinaryMean(g: seq<Rollout>, k: nat)
    requires (forall r :: r in g ==> r.reward == 1.0 || r.reward == 0.0) && Num(g, IsCorrect()) == k
    ensures k <= |g| && SumOf(Rewards(g)) == k as real
  {
    var id := (x: real) => x;
    BinarySum(g, k, id);
    SumIsSumBy(Rewards(g), id);
    TimesIs(k, 1.0);
    TimesIs(|g| - k, 0.0);
  }

  lemma BinarySquares(g: seq<Rollout>, k: nat, mean: real)
    requires |g| == 8 && k <= 8 && Num(g, IsCorrect()) == k
    requires forall r :: r in g ==> r.reward == 1.0 || r.reward == 0.0
    requires mean == k as real / 8.0
    ensures SumBy(Rewards(g), Deviation(mean)) == (k * (8 - k)) as real / 8.0
  {
    BinarySum(g, k, Deviation(mean));
    TimesIs(k, Deviation(mean)(1.0));
    TimesIs(8 - k, Deviation(mean)(0.0));
    EightValues(k, mean);
  }

  lemma BinaryVariance(g: seq<Rollout>, k: nat)
    requires |g| == 8 && (forall r :: r in g ==> r.reward == 1.0 || r.reward == 0.0) && Num(g, IsCorrect()) == k
    ensures k <= 8 && Variance(Rewards(g)) == (k * (8 - k)) as real / 64.0
  {
    BinaryMean(g, k);
    BinarySquares(g, k, k as real / 8.0);
  }

  /** Of eight rollouts, two to six correct is exactly what the validator's zone accepts. */
  lemma ZoneForEight(c: Limits, kept: seq<Rollout>, g: seq<Rollout>, k: nat)
    requires c.m == 8 && IsGroup(c, kept, g, k)
    ensures !SkipForOutOfZone(Rewards(g), STEADY_THRESHOLD) <==> 2 <= k <= 6
  {
    BinaryVariance(g, k);
    if k == 0 {} else if k == 1 {} else if k == 2 {} else if k == 3 {} else if k == 4 {}
    else if k == 5 {} else if k == 6 {} else if k == 7 {} else {}
  }

  lemma EightValues(k: nat, mean: real)
    requires k <= 8 && mean == k as real / 8.0
    ensures (k as real * ((1.0 - mean) * (1.0 - mean)) + (8 - k) as real * ((0.0 - mean) * (0.0 - mean))) / 8.0 ==
      (k * (8 - k)) as real / 64.0
  {
    if k == 0 {} else if k == 1 {} else if k == 2 {} else if k == 3 {} else if k == 4 {}
    else if k == 5 {} else if k == 6 {} else if k == 7 {} else {}
  }
}
