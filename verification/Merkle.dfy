/** The rollout-group Merkle root.

    A hash is an injective constructor, leaves and inner nodes are in different domains, and a leaf
    binds its index together with the whole rollout. C is the commitment carried by a rollout.
 */
module Merkle {
  import opened Wrappers

  datatype Rollout<C> = Rollout(commit: C, envName: string, reward: real, tokens: seq<int>)

  datatype Digest<C> = Leaf(index: nat, rollout: Rollout<C>) | Node(left: Digest<C>, right: Digest<C>)

  function Leaves<C>(rollouts: seq<Rollout<C>>): (r: seq<Digest<C>>)
    ensures |r| == |rollouts|
  {
    seq(|rollouts|, i requires 0 <= i < |rollouts| => Leaf(i, rollouts[i]))
  }

  /** One level up: neighbours are paired, an odd last one is paired with itself. */
  function Parents<C>(level: seq<Digest<C>>): (r: seq<Digest<C>>)
    ensures |r| == (|level| + 1) / 2
  {
    if level == [] then []
    else if |level| == 1 then [Node(level[0], level[0])]
    else [Node(level[0], level[1])] + Parents(level[2..])
  }

  function Root<C>(level: seq<Digest<C>>): Digest<C>
    requires level != []
    decreases |level|
  {
    if |level| == 1 then level[0] else Root(Parents(level))
  }

  method ComputeRolloutsMerkleRoot<C>(rollouts: seq<Rollout<C>>) returns (r: Result<Digest<C>, string>)
    ensures r.Err? <==> rollouts == []
    ensures r.Ok? ==> r.value == Root(Leaves(rollouts))
  {
    var leaves: seq<Digest<C>> := [];
    for index := 0 to |rollouts|
      invariant leaves == Leaves(rollouts)[..index]
    {
      leaves := leaves + [Leaf(index, rollouts[index])];
    }
    if leaves == [] { return Err("cannot compute a Merkle root for an empty rollout group"); }
    assert leaves == Leaves(rollouts);
    while |leaves| > 1
      invariant leaves != [] && Root(leaves) == Root(Leaves(rollouts))
      decreases |leaves|
    {
      leaves := ParentLevel(leaves);
    }
    return Ok(leaves[0]);
  }

  method ParentLevel<C>(leaves: seq<Digest<C>>) returns (parents: seq<Digest<C>>)
    ensures parents == Parents(leaves)
  {
    parents := [];
    var index := 0;
    while index < |leaves|
      invariant 0 <= index <= |leaves| + 1
      invariant index <= |leaves| ==> parents + Parents(leaves[index..]) == Parents(leaves)
      invariant index > |leaves| ==> parents == Parents(leaves)
    {
      var left := leaves[index];
      var right := if index + 1 < |leaves| then leaves[index + 1] else left;
      if index + 1 < |leaves| { assert leaves[index..][2..] == leaves[index + 2..]; }
      parents := parents + [Node(left, right)];
      index := index + 2;
    }
  }

  // ---------- the shape ----------

  function Pow2(d: nat): (r: nat)
    ensures r > 0
  {
    if d == 0 then 1 else 2 * Pow2(d - 1)
  }

  /** The tree of depth d from the top down: the first half of its places on the left, what is left over on the
      right, and the left subtree twice when nothing is. */
  function Tree<C>(leaves: seq<Digest<C>>, d: nat): Digest<C>
    requires leaves != []
    decreases d
  {
    if d == 0 then leaves[0]
    else
      var half := Pow2(d - 1);
      if |leaves| <= half then Node(Tree(leaves, d - 1), Tree(leaves, d - 1))
      else Node(Tree(leaves[..half], d - 1), Tree(leaves[half..], d - 1))
  }

  lemma {:induction false} ParentsSplit<C>(level: seq<Digest<C>>, k: nat)
    requires 2 * k <= |level|
    ensures Parents(level) == Parents(level[..2 * k]) + Parents(level[2 * k..])
    ensures |Parents(level[..2 * k])| == k
  {
    if k == 0 {
      assert level[..0] == [] && level[0..] == level;
    } else {
      var tail := level[2..];
      ParentsSplit(tail, k - 1);
      assert level[..2 * k][2..] == tail[..2 * (k - 1)] && level[2 * k..] == tail[2 * (k - 1)..];
      assert Parents(level[..2 * k]) == [Node(level[0], level[1])] + Parents(tail[..2 * (k - 1)]);
    }
  }

  /** One level up, one level less deep. */
  lemma {:induction false} TreeOfParents<C>(level: seq<Digest<C>>, d: nat)
    requires level != [] && d > 0 && |level| <= Pow2(d)
    ensures Tree(level, d) == Tree(Parents(level), d - 1)
    decreases d
  {
    if d > 1 {
      var quarter, half := Pow2(d - 2), Pow2(d - 1);
      var parents := Parents(level);
      if |level| <= half {
        TreeOfParents(level, d - 1);
        assert |parents| <= quarter;
      } else {
        HalvesOfParents(level, quarter, half);
        TreeOfParents(level[..half], d - 1);
        TreeOfParents(level[half..], d - 1);
        assert |parents| > quarter;
        assert Tree(parents, d - 1) == Node(Tree(parents[..quarter], d - 2), Tree(parents[quarter..], d - 2));
      }
    }
  }

  lemma HalvesOfParents<C>(level: seq<Digest<C>>, quarter: nat, half: nat)
    requires half == 2 * quarter < |level|
    ensures Parents(level)[..quarter] == Parents(level[..half]) && Parents(level)[quarter..] == Parents(level[half..])
  {
    ParentsSplit(level, quarter);
  }

  /** Pairing level by level gives the perfect tree of the least depth that has room for all leaves. */
  lemma {:induction false} RootIsTree<C>(level: seq<Digest<C>>, d: nat)
    requires level != [] && |level| <= Pow2(d) && (d > 0 ==> Pow2(d - 1) < |level|)
    ensures Root(level) == Tree(level, d)
    decreases d
  {
    if d > 0 {
      TreeOfParents(level, d);
      RootIsTree(Parents(level), d - 1);
    }
  }

  // ---------- the frontier ----------

  /** The leaves below a digest, left to right. */
  function Frontier<C>(d: Digest<C>): seq<Digest<C>> {
    match d
    case Leaf(_, _) => [d]
    case Node(l, r) => Frontier(l) + Frontier(r)
  }

  function Frontiers<C>(level: seq<Digest<C>>): seq<Digest<C>> {
    if level == [] then [] else Frontier(level[0]) + Frontiers(level[1..])
  }

  /** Going up a level only appends leaves that were already there. */
  lemma {:induction false} ParentsFrontier<C>(level: seq<Digest<C>>)
    ensures Frontiers(level) <= Frontiers(Parents(level))
    ensures forall x :: x in Frontiers(Parents(level)) ==> x in Frontiers(level)
  {
    if |level| == 1 {
      var d := level[0];
      assert Frontiers(level) == Frontier(d) + Frontiers(level[1..]) == Frontier(d);
      assert Parents(level)[1..] == [];
      assert Frontiers(Parents(level)) == Frontier(Node(d, d)) == Frontier(d) + Frontier(d);
    } else if |level| > 1 {
      var l, r, rest := level[0], level[1], level[2..];
      ParentsFrontier(rest);
      assert level[1..][1..] == rest;
      assert Frontiers(level) == Frontier(l) + (Frontier(r) + Frontiers(rest));
      assert Parents(level)[1..] == Parents(rest);
      assert Frontiers(Parents(level)) == (Frontier(l) + Frontier(r)) + Frontiers(Parents(rest));
    }
  }

  lemma {:induction false} RootFrontier<C>(level: seq<Digest<C>>)
    requires level != []
    ensures Frontiers(level) <= Frontier(Root(level))
    ensures forall x :: x in Frontier(Root(level)) ==> x in Frontiers(level)
    decreases |level|
  {
    if |level| == 1 {
      assert Frontiers(level) == Frontier(level[0]) + Frontiers(level[1..]) == Frontier(level[0]);
    } else {
      ParentsFrontier(level);
      RootFrontier(Parents(level));
    }
  }

  lemma {:induction false} LeafFrontiers<C>(level: seq<Digest<C>>)
    requires forall d :: d in level ==> d.Leaf?
    ensures Frontiers(level) == level
  {
    if level != [] {
      assert level[0] in level;
      LeafFrontiers(level[1..]);
    }
  }

  /** Position j of the root's frontier carries index j iff j is a real leaf; the duplicates an odd
      level adds are recognisable by their index. */
  lemma FrontierIndices<C>(rollouts: seq<Rollout<C>>)
    requires rollouts != []
    ensures var f := Frontier(Root(Leaves(rollouts)));
      && |f| >= |rollouts| && f[..|rollouts|] == Leaves(rollouts)
      && forall j :: 0 <= j < |f| ==> f[j].Leaf? && f[j].index < |rollouts| && (f[j].index == j <==> j < |rollouts|)
  {
    var ls := Leaves(rollouts);
    var f := Frontier(Root(ls));
    LeafFrontiers(ls);
    RootFrontier(ls);
    forall j | 0 <= j < |f|
      ensures f[j].Leaf? && f[j].index < |rollouts| && (f[j].index == j <==> j < |rollouts|)
    {
      assert f[j] in f && f[j] in ls;
      if j < |rollouts| { assert f[j] == f[..|rollouts|][j] == ls[j]; }
    }
  }

  lemma LongerIsDifferent<C>(a: seq<Rollout<C>>, b: seq<Rollout<C>>)
    requires a != [] && |a| < |b|
    ensures Root(Leaves(a)) != Root(Leaves(b))
  {
    FrontierIndices(a);
    FrontierIndices(b);
    var fa, fb := Frontier(Root(Leaves(a))), Frontier(Root(Leaves(b)));
    assert fb[|a|].index == |a|;
    assert |fa| > |a| ==> fa[|a|].index != |a|;
  }

  /** Equal roots mean equal rollout lists: same length, same order, same contents. */
  lemma RootBindsRollouts<C>(a: seq<Rollout<C>>, b: seq<Rollout<C>>)
    requires a != [] && b != []
    ensures Root(Leaves(a)) == Root(Leaves(b)) <==> a == b
  {
    if Root(Leaves(a)) == Root(Leaves(b)) {
      FrontierIndices(a);
      FrontierIndices(b);
      var f := Frontier(Root(Leaves(a)));
      if |a| < |b| { LongerIsDifferent(a, b); }
      if |b| < |a| { LongerIsDifferent(b, a); }
      assert |a| == |b|;
      forall i | 0 <= i < |a| ensures a[i] == b[i] {
        assert Leaves(a)[i] == f[i] == Leaves(b)[i];
      }
    }
  }
}
