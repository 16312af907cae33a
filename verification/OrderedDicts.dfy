/** Ordered dictionaries, and what it means for one to be a least-recently-used cache.
 */
module OrderedDicts {
  import opened Wrappers
  import opened Sorting

  function Remove<K(==)>(s: seq<K>, k: K): seq<K> {
    if s == [] then [] else if s[0] == k then s[1..] else [s[0]] + Remove(s[1..], k)
  }

  datatype OrderedDict<K(==), V> = OrderedDict(order: seq<K>, vals: map<K, V>) {
    ghost predicate Valid() {
      Distinct(order) && (forall k :: k in order ==> k in vals) && (forall k :: k in vals ==> k in order)
    }

    function Find(k: K): Option<V> {
      if k in vals then Some(vals[k]) else None
    }

    /** Makes k the most recent key. */
    function MoveToEnd(k: K): OrderedDict<K, V> {
      this.(order := Remove(order, k) + [k])
    }

    /** A new key goes last, an old one keeps its place. */
    function Put(k: K, v: V): OrderedDict<K, V> {
      OrderedDict(if k in vals then order else order + [k], vals[k := v])
    }

    function PopOldest(): OrderedDict<K, V>
      requires order != []
    {
      OrderedDict(order[1..], vals - {order[0]})
    }
  }

  lemma {:induction false} RemoveMeaning<K(!new)>(s: seq<K>, k: K)
    requires Distinct(s)
    ensures Distinct(Remove(s, k)) && k !in Remove(s, k)
    ensures forall x :: x in Remove(s, k) <==> x in s && x != k
    ensures |Remove(s, k)| == |s| - if k in s then 1 else 0
  {
    if s != [] {
      assert s == [s[0]] + s[1..];
      assert Distinct(s[1..]);
      assert s[0] !in s[1..];
      if s[0] != k { RemoveMeaning(s[1..], k); }
    }
  }

  lemma {:induction false} RemoveRight<K(!new)>(a: seq<K>, b: seq<K>, k: K)
    requires k !in a
    ensures Remove(a + b, k) == a + Remove(b, k)
  {
    if a == [] {
      assert a + b == b;
    } else {
      assert a[0] in a && (a + b)[0] == a[0] && (a + b)[1..] == a[1..] + b;
      RemoveRight(a[1..], b, k);
      assert a + Remove(b, k) == [a[0]] + (a[1..] + Remove(b, k));
    }
  }

  lemma {:induction false} RemoveLeft<K(!new)>(a: seq<K>, b: seq<K>, k: K)
    requires k in a
    ensures Remove(a + b, k) == Remove(a, k) + b
  {
    assert (a + b)[0] == a[0] && (a + b)[1..] == a[1..] + b;
    if a[0] != k {
      assert a == [a[0]] + a[1..];
      RemoveLeft(a[1..], b, k);
    }
  }

  lemma RemoveConcat<K(!new)>(a: seq<K>, b: seq<K>, k: K)
    ensures Remove(a + b, k) == if k in a then Remove(a, k) + b else a + Remove(b, k)
  {
    if k in a { RemoveLeft(a, b, k); } else { RemoveRight(a, b, k); }
  }

  lemma MoveToEndValid<K(!new), V>(d: OrderedDict<K, V>, k: K)
    requires d.Valid() && k in d.vals
    ensures d.MoveToEnd(k).Valid() && |d.MoveToEnd(k).order| == |d.order|
  {
    RemoveMeaning(d.order, k);
    var r := d.MoveToEnd(k);
    var rest := Remove(d.order, k);
    forall i, j | 0 <= i < j < |r.order| ensures r.order[i] != r.order[j] {
      assert r.order[i] == rest[i] && rest[i] in rest;
    }
    assert r.order[|rest|] == k;
    forall x | x in r.vals ensures x in r.order { assert x != k ==> x in rest; }
    forall x | x in r.order ensures x in r.vals { assert x in rest || x == k; }
  }

  lemma PutValid<K(!new), V>(d: OrderedDict<K, V>, k: K, v: V)
    requires d.Valid()
    ensures d.Put(k, v).Valid()
  {
  }

  lemma PopValid<K(!new), V>(d: OrderedDict<K, V>)
    requires d.Valid() && d.order != []
    ensures d.PopOldest().Valid()
  {
    assert d.order == [d.order[0]] + d.order[1..];
    assert d.order[0] !in d.order[1..];
  }

  function Trimmed<K(==), V>(d: OrderedDict<K, V>, cap: nat): OrderedDict<K, V>
    decreases |d.order|
  {
    if |d.order| <= cap then d else Trimmed(d.PopOldest(), cap)
  }

  lemma LastOfTail<K(!new)>(s: seq<K>, n: nat)
    requires |s| > n
    ensures Last(s[1..], n) == Last(s, n)
  {
    if |s| > n + 1 { assert s[1..][|s| - 1 - n..] == s[|s| - n..]; }
  }

  lemma {:induction false} TrimmedMeaning<K(!new), V>(d: OrderedDict<K, V>, cap: nat)
    requires d.Valid()
    ensures Trimmed(d, cap).Valid() && Trimmed(d, cap).order == Last(d.order, cap)
    ensures forall k :: k in Trimmed(d, cap).vals ==> k in d.vals && Trimmed(d, cap).vals[k] == d.vals[k]
    decreases |d.order|
  {
    if |d.order| > cap {
      PopValid(d);
      LastOfTail(d.order, cap);
      TrimmedMeaning(d.PopOldest(), cap);
    }
  }

  /** The eviction loop: what is left are the last cap entries. */
  method Trim<K(==, !new), V>(d: OrderedDict<K, V>, cap: nat) returns (r: OrderedDict<K, V>)
    requires d.Valid()
    ensures r.Valid() && r.order == Last(d.order, cap)
    ensures forall k :: k in r.vals ==> k in d.vals && r.vals[k] == d.vals[k]
    ensures r == Trimmed(d, cap)
  {
    TrimmedMeaning(d, cap);
    r := d;
    while |r.order| > cap
      invariant Trimmed(r, cap) == Trimmed(d, cap)
      decreases |r.order|
    {
      r := r.PopOldest();
    }
  }

  // ---------- recency ----------

  /** The last n elements, or all of them. */
  function Last<K>(s: seq<K>, n: nat): (r: seq<K>)
    ensures |r| == if |s| <= n then |s| else n
  {
    if |s| <= n then s else s[|s| - n..]
  }

  /** The distinct keys of a list of accesses, by the time of their last access. */
  function Recency<K(==)>(accesses: seq<K>): seq<K> {
    if accesses == [] then []
    else
      var k := accesses[|accesses| - 1];
      Remove(Recency(accesses[..|accesses| - 1]), k) + [k]
  }

  /** The position of the last access to k, or -1. */
  function LastAccess<K(==)>(accesses: seq<K>, k: K): int {
    if accesses == [] then -1
    else if accesses[|accesses| - 1] == k then |accesses| - 1
    else LastAccess(accesses[..|accesses| - 1], k)
  }

  ghost predicate ByLastAccess<K>(keys: seq<K>, accesses: seq<K>) {
    forall i, j :: 0 <= i < j < |keys| ==> LastAccess(accesses, keys[i]) < LastAccess(accesses, keys[j])
  }

  lemma {:induction false} LastAccessMeaning<K(!new)>(accesses: seq<K>, k: K)
    ensures -1 <= LastAccess(accesses, k) < |accesses|
    ensures k in accesses <==> LastAccess(accesses, k) >= 0
    ensures k in accesses ==> accesses[LastAccess(accesses, k)] == k
    ensures forall i :: LastAccess(accesses, k) < i < |accesses| ==> accesses[i] != k
  {
    if accesses != [] {
      LastAccessMeaning(accesses[..|accesses| - 1], k);
      assert accesses == accesses[..|accesses| - 1] + [accesses[|accesses| - 1]];
    }
  }

  /** Recency lists exactly the accessed keys, once each, least recently accessed first. */
  lemma {:induction false} RecencyMeaning<K(!new)>(accesses: seq<K>)
    ensures Distinct(Recency(accesses)) && ByLastAccess(Recency(accesses), accesses)
    ensures forall k :: k in Recency(accesses) <==> k in accesses
  {
    if accesses != [] {
      var init, k := accesses[..|accesses| - 1], accesses[|accesses| - 1];
      assert accesses == init + [k];
      RecencyMeaning(init);
      RemoveMeaning(Recency(init), k);
      RemoveOrdered(Recency(init), init, k);
      var rest := Remove(Recency(init), k);
      forall i, j | 0 <= i < j < |rest| + 1
        ensures LastAccess(accesses, (rest + [k])[i]) < LastAccess(accesses, (rest + [k])[j])
      {
        assert rest[i] in rest;
        LastAccessMeaning(init, rest[i]);
        assert j < |rest| ==> rest[j] in rest;
      }
    }
  }

  lemma {:induction false} RemoveSubset<K(!new)>(keys: seq<K>, k: K)
    ensures forall x :: x in Remove(keys, k) ==> x in keys
  {
    if keys != [] { RemoveSubset(keys[1..], k); }
  }

  lemma {:induction false} RemoveOrdered<K(!new)>(keys: seq<K>, accesses: seq<K>, k: K)
    requires ByLastAccess(keys, accesses)
    ensures ByLastAccess(Remove(keys, k), accesses)
  {
    if keys != [] && keys[0] != k {
      var h, rest := keys[0], keys[1..];
      assert ByLastAccess(rest, accesses);
      RemoveOrdered(rest, accesses, k);
      RemoveSubset(rest, k);
      assert keys == [h] + rest;
      ConsOrdered(h, Remove(rest, k), accesses, rest);
    }
  }

  lemma ConsOrdered<K(!new)>(h: K, kept: seq<K>, accesses: seq<K>, rest: seq<K>)
    requires ByLastAccess(kept, accesses) && ByLastAccess([h] + rest, accesses) && forall x :: x in kept ==> x in rest
    ensures ByLastAccess([h] + kept, accesses)
  {
    forall i | 0 <= i < |kept| ensures LastAccess(accesses, h) < LastAccess(accesses, kept[i]) {
      assert kept[i] in kept;
      var j :| 0 <= j < |rest| && rest[j] == kept[i];
      assert ([h] + rest)[0] == h && ([h] + rest)[j + 1] == kept[i];
    }
  }

  /** One access to a cache holding the cap most recent keys: a hit moves the key last, a miss appends
      it and drops the oldest. Either way it again holds the cap most recent keys. */
  lemma AccessKeepsLru<K(!new)>(accesses: seq<K>, cap: nat, k: K)
    ensures var kept := Last(Recency(accesses), cap);
      Last(Recency(accesses + [k]), cap) == if k in kept then Remove(kept, k) + [k] else Last(kept + [k], cap)
  {
    assert (accesses + [k])[..|accesses|] == accesses;
    RecencyMeaning(accesses);
    AccessLast(Recency(accesses), cap, k);
  }

  lemma AccessLast<K(!new)>(all: seq<K>, cap: nat, k: K)
    requires Distinct(all)
    ensures var kept := Last(all, cap);
      Last(Remove(all, k) + [k], cap) == if k in kept then Remove(kept, k) + [k] else Last(kept + [k], cap)
  {
    var kept := Last(all, cap);
    var dropped := all[..|all| - |kept|];
    assert all == dropped + kept;
    if k in dropped { SplitDistinct(dropped, kept, k); }
    AccessSplit(dropped, kept, cap, k);
  }

  lemma AccessSplit<K(!new)>(dropped: seq<K>, kept: seq<K>, cap: nat, k: K)
    requires |kept| <= cap && (dropped == [] || |kept| == cap) && (k in dropped ==> k !in kept)
    ensures Last(Remove(dropped + kept, k) + [k], cap)
         == if k in kept then Remove(kept, k) + [k] else Last(kept + [k], cap)
  {
    RemoveConcat(dropped, kept, k);
    RemoveSize(kept, k);
    if k in dropped {
      LastOfThree(Remove(dropped, k), kept, [k], cap);
    } else {
      LastOfThree(dropped, Remove(kept, k), [k], cap);
    }
  }

  lemma LastOfThree<K(!new)>(a: seq<K>, b: seq<K>, c: seq<K>, n: nat)
    requires |b| + |c| >= n || a == []
    ensures Last((a + b) + c, n) == Last(b + c, n)
  {
    assert (a + b) + c == a + (b + c);
    LastConcat(a, b + c, n);
  }

  lemma {:induction false} RemoveSize<K(!new)>(s: seq<K>, k: K)
    ensures |Remove(s, k)| == |s| - if k in s then 1 else 0
    ensures k !in s ==> Remove(s, k) == s
  {
    if s != [] { RemoveSize(s[1..], k); }
  }

  lemma SplitDistinct<K(!new)>(a: seq<K>, b: seq<K>, k: K)
    requires Distinct(a + b) && k in a
    ensures k !in b
  {
    var i :| 0 <= i < |a| && a[i] == k;
    assert (a + b)[i] == k;
    forall j | 0 <= j < |b| ensures b[j] != k { assert (a + b)[|a| + j] == b[j]; }
  }

  /** A long enough tail decides. */
  lemma LastConcat<K(!new)>(a: seq<K>, b: seq<K>, n: nat)
    requires |b| >= n || a == []
    ensures Last(a + b, n) == Last(b, n)
  {
    if a == [] { assert a + b == b; }
  }
}
