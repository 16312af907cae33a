/** Powers of reals, and sums of reals over finite sets of keys. */
module Reals {

  function Power(x: real, n: nat): real {
    if n == 0 then 1.0 else x * Power(x, n - 1)
  }

  lemma PowerNext(x: real, k: nat)
    ensures Power(x, k + 1) == x * Power(x, k)
  {
  }

  lemma {:induction false} PowerPositive(x: real, n: nat)
    requires x > 0.0
    ensures Power(x, n) > 0.0
  {
    if n > 0 { PowerPositive(x, n - 1); }
  }

  /** The sum of f over a finite set of keys. */
  ghost function SumOver<K>(keys: set<K>, f: K -> real): real {
    if keys == {} then 0.0 else var x :| x in keys; f(x) + SumOver(keys - {x}, f)
  }

  lemma {:induction false} SumRemove<K>(keys: set<K>, f: K -> real, x: K)
    requires x in keys
    ensures SumOver(keys, f) == f(x) + SumOver(keys - {x}, f)
  {
    var y :| y in keys && SumOver(keys, f) == f(y) + SumOver(keys - {y}, f);
    if y != x {
      SumRemove(keys - {y}, f, x);
      SumRemove(keys - {x}, f, y);
      assert keys - {y} - {x} == keys - {x} - {y};
    }
  }

  lemma {:induction false} SumAtMost<K>(keys: set<K>, f: K -> real, g: K -> real, h: K -> real)
    requires forall x :: x in keys ==> f(x) <= g(x) + h(x)
    ensures SumOver(keys, f) <= SumOver(keys, g) + SumOver(keys, h)
  {
    if keys != {} {
      var x :| x in keys;
      SumRemove(keys, f, x);
      SumRemove(keys, g, x);
      SumRemove(keys, h, x);
      SumAtMost(keys - {x}, f, g, h);
    }
  }

  function Scale(b: real, x: real): real { b * x }

  lemma ScaleAdd(b: real, x: real, y: real)
    ensures Scale(b, x + y) == Scale(b, x) + Scale(b, y) && Scale(b, 0.0) == 0.0
  {
  }

  lemma {:induction false} SumScale<K>(keys: set<K>, b: real, f: K -> real, g: K -> real)
    requires forall x :: x in keys ==> f(x) == Scale(b, g(x))
    ensures SumOver(keys, f) == Scale(b, SumOver(keys, g))
  {
    if keys == {} {
      ScaleAdd(b, 0.0, 0.0);
    } else {
      var x :| x in keys;
      SumRemove(keys, f, x);
      SumRemove(keys, g, x);
      SumScale(keys - {x}, b, f, g);
      ScaleAdd(b, g(x), SumOver(keys - {x}, g));
    }
  }

  lemma {:induction false} SumSupport<K>(keys: set<K>, more: set<K>, f: K -> real)
    requires keys <= more && forall x :: x in more - keys ==> f(x) == 0.0
    ensures SumOver(more, f) == SumOver(keys, f)
    decreases more
  {
    if x :| x in more - keys {
      SumRemove(more, f, x);
      SumSupport(keys, more - {x}, f);
    } else {
      assert forall y :: y in more ==> y in keys || y in more - keys;
      assert more == keys;
    }
  }

  lemma {:induction false} SumSame<K>(keys: set<K>, f: K -> real, g: K -> real)
    requires forall x :: x in keys ==> f(x) == g(x)
    ensures SumOver(keys, f) == SumOver(keys, g)
  {
    if keys != {} {
      var x :| x in keys;
      SumRemove(keys, f, x);
      SumRemove(keys, g, x);
      SumSame(keys - {x}, f, g);
    }
  }
}
