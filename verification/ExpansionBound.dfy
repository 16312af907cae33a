/** The bounded algebra grader: a cheap bound on how many monomials an expansion can have.

    `Expand` multiplies an expression out the way `sympy.expand` does, before like terms are
    collected; a monomial is the multiset of atomic factors of a term, so the collected
    expansion has at most `|Monomials(e)|` terms. `ExpandTermBound` never expands anything.
 */
module ExpansionBound {

  /** HugeNumber is a number whose conversion to a float overflows, Constant is pi or E. Opaque is any other node. */
  datatype Expr =
    | Number(value: real)
    | HugeNumber(id: nat)
    | Constant(name: string)
    | Symbol(name: string)
    | Add(args: seq<Expr>)
    | Mul(args: seq<Expr>)
    | Pow(base: Expr, exp: Expr)
    | Opaque(id: nat)
  {
    predicate IsNumber() { Number? || HugeNumber? }

    /** A power that multiplies out: its exponent is a number with a non-negative integer value. */
    predicate Multiplies() {
      Pow? && exp.Number? && exp.value >= 0.0 && exp.value == exp.value.Floor as real
    }

    function Times(): nat
      requires Multiplies()
    {
      exp.value.Floor
    }
  }

  // ---------- counting ----------

  /** math.comb, by Pascal's rule. */
  function Comb(n: nat, k: nat): nat {
    if k == 0 then 1 else if n == 0 then 0 else Comb(n - 1, k - 1) + Comb(n - 1, k)
  }

  function Factorial(n: nat): nat {
    if n == 0 then 1 else n * Factorial(n - 1)
  }

  lemma {:induction false} CombAbove(n: nat, k: nat)
    requires k > n
    ensures Comb(n, k) == 0
  {
    if n > 0 { CombAbove(n - 1, k - 1); CombAbove(n - 1, k); }
  }

  lemma {:induction false} CombDiagonal(n: nat)
    ensures Comb(n, n) == 1
  {
    if n > 0 { CombDiagonal(n - 1); CombAbove(n - 1, n); }
  }

  /** Pascal's rule computes the textbook quotient n! / (k! (n-k)!). */
  lemma {:induction false} CombFactorial(n: nat, k: nat)
    requires k <= n
    ensures Comb(n, k) * Factorial(k) * Factorial(n - k) == Factorial(n)
  {
    if k == n {
      CombDiagonal(n);
    } else if k > 0 {
      CombFactorial(n - 1, k - 1);
      CombFactorial(n - 1, k);
      PascalStep(Comb(n - 1, k - 1), Comb(n - 1, k), Factorial(k - 1), Factorial(n - k - 1), k, n - k,
                 Factorial(n - 1));
    }
  }

  lemma PascalStep(a: nat, b: nat, p: nat, q: nat, k: nat, m: nat, f: nat)
    requires a * p * (m * q) == f && b * (k * p) * q == f
    ensures (a + b) * (k * p) * (m * q) == (k + m) * f
  {
    var x, y := k * p, m * q;
    assert (a + b) * x * y == a * x * y + b * x * y;
    assert a * x * y == k * f by { assert a * (k * p) == k * (a * p); MulAssoc(k, a * p, y); }
    assert b * x * y == m * f by { MulAssoc(b * x, m, q); assert (b * x) * m == m * (b * x); MulAssoc(m, b * x, q); }
  }

  lemma MulAssoc(a: int, b: int, c: int)
    ensures (a * b) * c == a * (b * c)
  {
  }

  lemma {:induction false} CombMonotone(n: nat, m: nat, k: nat)
    requires n <= m
    ensures Comb(n, k) <= Comb(m, k)
    decreases m
  {
    if k > 0 && n < m {
      CombMonotone(n, m - 1, k);
    }
  }

  /** The number of multisets of size k over b kinds. */
  function MultiChoose(b: nat, k: nat): nat {
    if k == 0 then 1 else if b == 0 then 0 else Comb(b + k - 1, k)
  }

  lemma MultiChoosePascal(b: nat, k: nat)
    requires b > 0 && k > 0
    ensures MultiChoose(b, k) == MultiChoose(b - 1, k) + MultiChoose(b, k - 1)
  {
    if b == 1 { CombAbove(k - 1, k); }
  }

  lemma MultiChooseMonotone(a: nat, b: nat, k: nat)
    requires a <= b
    ensures MultiChoose(a, k) <= MultiChoose(b, k)
  {
    if a > 0 && k > 0 { CombMonotone(a + k - 1, b + k - 1, k); }
  }

  lemma {:induction false} MultiChooseAtLeast(b: nat, k: nat)
    requires b > 0 && k > 0
    ensures MultiChoose(b, k) >= b
  {
    MultiChoosePascal(b, k);
    if b > 1 { MultiChooseAtLeast(b - 1, k); }
    if k > 1 { MultiChooseAtLeast(b, k - 1); }
  }

  type Mono = multiset<Expr>

  /** All products of one monomial of each side. */
  ghost function Products(a: set<Mono>, b: set<Mono>): set<Mono> {
    set x, y | x in a && y in b :: x + y
  }

  /** All products of k monomials drawn from s. */
  ghost function KFold(s: set<Mono>, k: nat): set<Mono> {
    if k == 0 then {multiset{}} else Products(s, KFold(s, k - 1))
  }

  lemma {:induction false} ShiftSize(x: Mono, b: set<Mono>)
    ensures |Products({x}, b)| <= |b|
  {
    if b == {} {
      assert Products({x}, b) == {};
    } else {
      var y :| y in b;
      ShiftSize(x, b - {y});
      assert Products({x}, b) == Products({x}, b - {y}) + {x + y};
    }
  }

  lemma {:induction false} ProductsSize(a: set<Mono>, b: set<Mono>)
    ensures |Products(a, b)| <= |a| * |b|
  {
    if a == {} {
      assert Products(a, b) == {};
    } else {
      var x :| x in a;
      var rest := a - {x};
      ProductsSize(rest, b);
      ShiftSize(x, b);
      ProductsRemove(a, b, x);
      UnionSize(Products(rest, b), Products({x}, b));
      assert |a| == |rest| + 1;
      MulSucc(|rest|, |b|);
    }
  }

  lemma UnionSize(a: set<Mono>, b: set<Mono>)
    ensures |a + b| <= |a| + |b|
  {
    assert a + b == a + (b - a);
  }

  lemma ProductsRemove(a: set<Mono>, b: set<Mono>, x: Mono)
    requires x in a
    ensures Products(a, b) == Products(a - {x}, b) + Products({x}, b)
  {
  }

  lemma MulSucc(n: nat, m: nat)
    ensures (n + 1) * m == n * m + m
  {
  }

  /** A k-fold product either avoids x or has x as one of its factors. */
  lemma {:induction false} KFoldSplit(s: set<Mono>, x: Mono, k: nat)
    requires x in s && k > 0
    ensures KFold(s, k) <= KFold(s - {x}, k) + Products({x}, KFold(s, k - 1))
  {
    if k > 1 { KFoldSplit(s, x, k - 1); }
    forall m | m in KFold(s, k) ensures m in KFold(s - {x}, k) + Products({x}, KFold(s, k - 1)) {
      var y, z :| y in s && z in KFold(s, k - 1) && m == y + z;
      KFoldSplitOne(s, x, k, y, z);
    }
  }

  lemma KFoldSplitOne(s: set<Mono>, x: Mono, k: nat, y: Mono, z: Mono)
    requires x in s && y in s && k > 0 && z in KFold(s, k - 1)
    requires k > 1 ==> KFold(s, k - 1) <= KFold(s - {x}, k - 1) + Products({x}, KFold(s, k - 2))
    ensures y + z in KFold(s - {x}, k) + Products({x}, KFold(s, k - 1))
  {
    if y == x {
      assert y + z in Products({x}, KFold(s, k - 1));
    } else if z in KFold(s - {x}, k - 1) {
      assert y in s - {x};
      assert y + z in Products(s - {x}, KFold(s - {x}, k - 1));
    } else {
      assert k > 1;
      var z' :| z' in KFold(s, k - 2) && z == x + z';
      assert y + z' in Products(s, KFold(s, k - 2));
      assert y + z == x + (y + z');
      assert y + z in Products({x}, KFold(s, k - 1));
    }
  }

  lemma SubsetSize<T>(a: set<T>, b: set<T>)
    requires a <= b
    ensures |a| <= |b|
  {
    assert b == a + (b - a);
  }

  lemma KFoldStep(s: set<Mono>, x: Mono, k: nat)
    requires x in s && k > 0
    ensures |KFold(s, k)| <= |KFold(s - {x}, k)| + |KFold(s, k - 1)|
  {
    var a, b := KFold(s - {x}, k), Products({x}, KFold(s, k - 1));
    KFoldSplit(s, x, k);
    ShiftSize(x, KFold(s, k - 1));
    UnionSize(a, b);
    SubsetSize(KFold(s, k), a + b);
  }

  /** The counting theorem: k factors drawn from |s| monomials make at most C(|s|+k-1, k). */
  lemma {:induction false} KFoldSize(s: set<Mono>, k: nat)
    ensures |KFold(s, k)| <= MultiChoose(|s|, k)
    decreases |s| + k
  {
    if k > 0 {
      if s == {} {
        assert KFold(s, k) == {};
      } else {
        var x :| x in s;
        KFoldStep(s, x, k);
        KFoldSize(s - {x}, k);
        KFoldSize(s, k - 1);
        MultiChoosePascal(|s|, k);
      }
    }
  }

  // ---------- expansion ----------

  /** One product of the expansion: its numeric factors and its other factors. */
  datatype Term = Term(nums: seq<real>, word: seq<Expr>)

  function TimesTerm(t: Term, us: seq<Term>): (r: seq<Term>) {
    if us == [] then [] else [Term(t.nums + us[0].nums, t.word + us[0].word)] + TimesTerm(t, us[1..])
  }

  function TimesTerms(ts: seq<Term>, us: seq<Term>): (r: seq<Term>) {
    if ts == [] then [] else TimesTerm(ts[0], us) + TimesTerms(ts[1..], us)
  }

  function PowerTerms(ts: seq<Term>, k: nat): (r: seq<Term>) {
    if k == 0 then [Term([], [])] else TimesTerms(ts, PowerTerms(ts, k - 1))
  }

  function Expand(e: Expr): (r: seq<Term>)
    decreases e, 1
  {
    if e.Number? then [Term([e.value], [])]
    else if e.Add? then ExpandSum(e.args)
    else if e.Mul? then ExpandProduct(e.args)
    else if e.Multiplies() then PowerTerms(Expand(e.base), e.Times())
    else [Term([], [e])]
  }

  function ExpandSum(es: seq<Expr>): (r: seq<Term>)
    decreases es, 0
  {
    if es == [] then [] else Expand(es[0]) + ExpandSum(es[1..])
  }

  function ExpandProduct(es: seq<Expr>): (r: seq<Term>)
    decreases es, 0
  {
    if es == [] then [Term([], [])] else TimesTerms(Expand(es[0]), ExpandProduct(es[1..]))
  }

  ghost function MonosOf(ts: seq<Term>): set<Mono> {
    set t | t in ts :: multiset(t.word)
  }

  /** The distinct monomials of the full expansion. */
  ghost function Monomials(e: Expr): set<Mono> {
    MonosOf(Expand(e))
  }

  // ---------- expansion preserves meaning ----------

  /** Where expressions take their values: any commutative semiring, and what a numeral means. */
  datatype Algebra<!V> = Algebra(zero: V, one: V, add: (V, V) -> V, mul: (V, V) -> V, num: real -> V)

  /** Names the instances of the laws that a proof needs. */
  ghost predicate At<V>(a: V, b: V, c: V) { true }

  ghost predicate CommutativeSemiring<V(!new)>(g: Algebra<V>) {
    forall a: V, b: V, c: V {:trigger At(a, b, c)} :: At(a, b, c) ==>
      && g.add(a, g.add(b, c)) == g.add(g.add(a, b), c)
      && g.mul(a, g.mul(b, c)) == g.mul(g.mul(a, b), c)
      && g.mul(a, b) == g.mul(b, a)
      && g.add(a, b) == g.add(b, a)
      && g.mul(a, g.add(b, c)) == g.add(g.mul(a, b), g.mul(a, c))
      && g.add(g.zero, a) == a && g.mul(g.one, a) == a && g.mul(g.zero, a) == g.zero
  }

  function Product<V>(g: Algebra<V>, vs: seq<V>): V {
    if vs == [] then g.one else g.mul(vs[0], Product(g, vs[1..]))
  }

  function Power<V>(g: Algebra<V>, x: V, k: nat): V {
    if k == 0 then g.one else g.mul(x, Power(g, x, k - 1))
  }

  /** The value of an expression; rho gives the value of every node that does not multiply out. */
  function Eval<V>(g: Algebra<V>, rho: Expr -> V, e: Expr): V
    decreases e, 1
  {
    if e.Number? then g.num(e.value)
    else if e.Add? then EvalSum(g, rho, e.args)
    else if e.Mul? then EvalProduct(g, rho, e.args)
    else if e.Multiplies() then Power(g, Eval(g, rho, e.base), e.Times())
    else rho(e)
  }

  function EvalSum<V>(g: Algebra<V>, rho: Expr -> V, es: seq<Expr>): V
    decreases es, 0
  {
    if es == [] then g.zero else g.add(Eval(g, rho, es[0]), EvalSum(g, rho, es[1..]))
  }

  function EvalProduct<V>(g: Algebra<V>, rho: Expr -> V, es: seq<Expr>): V
    decreases es, 0
  {
    if es == [] then g.one else g.mul(Eval(g, rho, es[0]), EvalProduct(g, rho, es[1..]))
  }

  function Map<A, B>(f: A -> B, xs: seq<A>): seq<B> {
    seq(|xs|, i requires 0 <= i < |xs| => f(xs[i]))
  }

  function TermValue<V>(g: Algebra<V>, rho: Expr -> V, t: Term): V {
    g.mul(Product(g, Map(g.num, t.nums)), Product(g, Map(rho, t.word)))
  }

  function TermsValue<V>(g: Algebra<V>, rho: Expr -> V, ts: seq<Term>): V {
    if ts == [] then g.zero else g.add(TermValue(g, rho, ts[0]), TermsValue(g, rho, ts[1..]))
  }

  lemma {:induction false} ProductConcat<V(!new)>(g: Algebra<V>, vs: seq<V>, ws: seq<V>)
    requires CommutativeSemiring(g)
    ensures Product(g, vs + ws) == g.mul(Product(g, vs), Product(g, ws))
  {
    if vs == [] {
      assert vs + ws == ws;
      assert At(Product(g, ws), g.one, g.one);
    } else {
      assert (vs + ws)[1..] == vs[1..] + ws;
      ProductConcat(g, vs[1..], ws);
      assert At(vs[0], Product(g, vs[1..]), Product(g, ws));
    }
  }

  lemma Exchange<V(!new)>(g: Algebra<V>, a: V, b: V, c: V, d: V)
    requires CommutativeSemiring(g)
    ensures g.mul(g.mul(a, b), g.mul(c, d)) == g.mul(g.mul(a, c), g.mul(b, d))
  {
    assert At(a, b, g.mul(c, d));
    assert At(b, c, d);
    assert At(c, b, d);
    assert At(a, c, g.mul(b, d));
  }

  lemma TermValueTimes<V(!new)>(g: Algebra<V>, rho: Expr -> V, t: Term, u: Term)
    requires CommutativeSemiring(g)
    ensures TermValue(g, rho, Term(t.nums + u.nums, t.word + u.word))
         == g.mul(TermValue(g, rho, t), TermValue(g, rho, u))
  {
    var a, b, c, d := Map(g.num, t.nums), Map(g.num, u.nums), Map(rho, t.word), Map(rho, u.word);
    assert Map(g.num, t.nums + u.nums) == a + b;
    assert Map(rho, t.word + u.word) == c + d;
    ProductConcat(g, a, b);
    ProductConcat(g, c, d);
    Exchange(g, Product(g, a), Product(g, b), Product(g, c), Product(g, d));
  }

  lemma {:induction false} TermsValueConcat<V(!new)>(g: Algebra<V>, rho: Expr -> V, ts: seq<Term>, us: seq<Term>)
    requires CommutativeSemiring(g)
    ensures TermsValue(g, rho, ts + us) == g.add(TermsValue(g, rho, ts), TermsValue(g, rho, us))
  {
    if ts == [] {
      assert ts + us == us;
      assert At(TermsValue(g, rho, us), g.one, g.one);
    } else {
      assert (ts + us)[1..] == ts[1..] + us;
      TermsValueConcat(g, rho, ts[1..], us);
      assert At(TermValue(g, rho, ts[0]), TermsValue(g, rho, ts[1..]), TermsValue(g, rho, us));
    }
  }

  lemma {:induction false} TimesTermValue<V(!new)>(g: Algebra<V>, rho: Expr -> V, t: Term, us: seq<Term>)
    requires CommutativeSemiring(g)
    ensures TermsValue(g, rho, TimesTerm(t, us)) == g.mul(TermValue(g, rho, t), TermsValue(g, rho, us))
  {
    var a := TermValue(g, rho, t);
    if us == [] {
      assert At(g.zero, a, a) && At(a, g.zero, a);
    } else {
      TimesTermValue(g, rho, t, us[1..]);
      TermValueTimes(g, rho, t, us[0]);
      assert At(a, TermValue(g, rho, us[0]), TermsValue(g, rho, us[1..]));
    }
  }

  lemma {:induction false} TimesTermsValue<V(!new)>(g: Algebra<V>, rho: Expr -> V, ts: seq<Term>, us: seq<Term>)
    requires CommutativeSemiring(g)
    ensures TermsValue(g, rho, TimesTerms(ts, us)) == g.mul(TermsValue(g, rho, ts), TermsValue(g, rho, us))
  {
    var b := TermsValue(g, rho, us);
    if ts == [] {
      assert At(b, b, b);
    } else {
      var h, a := TermValue(g, rho, ts[0]), TermsValue(g, rho, ts[1..]);
      TimesTermsValue(g, rho, ts[1..], us);
      TimesTermValue(g, rho, ts[0], us);
      TermsValueConcat(g, rho, TimesTerm(ts[0], us), TimesTerms(ts[1..], us));
      assert At(b, h, a) && At(h, b, b) && At(a, b, b) && At(g.add(h, a), b, b);
    }
  }

  lemma UnitTermValue<V(!new)>(g: Algebra<V>, rho: Expr -> V, t: Term)
    requires CommutativeSemiring(g)
    ensures TermsValue(g, rho, [t]) == TermValue(g, rho, t)
    ensures t.nums == [] && t.word == [] ==> TermValue(g, rho, t) == g.one
    ensures |t.nums| == 1 && t.word == [] ==> TermValue(g, rho, t) == g.num(t.nums[0])
    ensures t.nums == [] && |t.word| == 1 ==> TermValue(g, rho, t) == rho(t.word[0])
  {
    var v := TermValue(g, rho, t);
    assert [t][1..] == [];
    assert TermsValue(g, rho, [t]) == g.add(v, g.zero);
    AddZero(g, v);
    var ns, ws := Map(g.num, t.nums), Map(rho, t.word);
    if t.nums == [] { assert At(Product(g, ws), g.one, g.one); }
    if |ws| == 1 { assert ws == [ws[0]] && ws[1..] == []; assert At(ws[0], g.one, g.one) && At(g.one, ws[0], g.one); }
    if |ns| == 1 { assert ns == [ns[0]] && ns[1..] == []; assert At(ns[0], g.one, g.one) && At(g.one, ns[0], g.one); }
  }

  lemma AddZero<V(!new)>(g: Algebra<V>, v: V)
    requires CommutativeSemiring(g)
    ensures g.add(v, g.zero) == v
  {
    assert At(v, g.zero, v);
  }

  lemma {:induction false} PowerTermsValue<V(!new)>(g: Algebra<V>, rho: Expr -> V, ts: seq<Term>, k: nat)
    requires CommutativeSemiring(g)
    ensures TermsValue(g, rho, PowerTerms(ts, k)) == Power(g, TermsValue(g, rho, ts), k)
  {
    if k == 0 {
      UnitTermValue(g, rho, Term([], []));
    } else {
      PowerTermsValue(g, rho, ts, k - 1);
      TimesTermsValue(g, rho, ts, PowerTerms(ts, k - 1));
    }
  }

  /** Multiplying out preserves the value of the expression, in every commutative semiring. */
  lemma {:induction false} ExpandPreservesValue<V(!new)>(g: Algebra<V>, rho: Expr -> V, e: Expr)
    requires CommutativeSemiring(g)
    ensures TermsValue(g, rho, Expand(e)) == Eval(g, rho, e)
    decreases e, 1
  {
    if e.Add? {
      ExpandSumValue(g, rho, e.args);
    } else if e.Mul? {
      ExpandProductValue(g, rho, e.args);
    } else if e.Multiplies() {
      ExpandPreservesValue(g, rho, e.base);
      PowerTermsValue(g, rho, Expand(e.base), e.Times());
    } else {
      UnitTermValue(g, rho, Expand(e)[0]);
    }
  }

  lemma {:induction false} ExpandSumValue<V(!new)>(g: Algebra<V>, rho: Expr -> V, es: seq<Expr>)
    requires CommutativeSemiring(g)
    ensures TermsValue(g, rho, ExpandSum(es)) == EvalSum(g, rho, es)
    decreases es, 0
  {
    if es != [] {
      ExpandPreservesValue(g, rho, es[0]);
      ExpandSumValue(g, rho, es[1..]);
      TermsValueConcat(g, rho, Expand(es[0]), ExpandSum(es[1..]));
    }
  }

  lemma {:induction false} ExpandProductValue<V(!new)>(g: Algebra<V>, rho: Expr -> V, es: seq<Expr>)
    requires CommutativeSemiring(g)
    ensures TermsValue(g, rho, ExpandProduct(es)) == EvalProduct(g, rho, es)
    decreases es, 0
  {
    if es == [] {
      UnitTermValue(g, rho, Term([], []));
    } else {
      ExpandPreservesValue(g, rho, es[0]);
      ExpandProductValue(g, rho, es[1..]);
      TimesTermsValue(g, rho, Expand(es[0]), ExpandProduct(es[1..]));
    }
  }

  // ---------- the bound ----------

  /** The bound without saturation. */
  function FullBound(e: Expr): nat
    decreases e, 1
  {
    if e.Add? then SumBound(e.args)
    else if e.Mul? then ProductBound(e.args)
    else if e.Multiplies() then
      if FullBound(e.base) <= 1 then 1 else MultiChoose(FullBound(e.base), e.Times())
    else 1
  }

  function SumBound(es: seq<Expr>): nat
    decreases es, 0
  {
    if es == [] then 0 else FullBound(es[0]) + SumBound(es[1..])
  }

  function ProductBound(es: seq<Expr>): nat
    decreases es, 0
  {
    if es == [] then 1 else FullBound(es[0]) * ProductBound(es[1..])
  }

  lemma {:induction false} MonosConcat(ts: seq<Term>, us: seq<Term>)
    ensures MonosOf(ts + us) == MonosOf(ts) + MonosOf(us)
  {
    forall m ensures m in MonosOf(ts + us) <==> m in MonosOf(ts) + MonosOf(us) {
      if m in MonosOf(ts) { var t :| t in ts && m == multiset(t.word); assert t in ts + us; }
      if m in MonosOf(us) { var t :| t in us && m == multiset(t.word); assert t in ts + us; }
    }
  }

  lemma {:induction false} TimesTermMonos(t: Term, us: seq<Term>)
    ensures MonosOf(TimesTerm(t, us)) == Products({multiset(t.word)}, MonosOf(us))
  {
    if us == [] {
      assert MonosOf(TimesTerm(t, us)) == {};
    } else {
      var r := TimesTerm(t, us);
      TimesTermMonos(t, us[1..]);
      assert r[1..] == TimesTerm(t, us[1..]);
      assert multiset(r[0].word) == multiset(t.word) + multiset(us[0].word);
      MonosCons(r);
      MonosCons(us);
      ProductsInsert(multiset(t.word), multiset(us[0].word), MonosOf(us[1..]));
    }
  }

  lemma ProductsInsert(m: Mono, u: Mono, b: set<Mono>)
    ensures Products({m}, {u} + b) == {m + u} + Products({m}, b)
  {
    forall z ensures z in Products({m}, {u} + b) <==> z in {m + u} + Products({m}, b) {
      if z == m + u { assert u in {u} + b; }
    }
  }

  lemma {:induction false} TimesTermsMonos(ts: seq<Term>, us: seq<Term>)
    ensures MonosOf(TimesTerms(ts, us)) == Products(MonosOf(ts), MonosOf(us))
  {
    if ts == [] {
      assert MonosOf(TimesTerms(ts, us)) == {};
    } else {
      var x, rest := multiset(ts[0].word), MonosOf(ts[1..]);
      TimesTermsMonos(ts[1..], us);
      TimesTermMonos(ts[0], us);
      MonosConcat(TimesTerm(ts[0], us), TimesTerms(ts[1..], us));
      MonosCons(ts);
      ProductsLeftUnion({x}, rest, MonosOf(us));
    }
  }

  lemma MonosCons(ts: seq<Term>)
    requires ts != []
    ensures MonosOf(ts) == {multiset(ts[0].word)} + MonosOf(ts[1..])
  {
    MonosConcat([ts[0]], ts[1..]);
    assert ts == [ts[0]] + ts[1..];
    assert MonosOf([ts[0]]) == {multiset(ts[0].word)};
  }

  lemma ProductsLeftUnion(a: set<Mono>, a': set<Mono>, b: set<Mono>)
    ensures Products(a + a', b) == Products(a, b) + Products(a', b)
  {
  }

  lemma {:induction false} PowerTermsMonos(ts: seq<Term>, k: nat)
    ensures MonosOf(PowerTerms(ts, k)) == KFold(MonosOf(ts), k)
  {
    if k == 0 {
      assert MonosOf([Term([], [])]) == {multiset{}};
    } else {
      PowerTermsMonos(ts, k - 1);
      TimesTermsMonos(ts, PowerTerms(ts, k - 1));
    }
  }

  lemma {:induction false} MultiChooseOne(k: nat)
    ensures MultiChoose(1, k) == 1 && MultiChoose(0, k) <= 1
  {
    if k > 0 { CombDiagonal(k); }
  }

  /** The expansion never has more distinct monomials than the unsaturated bound. */
  lemma {:induction false} FullBoundSound(e: Expr)
    ensures |Monomials(e)| <= FullBound(e)
    decreases e, 1
  {
    if e.Add? {
      SumBoundSound(e.args);
    } else if e.Mul? {
      ProductBoundSound(e.args);
    } else if e.Multiplies() {
      FullBoundSound(e.base);
      PowerSize(Expand(e.base), e.Times(), FullBound(e.base));
    } else {
      UnitMonos(Expand(e)[0]);
    }
  }

  lemma UnitMonos(t: Term)
    ensures MonosOf([t]) == {multiset(t.word)}
  {
  }

  lemma PowerSize(ts: seq<Term>, k: nat, b: nat)
    requires |MonosOf(ts)| <= b
    ensures |MonosOf(PowerTerms(ts, k))| <= if b <= 1 then 1 else MultiChoose(b, k)
  {
    PowerTermsMonos(ts, k);
    KFoldSize(MonosOf(ts), k);
    MultiChooseMonotone(|MonosOf(ts)|, b, k);
    MultiChooseOne(k);
  }

  lemma {:induction false} SumBoundSound(es: seq<Expr>)
    ensures |MonosOf(ExpandSum(es))| <= SumBound(es)
    decreases es, 0
  {
    if es == [] {
      assert MonosOf(ExpandSum(es)) == {};
    } else {
      FullBoundSound(es[0]);
      SumBoundSound(es[1..]);
      MonosConcat(Expand(es[0]), ExpandSum(es[1..]));
    }
  }

  lemma {:induction false} ProductBoundSound(es: seq<Expr>)
    ensures |MonosOf(ExpandProduct(es))| <= ProductBound(es)
    decreases es, 0
  {
    if es == [] {
      assert MonosOf(ExpandProduct(es)) == {multiset{}};
    } else {
      FullBoundSound(es[0]);
      ProductBoundSound(es[1..]);
      var a, b := Monomials(es[0]), MonosOf(ExpandProduct(es[1..]));
      TimesTermsMonos(Expand(es[0]), ExpandProduct(es[1..]));
      ProductsSize(a, b);
      MulMonotone(|a|, FullBound(es[0]), |b|, ProductBound(es[1..]));
    }
  }

  lemma MulMonotone(a: nat, a': nat, b: nat, b': nat)
    requires a <= a' && b <= b'
    ensures a * b <= a' * b'
  {
    assert a * b <= a' * b;
  }

  /** Every sum has at least one summand, as sympy's own constructors guarantee. */
  ghost predicate SumsNonEmpty(e: Expr) {
    match e
    case Add(args) => args != [] && forall a :: a in args ==> SumsNonEmpty(a)
    case Mul(args) => forall a :: a in args ==> SumsNonEmpty(a)
    case Pow(base, _) => SumsNonEmpty(base)
    case _ => true
  }

  lemma {:induction false} FullBoundPositive(e: Expr)
    requires SumsNonEmpty(e)
    ensures FullBound(e) >= 1
    decreases e, 1
  {
    if e.Add? {
      FullBoundPositive(e.args[0]);
    } else if e.Mul? {
      ProductBoundPositive(e.args);
    } else if e.Multiplies() && FullBound(e.base) > 1 && e.Times() > 0 {
      MultiChooseAtLeast(FullBound(e.base), e.Times());
    }
  }

  lemma {:induction false} ProductBoundPositive(es: seq<Expr>)
    requires forall a :: a in es ==> SumsNonEmpty(a)
    ensures ProductBound(es) >= 1
    decreases es, 0
  {
    if es != [] {
      FullBoundPositive(es[0]);
      ProductBoundPositive(es[1..]);
      MulMonotone(1, FullBound(es[0]), 1, ProductBound(es[1..]));
    }
  }

  // ---------- the bound is attained ----------

  ghost predicate Private(s: set<Mono>, x: Mono, a: Expr) {
    a in x && forall y :: y in s && y != x ==> a !in y
  }

  /** Each monomial but one, say the constant term, has a factor that no other one has. */
  ghost predicate FreeBut(s: set<Mono>, c: Mono) {
    forall x :: x in s && x != c ==> exists a :: Private(s, x, a)
  }

  ghost predicate Free(s: set<Mono>) {
    exists c :: FreeBut(s, c)
  }

  /** No monomial of a has a factor of one of b. */
  ghost predicate Unmixed(a: set<Mono>, b: set<Mono>) {
    forall x, y :: x in a && y in b ==> x !! y
  }

  lemma ShiftNew(x: Mono, y: Mono, b: set<Mono>)
    requires y !in b
    ensures x + y !in Products({x}, b)
  {
    forall z | z in b ensures x + y != x + z {
      assert (x + y) - x == y && (x + z) - x == z;
    }
  }

  lemma {:induction false} ShiftSame(x: Mono, b: set<Mono>)
    ensures |Products({x}, b)| == |b|
  {
    if b == {} {
      assert Products({x}, b) == {};
    } else {
      var y :| y in b;
      ShiftSame(x, b - {y});
      assert Products({x}, b) == Products({x}, b - {y}) + {x + y};
      ShiftNew(x, y, b - {y});
    }
  }

  lemma {:induction false} KFoldWithout(s: set<Mono>, a: Expr, k: nat)
    requires forall y :: y in s ==> a !in y
    ensures forall m :: m in KFold(s, k) ==> a !in m
  {
    if k > 0 { KFoldWithout(s, a, k - 1); }
  }

  lemma {:induction false} KFoldGrows(s: set<Mono>, t: set<Mono>, k: nat)
    requires s <= t
    ensures KFold(s, k) <= KFold(t, k)
  {
    if k > 0 { KFoldGrows(s, t, k - 1); }
  }

  /** With a private factor in x the two parts of the split share nothing. */
  lemma KFoldStepSame(s: set<Mono>, x: Mono, a: Expr, k: nat)
    requires x in s && k > 0 && Private(s, x, a)
    ensures |KFold(s, k)| == |KFold(s - {x}, k)| + |KFold(s, k - 1)|
  {
    var without, with := KFold(s - {x}, k), Products({x}, KFold(s, k - 1));
    KFoldSplit(s, x, k);
    KFoldGrows(s - {x}, s, k);
    assert with <= KFold(s, k);
    KFoldWithout(s - {x}, a, k);
    assert without !! with;
    assert KFold(s, k) == without + with;
    ShiftSame(x, KFold(s, k - 1));
  }

  lemma {:induction false} KFoldOne(c: Mono, k: nat)
    ensures |KFold({c}, k)| == 1
  {
    if k > 0 {
      KFoldOne(c, k - 1);
      ShiftSame(c, KFold({c}, k - 1));
    }
  }

  /** The counting theorem is sharp: k factors drawn from free monomials make all C(|s|+k-1, k). */
  lemma {:induction false} KFoldAttained(s: set<Mono>, c: Mono, k: nat)
    requires FreeBut(s, c)
    ensures |KFold(s, k)| == MultiChoose(|s|, k)
    decreases |s| + k
  {
    if k > 0 {
      if x :| x in s && x != c {
        var a :| Private(s, x, a);
        KFoldStepSame(s, x, a, k);
        FreeRest(s, c, x);
        KFoldAttained(s - {x}, c, k);
        KFoldAttained(s, c, k - 1);
        MultiChoosePascal(|s|, k);
      } else if s == {} {
        assert KFold(s, k) == {};
      } else {
        assert s == {c};
        KFoldOne(c, k);
        MultiChooseOne(k);
      }
    }
  }

  lemma FreeRest(s: set<Mono>, c: Mono, x: Mono)
    requires FreeBut(s, c)
    ensures FreeBut(s - {x}, c)
  {
    forall y | y in s - {x} && y != c ensures exists a :: Private(s - {x}, y, a) {
      var a :| Private(s, y, a);
      assert Private(s - {x}, y, a);
    }
  }

  lemma SameParts(x: Mono, y: Mono, x': Mono, y': Mono)
    requires x !! y && x !! y' && x' !! y && x' !! y' && x + y == x' + y'
    ensures x == x' && y == y'
  {
    forall a: Expr ensures x[a] == x'[a] && y[a] == y'[a] {
      assert (x + y)[a] == (x' + y')[a];
      assert x[a] == 0 || (y[a] == 0 && y'[a] == 0);
      assert x'[a] == 0 || (y[a] == 0 && y'[a] == 0);
    }
  }

  lemma ProductsApart(x: Mono, rest: set<Mono>, b: set<Mono>)
    requires x !in rest && Unmixed({x}, b) && Unmixed(rest, b)
    ensures Products(rest, b) !! Products({x}, b)
  {
    forall x', y', y | x' in rest && y' in b && y in b ensures x' + y' != x + y {
      if x' + y' == x + y { SameParts(x, y, x', y'); }
    }
  }

  lemma {:induction false} ProductsAttained(a: set<Mono>, b: set<Mono>)
    requires Unmixed(a, b)
    ensures |Products(a, b)| == |a| * |b|
  {
    if a == {} {
      assert Products(a, b) == {};
    } else {
      var x :| x in a;
      var rest := a - {x};
      ProductsAttained(rest, b);
      ShiftSame(x, b);
      ProductsRemove(a, b, x);
      ProductsApart(x, rest, b);
      assert |a| == |rest| + 1;
      MulSucc(|rest|, |b|);
    }
  }

  /** Nothing is collected when e is expanded: summands share no monomial, factors no symbol, and
      powers are taken of free sums such as 1 + x + y. */
  ghost predicate Sharp(e: Expr) {
    match e
    case Add(args) =>
      && (forall a :: a in args ==> Sharp(a))
      && (forall i, j :: 0 <= i < j < |args| ==> Monomials(args[i]) !! Monomials(args[j]))
    case Mul(args) =>
      && (forall a :: a in args ==> Sharp(a))
      && (forall i, j :: 0 <= i < j < |args| ==> Unmixed(Monomials(args[i]), Monomials(args[j])))
    case Pow(base, _) => e.Multiplies() ==> Sharp(base) && Free(Monomials(base))
    case _ => true
  }

  lemma {:induction false} SumMonos(es: seq<Expr>, m: Mono)
    requires m in MonosOf(ExpandSum(es))
    ensures exists i :: 0 <= i < |es| && m in Monomials(es[i])
  {
    MonosConcat(Expand(es[0]), ExpandSum(es[1..]));
    if m !in Monomials(es[0]) {
      SumMonos(es[1..], m);
      var i :| 0 <= i < |es[1..]| && m in Monomials(es[1..][i]);
      assert m in Monomials(es[i + 1]);
    }
  }

  lemma {:induction false} ProductUnmixed(a: set<Mono>, es: seq<Expr>)
    requires forall i :: 0 <= i < |es| ==> Unmixed(a, Monomials(es[i]))
    ensures Unmixed(a, MonosOf(ExpandProduct(es)))
  {
    if es == [] {
      assert MonosOf(ExpandProduct(es)) == {multiset{}};
    } else {
      assert Unmixed(a, Monomials(es[0]));
      ProductUnmixed(a, es[1..]);
      TimesTermsMonos(Expand(es[0]), ExpandProduct(es[1..]));
    }
  }

  lemma PowerAttained(ts: seq<Term>, k: nat, b: nat)
    requires Free(MonosOf(ts)) && |MonosOf(ts)| == b > 0
    ensures |MonosOf(PowerTerms(ts, k))| == if b <= 1 then 1 else MultiChoose(b, k)
  {
    var c :| FreeBut(MonosOf(ts), c);
    PowerTermsMonos(ts, k);
    KFoldAttained(MonosOf(ts), c, k);
    MultiChooseOne(k);
  }

  /** For an expression in which nothing is collected the unsaturated bound is exact. */
  lemma {:induction false} FullBoundAttained(e: Expr)
    requires Sharp(e) && SumsNonEmpty(e)
    ensures |Monomials(e)| == FullBound(e)
    decreases e, 1
  {
    if e.Add? {
      SumBoundAttained(e.args);
    } else if e.Mul? {
      ProductBoundAttained(e.args);
    } else if e.Multiplies() {
      FullBoundAttained(e.base);
      FullBoundPositive(e.base);
      PowerAttained(Expand(e.base), e.Times(), FullBound(e.base));
    } else {
      UnitMonos(Expand(e)[0]);
    }
  }

  lemma {:induction false} SumBoundAttained(es: seq<Expr>)
    requires forall a :: a in es ==> Sharp(a) && SumsNonEmpty(a)
    requires forall i, j :: 0 <= i < j < |es| ==> Monomials(es[i]) !! Monomials(es[j])
    ensures |MonosOf(ExpandSum(es))| == SumBound(es)
    decreases es, 0
  {
    if es == [] {
      assert MonosOf(ExpandSum(es)) == {};
    } else {
      FullBoundAttained(es[0]);
      SumBoundAttained(es[1..]);
      MonosConcat(Expand(es[0]), ExpandSum(es[1..]));
      var a, b := Monomials(es[0]), MonosOf(ExpandSum(es[1..]));
      forall m | m in b ensures m !in a {
        SumMonos(es[1..], m);
        var i :| 0 <= i < |es[1..]| && m in Monomials(es[1..][i]);
        assert Monomials(es[0]) !! Monomials(es[i + 1]);
      }
      assert a !! b;
    }
  }

  lemma {:induction false} ProductBoundAttained(es: seq<Expr>)
    requires forall a :: a in es ==> Sharp(a) && SumsNonEmpty(a)
    requires forall i, j :: 0 <= i < j < |es| ==> Unmixed(Monomials(es[i]), Monomials(es[j]))
    ensures |MonosOf(ExpandProduct(es))| == ProductBound(es)
    decreases es, 0
  {
    if es == [] {
      assert MonosOf(ExpandProduct(es)) == {multiset{}};
    } else {
      FullBoundAttained(es[0]);
      ProductBoundAttained(es[1..]);
      forall i | 0 <= i < |es[1..]| ensures Unmixed(Monomials(es[0]), Monomials(es[1..][i])) {
        assert es[1..][i] == es[i + 1];
      }
      ProductUnmixed(Monomials(es[0]), es[1..]);
      TimesTermsMonos(Expand(es[0]), ExpandProduct(es[1..]));
      ProductsAttained(Monomials(es[0]), MonosOf(ExpandProduct(es[1..])));
    }
  }

  lemma {:induction false} SymbolSum(xs: seq<Expr>)
    requires forall x :: x in xs ==> x.Symbol?
    ensures MonosOf(ExpandSum(xs)) == set x | x in xs :: multiset{x}
  {
    if xs != [] {
      var x, rest := xs[0], xs[1..];
      SymbolSum(rest);
      MonosConcat(Expand(x), ExpandSum(rest));
      SymbolMonos(x);
      assert forall y :: y in xs <==> y == x || y in rest;
    }
  }

  lemma SymbolMonos(x: Expr)
    requires x.Symbol?
    ensures Monomials(x) == {multiset{x}}
  {
    UnitMonos(Term([], [x]));
    assert multiset([x]) == multiset{x};
  }

  /** A power of a sum of distinct symbols has as many monomials as there are multisets of symbols. */
  lemma PowerOfSum(xs: seq<Expr>, k: nat)
    requires xs != [] && forall x :: x in xs ==> x.Symbol?
    requires forall i, j :: 0 <= i < j < |xs| ==> xs[i] != xs[j]
    ensures var e := Pow(Add(xs), Number(k as real));
      Sharp(e) && SumsNonEmpty(e) && |Monomials(e)| == Comb(|xs| + k - 1, k)
  {
    var sum := Add(xs);
    forall i, j | 0 <= i < j < |xs| ensures Monomials(xs[i]) !! Monomials(xs[j]) {
      SymbolMonos(xs[i]);
      SymbolMonos(xs[j]);
      assert xs[i] in multiset{xs[i]} && xs[i] !in multiset{xs[j]};
    }
    SymbolSum(xs);
    var s := Monomials(sum);
    forall m | m in s ensures exists a :: Private(s, m, a) {
      var x :| x in xs && m == multiset{x};
      assert Private(s, m, x);
    }
    assert FreeBut(s, multiset{});
    SymbolBounds(xs);
    FullBoundAttained(Pow(sum, Number(k as real)));
    MultiChooseOne(k);
  }

  lemma {:induction false} SymbolBounds(xs: seq<Expr>)
    requires forall x :: x in xs ==> x.Symbol?
    ensures SumBound(xs) == |xs|
  {
    if xs != [] {
      SymbolBounds(xs[1..]);
      assert xs[0].Symbol?;
    }
  }

  lemma {:induction false} SumBoundSplit(es: seq<Expr>, i: nat)
    requires i <= |es|
    ensures SumBound(es) == SumBound(es[..i]) + SumBound(es[i..])
  {
    if i == 0 {
      assert es[0..] == es;
    } else {
      SumBoundSplit(es[1..], i - 1);
      assert es[..i][1..] == es[1..][..i - 1] && es[1..][i - 1..] == es[i..];
    }
  }

  lemma {:induction false} ProductBoundSplit(es: seq<Expr>, i: nat)
    requires i <= |es|
    ensures ProductBound(es) == ProductBound(es[..i]) * ProductBound(es[i..])
  {
    if i == 0 {
      assert es[0..] == es;
    } else {
      ProductBoundSplit(es[1..], i - 1);
      assert es[..i][1..] == es[1..][..i - 1] && es[1..][i - 1..] == es[i..];
      MulAssoc(FullBound(es[0]), ProductBound(es[1..][..i - 1]), ProductBound(es[i..]));
      assert es[..i][0] == es[0];
    }
  }

  /** What saturation at cap + 1 may do to a bound: a result within the cap is exact, and an
      expression without empty sums saturates only if its bound really exceeds the cap. */
  ghost predicate Saturates(e: Expr, cap: nat, r: nat) {
    && r <= cap + 1
    && (r <= cap ==> r == FullBound(e))
    && (SumsNonEmpty(e) ==> r == if FullBound(e) <= cap then FullBound(e) else cap + 1)
  }

  method ExpandTermBound(e: Expr, cap: nat) returns (r: nat)
    ensures Saturates(e, cap, r)
    ensures r <= cap ==> |Monomials(e)| <= r
    ensures SumsNonEmpty(e) && Sharp(e) ==> r == if |Monomials(e)| <= cap then |Monomials(e)| else cap + 1
    decreases e, 1
  {
    FullBoundSound(e);
    if SumsNonEmpty(e) && Sharp(e) { FullBoundAttained(e); }
    if e.Add? {
      r := AddBound(e, e.args, cap);
    } else if e.Mul? {
      r := MulBound(e, e.args, cap);
    } else if e.Pow? {
      r := PowBound(e, cap);
    } else {
      r := 1;
    }
  }

  method AddBound(e: Expr, args: seq<Expr>, cap: nat) returns (r: nat)
    requires e == Add(args)
    ensures Saturates(e, cap, r)
    decreases e, 0
  {
    var total := 0;
    for i := 0 to |args|
      invariant total == SumBound(args[..i]) <= cap
    {
      var b := ExpandTermBound(args[i], cap);
      SumBoundSplit(args[..i + 1], i);
      assert args[..i + 1][..i] == args[..i] && args[..i + 1][i..] == [args[i]];
      assert SumBound([args[i]]) == FullBound(args[i]) + SumBound([args[i]][1..]);
      SumBoundSplit(args, i + 1);
      total := total + b;
      if total > cap {
        return cap + 1;
      }
    }
    assert args[..|args|] == args;
    return total;
  }

  method MulBound(e: Expr, args: seq<Expr>, cap: nat) returns (r: nat)
    requires e == Mul(args)
    ensures Saturates(e, cap, r)
    decreases e, 0
  {
    var prod := 1;
    for i := 0 to |args|
      invariant prod == ProductBound(args[..i])
      invariant i > 0 ==> prod <= cap
    {
      var b := ExpandTermBound(args[i], cap);
      ProductBoundSplit(args[..i + 1], i);
      assert args[..i + 1][..i] == args[..i] && args[..i + 1][i..] == [args[i]];
      assert ProductBound([args[i]]) == FullBound(args[i]) * ProductBound([args[i]][1..]) == FullBound(args[i]);
      ProductBoundSplit(args, i + 1);
      var before := prod;
      prod := prod * b;
      if prod > cap {
        if SumsNonEmpty(e) {
          ProductBoundPositive(args[i + 1..]);
          MulMonotone(before, before, b, FullBound(args[i]));
          MulMonotone(prod, ProductBound(args[..i + 1]), 1, ProductBound(args[i + 1..]));
        }
        return cap + 1;
      }
      if before > 0 && b > cap { MulMonotone(1, before, cap + 1, b); }
    }
    assert args[..|args|] == args;
    return prod;
  }

  method PowBound(e: Expr, cap: nat) returns (r: nat)
    requires e.Pow?
    ensures Saturates(e, cap, r)
    decreases e, 0
  {
    if !e.exp.IsNumber() || e.exp.HugeNumber? {
      return 1;
    }
    var f := e.exp.value;
    if f < 0.0 || f != f.Floor as real {
      return 1;
    }
    var k: nat := f.Floor;
    if SumsNonEmpty(e) { FullBoundPositive(e); FullBoundPositive(e.base); }
    var b := ExpandTermBound(e.base, cap);
    if b <= 1 {
      return 1;
    }
    var terms := Comb(b + k - 1, k);
    if k > 0 {
      MultiChooseAtLeast(b, k);
      if FullBound(e.base) > 0 { MultiChooseAtLeast(FullBound(e.base), k); }
    }
    return if terms <= cap then terms else cap + 1;
  }

  // ---------- the gate in front of the expansion ----------

  const MAX_DEPTH := 40
  const MAX_EXPONENT := 10.0
  const CAP := 2000

  predicate ExponentIsSmall(exp: Expr) {
    exp.Number? && -MAX_EXPONENT <= exp.value <= MAX_EXPONENT
  }

  predicate ExprIsSafe(e: Expr, depth: nat, allowSymbols: bool) {
    if depth > MAX_DEPTH then false
    else if e.IsNumber() || e.Constant? then true
    else if allowSymbols && e.Symbol? then true
    else if e.Add? || e.Mul? then forall a | a in e.args :: ExprIsSafe(a, depth + 1, allowSymbols)
    else if e.Pow? then ExponentIsSmall(e.exp) && ExprIsSafe(e.base, depth + 1, allowSymbols)
    else false
  }

  /** Every node is allowed and every exponent is a number between -10 and 10. */
  ghost predicate OnlySafeNodes(e: Expr, allowSymbols: bool) {
    match e
    case Number(_) => true
    case HugeNumber(_) => true
    case Constant(_) => true
    case Symbol(_) => allowSymbols
    case Add(args) => forall a :: a in args ==> OnlySafeNodes(a, allowSymbols)
    case Mul(args) => forall a :: a in args ==> OnlySafeNodes(a, allowSymbols)
    case Pow(base, exp) => exp.Number? && -10.0 <= exp.value <= 10.0 && OnlySafeNodes(base, allowSymbols)
    case Opaque(_) => false
  }

  /** No node outside the exponents is more than h levels down. */
  ghost predicate WithinHeight(e: Expr, h: int) {
    h >= 0 && match e
      case Add(args) => forall a :: a in args ==> WithinHeight(a, h - 1)
      case Mul(args) => forall a :: a in args ==> WithinHeight(a, h - 1)
      case Pow(base, _) => WithinHeight(base, h - 1)
      case _ => true
  }

  /** The guard passes exactly the expressions built of allowed nodes with small exponents that
      are no deeper than the limit. */
  lemma {:induction false} ExprIsSafeMeaning(e: Expr, depth: nat, allowSymbols: bool)
    ensures ExprIsSafe(e, depth, allowSymbols)
       <==> OnlySafeNodes(e, allowSymbols) && WithinHeight(e, 40 - depth)
  {
    if e.Add? || e.Mul? {
      forall a | a in e.args
        ensures ExprIsSafe(a, depth + 1, allowSymbols)
           <==> OnlySafeNodes(a, allowSymbols) && WithinHeight(a, MAX_DEPTH - depth - 1)
      {
        ExprIsSafeMeaning(a, depth + 1, allowSymbols);
      }
    } else if e.Pow? {
      ExprIsSafeMeaning(e.base, depth + 1, allowSymbols);
    }
  }

  predicate HasFreeSymbol(e: Expr) {
    match e
    case Symbol(_) => true
    case Add(args) => exists a | a in args :: HasFreeSymbol(a)
    case Mul(args) => exists a | a in args :: HasFreeSymbol(a)
    case Pow(base, exp) => HasFreeSymbol(base) || HasFreeSymbol(exp)
    case _ => false
  }

  /** v for every symbol of that name. */
  function Subst(e: Expr, name: string, v: Expr): Expr
    decreases e, 1
  {
    match e
    case Symbol(n) => if n == name then v else e
    case Add(args) => Add(SubstAll(args, name, v))
    case Mul(args) => Mul(SubstAll(args, name, v))
    case Pow(base, exp) => Pow(Subst(base, name, v), Subst(exp, name, v))
    case _ => e
  }

  function SubstAll(es: seq<Expr>, name: string, v: Expr): (r: seq<Expr>)
    ensures |r| == |es|
    decreases es, 0
  {
    if es == [] then [] else [Subst(es[0], name, v)] + SubstAll(es[1..], name, v)
  }

  lemma {:induction false} SubstAt(es: seq<Expr>, name: string, v: Expr, i: nat)
    requires i < |es|
    ensures SubstAll(es, name, v)[i] == Subst(es[i], name, v)
  {
    if i > 0 { SubstAt(es[1..], name, v, i - 1); }
  }

  lemma {:induction false} WithoutSymbols(e: Expr, name: string, v: Expr)
    requires !HasFreeSymbol(e)
    ensures Subst(e, name, v) == e
  {
    match e {
      case Add(args) => WithoutSymbolsAll(args, name, v);
      case Mul(args) => WithoutSymbolsAll(args, name, v);
      case Pow(base, exp) =>
        WithoutSymbols(base, name, v);
        WithoutSymbols(exp, name, v);
      case _ =>
    }
  }

  lemma {:induction false} WithoutSymbolsAll(es: seq<Expr>, name: string, v: Expr)
    requires forall e :: e in es ==> !HasFreeSymbol(e)
    ensures SubstAll(es, name, v) == es
  {
    forall i | 0 <= i < |es| ensures SubstAll(es, name, v)[i] == es[i] {
      SubstAt(es, name, v, i);
      WithoutSymbols(es[i], name, v);
    }
  }

  lemma {:induction false} SomeSymbol(e: Expr, v: Expr) returns (name: string)
    requires HasFreeSymbol(e) && !v.Symbol?
    ensures Subst(e, name, v) != e
  {
    match e {
      case Symbol(n) => name := n;
      case Add(args) => name := SomeSymbolIn(args, v);
      case Mul(args) => name := SomeSymbolIn(args, v);
      case Pow(base, exp) =>
        if HasFreeSymbol(base) { name := SomeSymbol(base, v); } else { name := SomeSymbol(exp, v); }
    }
  }

  lemma {:induction false} SomeSymbolIn(es: seq<Expr>, v: Expr) returns (name: string)
    requires !v.Symbol? && exists e :: e in es && HasFreeSymbol(e)
    ensures SubstAll(es, name, v) != es
  {
    var e :| e in es && HasFreeSymbol(e);
    var i :| 0 <= i < |es| && es[i] == e;
    name := SomeSymbol(es[i], v);
    SubstAt(es, name, v, i);
  }

  /** Free symbols are what a substitution can see. */
  lemma FreeSymbolMeaning(e: Expr, v: Expr)
    requires !v.Symbol?
    ensures HasFreeSymbol(e) <==> exists name :: Subst(e, name, v) != e
  {
    if HasFreeSymbol(e) {
      var name := SomeSymbol(e, v);
    } else {
      forall name ensures Subst(e, name, v) == e { WithoutSymbols(e, name, v); }
    }
  }

  function Difference(x: Expr, y: Expr): Expr {
    Add([x, Mul([Number(-1.0), y])])
  }

  predicate Admissible(e: Expr) {
    HasFreeSymbol(e) && ExprIsSafe(e, 0, true)
  }

  /** Whether two parsed answers get as far as `expand`. When they do, the difference that is
      expanded has at most twice the cap of monomials; and two answers with admissible nodes are
      turned away only because one of them really exceeds the cap. */
  method SymbolicGate(xc: Expr, xg: Expr) returns (ok: bool)
    ensures ok ==> Admissible(xc) && Admissible(xg) && |Monomials(Difference(xc, xg))| <= 4000
    ensures SumsNonEmpty(xc) && SumsNonEmpty(xg) ==>
      (ok <==> Admissible(xc) && Admissible(xg) && FullBound(xc) <= CAP && FullBound(xg) <= CAP)
    ensures SumsNonEmpty(xc) && SumsNonEmpty(xg) && Sharp(xc) && Sharp(xg) ==>
      (ok <==> Admissible(xc) && Admissible(xg) && |Monomials(xc)| <= 2000 && |Monomials(xg)| <= 2000)
  {
    if SumsNonEmpty(xc) && Sharp(xc) { FullBoundAttained(xc); }
    if SumsNonEmpty(xg) && Sharp(xg) { FullBoundAttained(xg); }
    if !(HasFreeSymbol(xc) && HasFreeSymbol(xg)) { return false; }
    if !(ExprIsSafe(xc, 0, true) && ExprIsSafe(xg, 0, true)) { return false; }
    var bc := ExpandTermBound(xc, CAP);
    if bc > CAP { return false; }
    var bg := ExpandTermBound(xg, CAP);
    if bg > CAP { return false; }
    FullBoundSound(Difference(xc, xg));
    DifferenceBound(xc, xg);
    return true;
  }

  lemma DifferenceBound(x: Expr, y: Expr)
    ensures FullBound(Difference(x, y)) == FullBound(x) + FullBound(y)
  {
    var ds, ms := Difference(x, y).args, [Number(-1.0), y];
    assert ms[1..] == [y] && [y][1..] == [];
    assert ds[1..] == [Mul(ms)] && [Mul(ms)][1..] == [];
    assert ProductBound([y]) == FullBound(y) * ProductBound([y][1..]) == FullBound(y);
    assert ProductBound(ms) == FullBound(ms[0]) * ProductBound(ms[1..]) == FullBound(y);
    assert SumBound([Mul(ms)]) == FullBound(Mul(ms)) + SumBound([Mul(ms)][1..]) == FullBound(y);
    assert SumBound(ds) == FullBound(ds[0]) + SumBound(ds[1..]);
  }
}
