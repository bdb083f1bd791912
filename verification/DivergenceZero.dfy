/** When the divergences vanish: only between a distribution and itself. */
module DivergenceZero {
  import opened Arithmetic
  import opened FiniteDist
  import opened Divergence

  /** A logarithm that meets its bound from below only at one, where it is zero. */
  ghost predicate IsSharpLog(lg: real -> real, c: real) {
    IsLog(lg, c) && lg(1.0) == 0.0 && forall x :: x > 0.0 && x != 1.0 ==> lg(x) > c * (1.0 - 1.0 / x)
  }

  predicate Above(t: real, c: real, p: real, q: real) {
    t > c * (p - q)
  }

  // ------------------------------------------------------------- strict bounds

  lemma SharpTerm(lg: real -> real, c: real, p: real, q: real)
    requires IsSharpLog(lg, c) && p > 0.0 && q > 0.0 && p != q
    ensures Above(p * lg(p / q), c, p, q)
  {
    Ratio(p, q);
    NotOne(p, q);
    assert lg(p / q) > c * (1.0 - 1.0 / (p / q));
    TimesAbove(p, lg(p / q), c, 1.0 - 1.0 / (p / q), p - q);
  }

  lemma NotOne(p: real, q: real)
    requires p > 0.0 && q > 0.0 && p != q
    ensures p / q != 1.0
  {
    assert (p / q) * q == p;
  }

  lemma TimesAbove(p: real, l: real, c: real, d: real, e: real)
    requires p > 0.0 && l > c * d && p * d == e
    ensures p * l > c * e
  {
    Grows(p, c * d, l);
    assert p * (c * d) == c * (p * d);
  }

  /** One summand above its bound lifts the whole sum above its own. */
  lemma TermsAbove(keys: set<int>, p: int -> real, q: int -> real, term: int -> real, c: real, k: int)
    requires k in keys && Above(term(k), c, p(k), q(k))
    requires forall j :: j in keys ==> AtLeast(term(j), c, p(j), q(j))
    ensures Above(SumOver(keys, term), c, SumOver(keys, p), SumOver(keys, q))
  {
    var rest := keys - {k};
    SumRemove(keys, term, k);
    SumRemove(keys, p, k);
    SumRemove(keys, q, k);
    TermsBound(rest, p, q, term, c);
    AddAbove(term(k), p(k), q(k), SumOver(rest, term), SumOver(rest, p), SumOver(rest, q), c);
  }

  lemma AddAbove(t: real, p: real, q: real, t': real, p': real, q': real, c: real)
    requires Above(t, c, p, q) && AtLeast(t', c, p', q')
    ensures Above(t + t', c, p + p', q + q')
  {
    Distribute(c, p - q, p' - q');
  }

  lemma AboveZero(t: real, c: real, s: real)
    requires Above(t, c, s, s)
    ensures t > 0.0
  {
  }

  /** Two distributions that differ hold some key with unlike values. */
  lemma KeyApart(p: Dist, q: Dist) returns (k: int)
    requires IsDistribution(p) && IsDistribution(q) && p != q
    ensures k in p.Keys + q.Keys && Val(p, k) != Val(q, k)
  {
    if j :| j in p.Keys + q.Keys && Val(p, j) != Val(q, j) {
      k := j;
    } else {
      SameKeys(p, q);
    }
  }

  lemma SameKeys(p: Dist, q: Dist)
    requires (forall k :: k in p ==> p[k] > 0.0) && (forall k :: k in q ==> q[k] > 0.0)
    requires forall k :: k in p.Keys + q.Keys ==> Val(p, k) == Val(q, k)
    ensures p == q
  {
    forall k
      ensures k in p <==> k in q
    {
      assert k in p ==> k in p.Keys + q.Keys && Val(p, k) > 0.0;
      assert k in q ==> k in p.Keys + q.Keys && Val(q, k) > 0.0;
    }
    assert p.Keys == q.Keys;
    forall k | k in p
      ensures p[k] == q[k]
    {
      assert k in p.Keys + q.Keys;
    }
  }

  // ------------------------------------------------------------- KL divergence

  /** Smoothed KL between distributions is zero exactly if they are equal. */
  lemma KlZero(p: Dist, q: Dist, eps: real, lg: real -> real, c: real)
    requires IsSharpLog(lg, c) && eps > 0.0 && IsDistribution(p) && IsDistribution(q)
    ensures Kl(p, q, eps, lg) >= 0.0
    ensures Kl(p, q, eps, lg) == 0.0 <==> p == q
  {
    KlNonNegative(p, q, eps, lg, c);
    var keys := p.Keys + q.Keys;
    NormaliserIs(eps, keys);
    if p == q {
      KlOfItself(p, eps, Normaliser(eps, |keys|), lg, c);
      assert keys == p.Keys;
    } else {
      var k := KeyApart(p, q);
      KlPositive(p, q, eps, Normaliser(eps, |keys|), keys, lg, c, k);
    }
  }

  lemma KlOfItself(p: Dist, eps: real, z: real, lg: real -> real, c: real)
    requires IsSharpLog(lg, c) && eps > 0.0 && NonNegative(p) && z > 0.0
    ensures SumOver(p.Keys, TermOf(SmoothedOf(p, eps, z), SmoothedOf(p, eps, z), lg)) == 0.0
  {
    var s := SmoothedOf(p, eps, z);
    forall k | k in p.Keys
      ensures s(k) > 0.0
    {
      SmoothedPositive(p, eps, z, k);
    }
    OwnTerms(p.Keys, s, lg);
  }

  lemma SmoothedPositive(p: Dist, eps: real, z: real, k: int)
    requires eps > 0.0 && NonNegative(p) && z > 0.0
    ensures SmoothedOf(p, eps, z)(k) > 0.0
  {
    var inv := Inverse(z);
    SmoothedAt(p, eps, z, k, inv);
  }

  lemma OwnTerms(keys: set<int>, s: int -> real, lg: real -> real)
    requires lg(1.0) == 0.0 && forall k :: k in keys ==> s(k) > 0.0
    ensures SumOver(keys, TermOf(s, s, lg)) == 0.0
  {
    forall k | k in keys
      ensures TermOf(s, s, lg)(k) == 0.0
    {
      OwnTerm(s(k), lg);
    }
    SumZero(keys, TermOf(s, s, lg));
  }

  lemma {:induction false} SumZero(keys: set<int>, f: int -> real)
    requires forall k :: k in keys ==> f(k) == 0.0
    ensures SumOver(keys, f) == 0.0
  {
    if keys != {} {
      SumZero(keys - {Smallest(keys)}, f);
    }
  }

  lemma OwnTerm(x: real, lg: real -> real)
    requires x > 0.0 && lg(1.0) == 0.0
    ensures x * lg(Over(x, x)) == 0.0
  {
    assert x / x == 1.0;
  }

  lemma KlPositive(p: Dist, q: Dist, eps: real, z: real, keys: set<int>, lg: real -> real, c: real, k: int)
    requires IsSharpLog(lg, c) && eps > 0.0 && IsDistribution(p) && IsDistribution(q)
    requires p.Keys <= keys && q.Keys <= keys && z == 1.0 + SumOver(keys, ConstantOf(eps)) > 0.0
    requires k in keys && Val(p, k) != Val(q, k)
    ensures SumOver(keys, TermOf(SmoothedOf(p, eps, z), SmoothedOf(q, eps, z), lg)) > 0.0
  {
    SmoothedMass(p, eps, z, keys);
    SmoothedMass(q, eps, z, keys);
    SmoothedApart(p, q, eps, z, k);
    SharpGibbs(keys, SmoothedOf(p, eps, z), SmoothedOf(q, eps, z), lg, c, k);
  }

  lemma SmoothedApart(p: Dist, q: Dist, eps: real, z: real, k: int)
    requires z > 0.0 && Val(p, k) != Val(q, k)
    ensures SmoothedOf(p, eps, z)(k) != SmoothedOf(q, eps, z)(k)
  {
    DividedApart(Val(p, k) + eps, Val(q, k) + eps, z);
  }

  lemma DividedApart(x: real, y: real, z: real)
    requires z > 0.0 && x != y
    ensures x / z != y / z
  {
    assert (x / z) * z == x && (y / z) * z == y;
  }

  lemma SharpGibbs(keys: set<int>, p: int -> real, q: int -> real, lg: real -> real, c: real, k: int)
    requires IsSharpLog(lg, c) && forall j :: j in keys ==> p(j) > 0.0 && q(j) > 0.0
    requires SumOver(keys, p) == 1.0 && SumOver(keys, q) == 1.0 && k in keys && p(k) != q(k)
    ensures SumOver(keys, TermOf(p, q, lg)) > 0.0
  {
    SharpSum(keys, p, q, lg, c, k);
    AboveZero(SumOver(keys, TermOf(p, q, lg)), c, 1.0);
  }

  lemma SharpSum(keys: set<int>, p: int -> real, q: int -> real, lg: real -> real, c: real, k: int)
    requires IsSharpLog(lg, c) && forall j :: j in keys ==> p(j) > 0.0 && q(j) > 0.0
    requires k in keys && p(k) != q(k)
    ensures Above(SumOver(keys, TermOf(p, q, lg)), c, SumOver(keys, p), SumOver(keys, q))
  {
    TermBounds(keys, p, q, lg, c);
    SharpTermAt(p, q, lg, c, k);
    TermsAbove(keys, p, q, TermOf(p, q, lg), c, k);
  }

  lemma SharpTermAt(p: int -> real, q: int -> real, lg: real -> real, c: real, k: int)
    requires IsSharpLog(lg, c) && p(k) > 0.0 && q(k) > 0.0 && p(k) != q(k)
    ensures Above(TermOf(p, q, lg)(k), c, p(k), q(k))
  {
    SharpTerm(lg, c, p(k), q(k));
  }

  // --------------------------------------------------------- Jensen-Shannon

  /** Two distributions are entirely similar exactly if they are equal. */
  lemma SimilarityOne(a: Dist, b: Dist, lg: real -> real, c: real)
    requires IsSharpLog(lg, c) && IsDistribution(a) && IsDistribution(b)
    ensures Similarity(a, b, lg) == 1.0 <==> a == b
  {
    JsBounds(a, b, lg, c);
    if a == b {
      JsOfItself(a, lg, c);
    } else {
      var k := KeyApart(a, b);
      JsPositive(a, b, lg, c, k);
    }
  }

  lemma JsOfItself(a: Dist, lg: real -> real, c: real)
    requires IsSharpLog(lg, c) && IsDistribution(a)
    ensures Js(a, a, lg) == 0.0
  {
    assert a.Keys + a.Keys == a.Keys;
    assert Middle(a, a) == a;
    forall k | k in a.Keys
      ensures ToTermOf(ValOf(a), ValOf(a), lg)(k) == 0.0
    {
      OwnTerm(a[k], lg);
    }
    SumZero(a.Keys, ToTermOf(ValOf(a), ValOf(a), lg));
  }

  lemma JsPositive(a: Dist, b: Dist, lg: real -> real, c: real, k: int)
    requires IsSharpLog(lg, c) && IsDistribution(a) && IsDistribution(b)
    requires k in a.Keys + b.Keys && Val(a, k) != Val(b, k)
    ensures Js(a, b, lg) > 0.0
  {
    var keys, m := a.Keys + b.Keys, Middle(a, b);
    MiddleTotal(a, b);
    assert m.Keys == keys;
    forall j | j in keys
      ensures Val(m, j) >= 0.5 * Val(a, j) && Val(m, j) >= 0.5 * Val(b, j)
    {
    }
    KlToBounds(keys, a, m, lg, c);
    KlToBounds(keys, b, m, lg, c);
    if Val(a, k) > 0.0 {
      KlToPositive(keys, a, m, lg, c, k);
    } else {
      KlToPositive(keys, b, m, lg, c, k);
    }
  }

  lemma KlToPositive(keys: set<int>, p: Dist, m: Dist, lg: real -> real, c: real, k: int)
    requires IsSharpLog(lg, c) && IsDistribution(p) && Total(m) == 1.0
    requires p.Keys <= keys && m.Keys <= keys
    requires forall j :: j in keys ==> Val(m, j) >= 0.5 * Val(p, j)
    requires k in keys && Val(p, k) > 0.0 && Val(m, k) != Val(p, k)
    ensures KlTo(keys, p, m, lg) > 0.0
  {
    SumWiden(p.Keys, keys, ValOf(p));
    SumWiden(m.Keys, keys, ValOf(m));
    ToTermsAbove(keys, ValOf(p), ValOf(m), lg, c, k);
    AboveZero(KlTo(keys, p, m, lg), c, 1.0);
  }

  lemma ToTermsAbove(keys: set<int>, p: int -> real, m: int -> real, lg: real -> real, c: real, k: int)
    requires IsSharpLog(lg, c) && (forall j :: j in keys ==> p(j) >= 0.0 && m(j) >= 0.5 * p(j))
    requires k in keys && p(k) > 0.0 && m(k) != p(k)
    ensures Above(SumOver(keys, ToTermOf(p, m, lg)), c, SumOver(keys, p), SumOver(keys, m))
  {
    ToTermsBounds(keys, p, m, lg, c);
    ToTermAbove(p, m, lg, c, k);
    TermsAbove(keys, p, m, ToTermOf(p, m, lg), c, k);
  }

  lemma ToTermAbove(p: int -> real, m: int -> real, lg: real -> real, c: real, k: int)
    requires IsSharpLog(lg, c) && p(k) > 0.0 && m(k) >= 0.5 * p(k) && m(k) != p(k)
    ensures Above(ToTermOf(p, m, lg)(k), c, p(k), m(k))
  {
    SharpTerm(lg, c, p(k), m(k));
  }
}
