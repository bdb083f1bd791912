/** KL divergence with smoothing, and Jensen-Shannon similarity, over finite
    distributions. The logarithm is a parameter; what is used of it is stated. */
module Divergence {
  import opened Wrappers
  import opened Arithmetic
  import opened FiniteDist

  /** What is assumed of log2: a tangent-like lower bound with some positive
      constant, monotonicity, and its value at two. */
  ghost predicate IsLog(lg: real -> real, c: real) {
    && c > 0.0
    && (forall x :: x > 0.0 ==> lg(x) >= c * (1.0 - 1.0 / x))
    && (forall x, y :: 0.0 < x <= y ==> lg(x) <= lg(y))
    && lg(2.0) == 1.0
  }

  /** One summand p * log(p / q) against its linear lower bound. */
  lemma LogTerm(lg: real -> real, c: real, p: real, q: real)
    requires IsLog(lg, c) && p > 0.0 && q > 0.0
    ensures p * lg(p / q) >= c * (p - q)
  {
    var x := p / q;
    Ratio(p, q);
    assert lg(x) >= c * (1.0 - 1.0 / x);
    TimesBound(p, lg(x), c, 1.0 - 1.0 / x, p - q);
  }

  lemma Ratio(p: real, q: real)
    requires p > 0.0 && q > 0.0
    ensures p / q > 0.0 && p * (1.0 - 1.0 / (p / q)) == p - q
  {
    var x := p / q;
    assert x * q == p;
    assert x > 0.0;
    var y := 1.0 / x;
    assert y * x == 1.0;
    assert p * y == q by {
      assert p * y == (x * q) * y == q * (y * x);
    }
    assert p * (1.0 - y) == p - p * y;
  }

  lemma TimesBound(p: real, l: real, c: real, d: real, e: real)
    requires p > 0.0 && l >= c * d && p * d == e
    ensures p * l >= c * e
  {
    RealTimesMonotone(p, c * d, l);
    assert p * (c * d) == c * (p * d);
  }

  /** Division; the sums below never divide by zero. */
  function Over(x: real, y: real): real {
    if y == 0.0 then 0.0 else x / y
  }

  predicate AtLeast(t: real, c: real, p: real, q: real) {
    t >= c * (p - q)
  }

  /** Bounds on the summands add up to a bound by the difference of the masses. */
  lemma {:induction false} TermsBound(keys: set<int>, p: int -> real, q: int -> real, term: int -> real, c: real)
    requires forall k :: k in keys ==> AtLeast(term(k), c, p(k), q(k))
    ensures AtLeast(SumOver(keys, term), c, SumOver(keys, p), SumOver(keys, q))
  {
    if keys != {} {
      var m := Smallest(keys);
      TermsBound(keys - {m}, p, q, term, c);
      AddBounds(term(m), p(m), q(m), SumOver(keys - {m}, term), SumOver(keys - {m}, p), SumOver(keys - {m}, q), c);
    }
  }

  lemma AddBounds(t: real, p: real, q: real, t': real, p': real, q': real, c: real)
    requires AtLeast(t, c, p, q) && AtLeast(t', c, p', q')
    ensures AtLeast(t + t', c, p + p', q + q')
  {
    Distribute(c, p - q, p' - q');
  }

  // ------------------------------------------------------------- KL divergence

  function SmoothedOf(d: Dist, eps: real, z: real): int -> real {
    k => Over(Val(d, k) + eps, z)
  }

  /** The common normaliser of both smoothed distributions. */
  function Normaliser(eps: real, n: nat): real {
    1.0 + eps * n as real
  }

  function TermOf(p: int -> real, q: int -> real, lg: real -> real): int -> real {
    k => p(k) * lg(Over(p(k), q(k)))
  }

  function Kl(p: Dist, q: Dist, eps: real, lg: real -> real): real {
    var keys := p.Keys + q.Keys;
    var z := Normaliser(eps, |keys|);
    SumOver(keys, TermOf(SmoothedOf(p, eps, z), SmoothedOf(q, eps, z), lg))
  }

  /** Every quotient and logarithm of the sum is defined: no divisor is zero, and
      the logarithm's argument is positive. */
  predicate Defined(p: Dist, q: Dist, eps: real) {
    var keys := p.Keys + q.Keys;
    var z := Normaliser(eps, |keys|);
    forall k | k in keys :: SummandDefined(SmoothedOf(p, eps, z), SmoothedOf(q, eps, z), z, k)
  }

  predicate SummandDefined(p: int -> real, q: int -> real, z: real, k: int) {
    z != 0.0 && q(k) != 0.0 && Over(p(k), q(k)) > 0.0
  }

  datatype Error = Undefined

  /** One summand, as the loop computes it. */
  method Summand(p: int -> real, q: int -> real, z: real, lg: real -> real, k: int) returns (t: Result<real, Error>)
    ensures t == if SummandDefined(p, q, z, k) then Ok(TermOf(p, q, lg)(k)) else Err(Undefined)
  {
    if z == 0.0 {
      return Err(Undefined);
    }
    var pv, qv := p(k), q(k);
    if qv == 0.0 || !(Over(pv, qv) > 0.0) {
      return Err(Undefined);
    }
    assert TermOf(p, q, lg)(k) == pv * lg(Over(pv, qv));
    return Ok(pv * lg(Over(pv, qv)));
  }

  /** The accumulating loop, over the key union in any order; the first summand
      that is not defined ends it. */
  method KlDivergence(p: Dist, q: Dist, eps: real, lg: real -> real) returns (out: Result<real, Error>)
    ensures out == if Defined(p, q, eps) then Ok(Kl(p, q, eps, lg)) else Err(Undefined)
  {
    var keys := p.Keys + q.Keys;
    var z := Normaliser(eps, |keys|);
    out := Accumulate(keys, SmoothedOf(p, eps, z), SmoothedOf(q, eps, z), z, lg);
  }

  method Accumulate(keys: set<int>, p: int -> real, q: int -> real, z: real, lg: real -> real) returns (out: Result<real, Error>)
    ensures out == if forall k :: k in keys ==> SummandDefined(p, q, z, k) then Ok(SumOver(keys, TermOf(p, q, lg))) else Err(Undefined)
  {
    var sum := 0.0;
    var rest := keys;
    ghost var term := TermOf(p, q, lg);
    while rest != {}
      invariant rest <= keys && sum + SumOver(rest, term) == SumOver(keys, term)
      invariant forall k :: k in keys - rest ==> SummandDefined(p, q, z, k)
    {
      ghost var some := Member(rest);
      var k :| k in rest;
      SumRemove(rest, term, k);
      var t := Summand(p, q, z, lg, k);
      if t.Err? {
        assert k in keys;
        return Err(t.error);
      }
      sum := sum + t.value;
      rest := rest - {k};
    }
    return Ok(sum);
  }

  /** With a positive eps and no negative weight the sum is always defined. */
  lemma AlwaysDefined(p: Dist, q: Dist, eps: real)
    requires eps > 0.0 && NonNegative(p) && NonNegative(q)
    ensures Defined(p, q, eps)
  {
    var keys := p.Keys + q.Keys;
    var z := Normaliser(eps, |keys|);
    NormaliserIs(eps, keys);
    forall k | k in keys
      ensures SummandDefined(SmoothedOf(p, eps, z), SmoothedOf(q, eps, z), z, k)
    {
      var inv := Inverse(z);
      SmoothedAt(p, eps, z, k, inv);
      SmoothedAt(q, eps, z, k, inv);
      PositiveRatio(SmoothedOf(p, eps, z)(k), SmoothedOf(q, eps, z)(k));
    }
  }

  lemma PositiveRatio(x: real, y: real)
    requires x > 0.0 && y > 0.0
    ensures Over(x, y) > 0.0
  {
  }

  /** Without smoothing it is defined exactly between distributions on the same keys. */
  lemma DefinedUnsmoothed(p: Dist, q: Dist)
    requires (forall k :: k in p ==> p[k] > 0.0) && (forall k :: k in q ==> q[k] > 0.0)
    ensures Defined(p, q, 0.0) <==> p.Keys == q.Keys
  {
    var keys := p.Keys + q.Keys;
    var z := Normaliser(0.0, |keys|);
    Unsmoothed(|keys|);
    forall k | k in keys
      ensures SummandDefined(SmoothedOf(p, 0.0, z), SmoothedOf(q, 0.0, z), z, k) <==> k in p && k in q
    {
      UnsmoothedAt(p, k);
      UnsmoothedAt(q, k);
      RatioDefined(Val(p, k), Val(q, k));
    }
    if Defined(p, q, 0.0) {
      forall k
        ensures k in p <==> k in q
      {
        assert k in p || k in q ==> k in keys;
      }
    }
  }

  lemma Unsmoothed(n: nat)
    ensures Normaliser(0.0, n) == 1.0
  {
  }

  lemma UnsmoothedAt(d: Dist, k: int)
    ensures SmoothedOf(d, 0.0, 1.0)(k) == Val(d, k)
  {
  }

  lemma RatioDefined(x: real, y: real)
    requires x >= 0.0 && y >= 0.0
    ensures y != 0.0 && Over(x, y) > 0.0 <==> x > 0.0 && y > 0.0
  {
    if y > 0.0 && x > 0.0 {
      PositiveRatio(x, y);
    } else if y > 0.0 {
      assert 0.0 / y == 0.0;
    }
  }

  ghost predicate NonNegative(d: Dist) {
    forall k :: k in d ==> d[k] >= 0.0
  }

  /** The normaliser is one plus the mass of eps on every key. */
  lemma NormaliserIs(eps: real, keys: set<int>)
    requires eps > 0.0
    ensures Normaliser(eps, |keys|) == 1.0 + SumOver(keys, ConstantOf(eps)) > 0.0
  {
    SumConstant(keys, ConstantOf(eps), eps);
    RealTimesMonotone(eps, 0.0, |keys| as real);
  }

  lemma SmoothedAt(d: Dist, eps: real, z: real, k: int, inv: real)
    requires eps > 0.0 && NonNegative(d) && z > 0.0 && inv * z == 1.0
    ensures SmoothedOf(d, eps, z)(k) == inv * Shifted(d, eps)(k)
    ensures SmoothedOf(d, eps, z)(k) > 0.0
  {
    Divided(Val(d, k) + eps, z, inv);
  }

  function Shifted(d: Dist, eps: real): int -> real {
    k => Val(d, k) + eps
  }

  /** The mass after adding eps to every key. */
  lemma ShiftedTotal(d: Dist, eps: real, keys: set<int>)
    requires d.Keys <= keys
    ensures SumOver(keys, Shifted(d, eps)) == Total(d) + SumOver(keys, ConstantOf(eps))
  {
    SumAdd(keys, ValOf(d), ConstantOf(eps), Shifted(d, eps));
    SumWiden(d.Keys, keys, ValOf(d));
  }

  /** The mass after smoothing, and that every smoothed value is positive. */
  lemma SmoothedTotal(d: Dist, eps: real, z: real, keys: set<int>, inv: real)
    requires eps > 0.0 && NonNegative(d) && z > 0.0 && inv * z == 1.0
    ensures SumOver(keys, SmoothedOf(d, eps, z)) == inv * SumOver(keys, Shifted(d, eps))
    ensures forall k :: k in keys ==> SmoothedOf(d, eps, z)(k) > 0.0
  {
    forall k | k in keys
      ensures SmoothedOf(d, eps, z)(k) > 0.0
    {
      SmoothedAt(d, eps, z, k, inv);
    }
    SmoothedSum(d, eps, z, keys, inv);
  }

  lemma SmoothedEverywhere(d: Dist, eps: real, z: real, keys: set<int>, inv: real)
    requires eps > 0.0 && NonNegative(d) && z > 0.0 && inv * z == 1.0
    ensures ScaledOn(keys, Shifted(d, eps), inv, SmoothedOf(d, eps, z))
  {
    forall k | k in keys
      ensures SmoothedOf(d, eps, z)(k) == inv * Shifted(d, eps)(k)
    {
      SmoothedAt(d, eps, z, k, inv);
    }
  }

  lemma SmoothedSum(d: Dist, eps: real, z: real, keys: set<int>, inv: real)
    requires eps > 0.0 && NonNegative(d) && z > 0.0 && inv * z == 1.0
    ensures SumOver(keys, SmoothedOf(d, eps, z)) == inv * SumOver(keys, Shifted(d, eps))
  {
    SmoothedEverywhere(d, eps, z, keys, inv);
    SumScale(keys, Shifted(d, eps), inv, SmoothedOf(d, eps, z));
  }

  lemma TermBound(p: int -> real, q: int -> real, lg: real -> real, c: real, k: int)
    requires IsLog(lg, c) && p(k) > 0.0 && q(k) > 0.0
    ensures AtLeast(TermOf(p, q, lg)(k), c, p(k), q(k))
  {
    LogTerm(lg, c, p(k), q(k));
  }

  lemma TermBounds(keys: set<int>, p: int -> real, q: int -> real, lg: real -> real, c: real)
    requires IsLog(lg, c) && forall k :: k in keys ==> p(k) > 0.0 && q(k) > 0.0
    ensures forall k :: k in keys ==> AtLeast(TermOf(p, q, lg)(k), c, p(k), q(k))
  {
    forall k | k in keys
      ensures AtLeast(TermOf(p, q, lg)(k), c, p(k), q(k))
    {
      TermBound(p, q, lg, c, k);
    }
  }

  lemma SumBound(keys: set<int>, p: int -> real, q: int -> real, lg: real -> real, c: real)
    requires IsLog(lg, c) && forall k :: k in keys ==> p(k) > 0.0 && q(k) > 0.0
    ensures AtLeast(SumOver(keys, TermOf(p, q, lg)), c, SumOver(keys, p), SumOver(keys, q))
  {
    TermBounds(keys, p, q, lg, c);
    TermsBound(keys, p, q, TermOf(p, q, lg), c);
  }

  /** Smoothing keeps a mass of one, and does not lift a smaller mass above one. */
  lemma SmoothedMass(d: Dist, eps: real, z: real, keys: set<int>)
    requires eps > 0.0 && NonNegative(d) && d.Keys <= keys && z == 1.0 + SumOver(keys, ConstantOf(eps)) > 0.0
    ensures Total(d) <= 1.0 ==> SumOver(keys, SmoothedOf(d, eps, z)) <= 1.0
    ensures Total(d) == 1.0 ==> SumOver(keys, SmoothedOf(d, eps, z)) == 1.0
    ensures forall k :: k in keys ==> SmoothedOf(d, eps, z)(k) > 0.0
  {
    ShiftedTotal(d, eps, keys);
    DividedMass(d, eps, z, keys);
  }

  lemma DividedMass(d: Dist, eps: real, z: real, keys: set<int>)
    requires eps > 0.0 && NonNegative(d) && z > 0.0
    ensures SumOver(keys, Shifted(d, eps)) <= z ==> SumOver(keys, SmoothedOf(d, eps, z)) <= 1.0
    ensures SumOver(keys, Shifted(d, eps)) == z ==> SumOver(keys, SmoothedOf(d, eps, z)) == 1.0
    ensures forall k :: k in keys ==> SmoothedOf(d, eps, z)(k) > 0.0
  {
    var inv := Inverse(z);
    SmoothedTotal(d, eps, z, keys, inv);
    UpToOne(inv, z, SumOver(keys, Shifted(d, eps)), SumOver(keys, SmoothedOf(d, eps, z)));
  }

  lemma UpToOne(inv: real, z: real, m: real, s: real)
    requires inv > 0.0 && inv * z == 1.0 && s == inv * m
    ensures m <= z ==> s <= 1.0
    ensures m == z ==> s == 1.0
  {
    if m <= z {
      RealTimesMonotone(inv, m, z);
    }
  }

  lemma KlWith(p: Dist, q: Dist, eps: real, z: real, keys: set<int>, lg: real -> real, c: real)
    requires IsLog(lg, c) && eps > 0.0 && NonNegative(p) && NonNegative(q)
    requires p.Keys <= keys && q.Keys <= keys && z == 1.0 + SumOver(keys, ConstantOf(eps)) > 0.0
    requires Total(p) == 1.0 && Total(q) <= 1.0
    ensures SumOver(keys, TermOf(SmoothedOf(p, eps, z), SmoothedOf(q, eps, z), lg)) >= 0.0
  {
    SmoothedMass(p, eps, z, keys);
    SmoothedMass(q, eps, z, keys);
    Gibbs(keys, SmoothedOf(p, eps, z), SmoothedOf(q, eps, z), lg, c);
  }

  /** Positive weights of sum one against positive weights of at most that sum. */
  lemma Gibbs(keys: set<int>, p: int -> real, q: int -> real, lg: real -> real, c: real)
    requires IsLog(lg, c) && forall k :: k in keys ==> p(k) > 0.0 && q(k) > 0.0
    requires SumOver(keys, p) == 1.0 && SumOver(keys, q) <= 1.0
    ensures SumOver(keys, TermOf(p, q, lg)) >= 0.0
  {
    SumBound(keys, p, q, lg, c);
    AtLeastZero(SumOver(keys, TermOf(p, q, lg)), c, SumOver(keys, p), SumOver(keys, q));
  }

  lemma AtLeastZero(t: real, c: real, p: real, q: real)
    requires AtLeast(t, c, p, q) && c > 0.0 && p >= q
    ensures t >= 0.0
  {
    RealTimesMonotone(c, 0.0, p - q);
  }

  /** Smoothed KL from a distribution to anything of at most its mass is not negative. */
  lemma KlNonNegative(p: Dist, q: Dist, eps: real, lg: real -> real, c: real)
    requires IsLog(lg, c) && eps > 0.0 && NonNegative(p) && NonNegative(q)
    requires Total(p) == 1.0 && Total(q) <= 1.0
    ensures Kl(p, q, eps, lg) >= 0.0
  {
    var keys := p.Keys + q.Keys;
    NormaliserIs(eps, keys);
    KlWith(p, q, eps, Normaliser(eps, |keys|), keys, lg, c);
  }

  /** A logarithm that is negative below one, which its bound from below does not say. */
  ghost predicate IsStrictLog(lg: real -> real, c: real) {
    IsLog(lg, c) && forall x :: 0.0 < x < 1.0 ==> lg(x) < 0.0
  }

  /** With nothing on the left every smoothed summand is negative. */
  lemma KlFromNothing(q: Dist, eps: real, lg: real -> real, c: real)
    requires IsStrictLog(lg, c) && eps > 0.0 && IsDistribution(q)
    ensures Kl(map[], q, eps, lg) < 0.0
  {
    var p: Dist, keys := map[], q.Keys;
    assert p.Keys + keys == keys;
    assert Total(p) == 0.0;
    NormaliserIs(eps, keys);
    TermsFromNothing(q, eps, Normaliser(eps, |keys|), lg, c);
  }

  lemma TermsFromNothing(q: Dist, eps: real, z: real, lg: real -> real, c: real)
    requires IsStrictLog(lg, c) && eps > 0.0 && z > 0.0 && q != map[] && forall k :: k in q ==> q[k] > 0.0
    ensures SumOver(q.Keys, TermOf(SmoothedOf(map[], eps, z), SmoothedOf(q, eps, z), lg)) < 0.0
  {
    forall k | k in q.Keys
      ensures TermOf(SmoothedOf(map[], eps, z), SmoothedOf(q, eps, z), lg)(k) < 0.0
    {
      TermNegative(0.0 + eps, q[k] + eps, z, lg, c);
    }
    SumNegative(q.Keys, TermOf(SmoothedOf(map[], eps, z), SmoothedOf(q, eps, z), lg));
  }

  lemma TermNegative(a: real, b: real, z: real, lg: real -> real, c: real)
    requires IsStrictLog(lg, c) && 0.0 < a < b && z > 0.0
    ensures Over(a, z) * lg(Over(Over(a, z), Over(b, z))) < 0.0
  {
    var inv := Inverse(z);
    Divided(a, z, inv);
    Divided(b, z, inv);
    Grows(inv, a, b);
    BelowOne(a / z, b / z);
    NegativeTimes(a / z, lg((a / z) / (b / z)));
  }

  lemma Grows(inv: real, a: real, b: real)
    requires inv > 0.0 && a < b
    ensures inv * a < inv * b
  {
  }

  lemma BelowOne(x: real, y: real)
    requires 0.0 < x < y
    ensures 0.0 < x / y < 1.0
  {
    var inv := Inverse(y);
    Divided(x, y, inv);
    Grows(inv, x, y);
  }

  lemma NegativeTimes(x: real, l: real)
    requires x > 0.0 && l < 0.0
    ensures x * l < 0.0
  {
  }

  lemma {:induction false} SumNegative(keys: set<int>, f: int -> real)
    requires keys != {} && forall k :: k in keys ==> f(k) < 0.0
    ensures SumOver(keys, f) < 0.0
  {
    var rest := keys - {Smallest(keys)};
    if rest != {} {
      SumNegative(rest, f);
    }
  }

  /** For what a window can hold, nothing or a distribution, smoothed KL is not
      negative exactly if the left side holds something or neither does. */
  lemma KlSign(p: Dist, q: Dist, eps: real, lg: real -> real, c: real)
    requires IsStrictLog(lg, c) && eps > 0.0
    requires (p == map[] || IsDistribution(p)) && (q == map[] || IsDistribution(q))
    ensures Kl(p, q, eps, lg) >= 0.0 <==> p != map[] || q == map[]
  {
    if p != map[] {
      KlNonNegative(p, q, eps, lg, c);
    } else if q != map[] {
      KlFromNothing(q, eps, lg, c);
    } else {
      assert p.Keys + q.Keys == {};
    }
  }

  // ------------------------------------------------------ Jensen-Shannon

  function Middle(a: Dist, b: Dist): Dist {
    map k | k in a.Keys + b.Keys :: 0.5 * (Val(a, k) + Val(b, k))
  }

  function ToTermOf(p: int -> real, m: int -> real, lg: real -> real): int -> real {
    k => if p(k) > 0.0 && m(k) > 0.0 then p(k) * lg(Over(p(k), m(k))) else 0.0
  }

  function KlTo(keys: set<int>, p: Dist, m: Dist, lg: real -> real): real {
    SumOver(keys, ToTermOf(ValOf(p), ValOf(m), lg))
  }

  function Js(a: Dist, b: Dist, lg: real -> real): real {
    var keys, m := a.Keys + b.Keys, Middle(a, b);
    0.5 * KlTo(keys, a, m, lg) + 0.5 * KlTo(keys, b, m, lg)
  }

  function Similarity(a: Dist, b: Dist, lg: real -> real): real {
    if a == map[] || b == map[] then 0.0
    else if 1.0 - Js(a, b, lg) > 0.0 then 1.0 - Js(a, b, lg)
    else 0.0
  }

  method ToSummand(p: int -> real, m: int -> real, lg: real -> real, k: int) returns (t: real)
    ensures t == ToTermOf(p, m, lg)(k)
  {
    var pv := p(k);
    if pv <= 0.0 {
      return 0.0;
    }
    var mv := m(k);
    t := if mv > 0.0 then pv * lg(Over(pv, mv)) else 0.0;
  }

  /** The inner accumulating loop. */
  method KlToMiddle(keys: set<int>, p: Dist, m: Dist, lg: real -> real) returns (s: real)
    ensures s == KlTo(keys, p, m, lg)
  {
    s := 0.0;
    var rest := keys;
    ghost var term := ToTermOf(ValOf(p), ValOf(m), lg);
    while rest != {}
      invariant s + SumOver(rest, term) == SumOver(keys, term)
    {
      ghost var some := Member(rest);
      var k :| k in rest;
      SumRemove(rest, term, k);
      var t := ToSummand(ValOf(p), ValOf(m), lg, k);
      s := s + t;
      rest := rest - {k};
    }
  }

  method JsSimilarity(a: Dist, b: Dist, lg: real -> real) returns (r: real)
    ensures r == Similarity(a, b, lg)
  {
    if a == map[] || b == map[] {
      return 0.0;
    }
    var keys := a.Keys + b.Keys;
    var m := Middle(a, b);
    var left := KlToMiddle(keys, a, m, lg);
    var right := KlToMiddle(keys, b, m, lg);
    var js := 0.5 * left + 0.5 * right;
    r := if 1.0 - js > 0.0 then 1.0 - js else 0.0;
  }

  function BothOf(a: Dist, b: Dist): int -> real {
    k => Val(a, k) + Val(b, k)
  }

  lemma MiddleSum(a: Dist, b: Dist)
    ensures Total(Middle(a, b)) == 0.5 * SumOver(a.Keys + b.Keys, BothOf(a, b))
  {
    var keys, m := a.Keys + b.Keys, Middle(a, b);
    assert m.Keys == keys;
    forall k | k in keys
      ensures ValOf(m)(k) == 0.5 * BothOf(a, b)(k)
    {
    }
    SumScale(keys, BothOf(a, b), 0.5, ValOf(m));
  }

  lemma MiddleTotal(a: Dist, b: Dist)
    requires Total(a) == Total(b) == 1.0
    ensures Total(Middle(a, b)) == 1.0
  {
    var keys := a.Keys + b.Keys;
    MiddleSum(a, b);
    SumAdd(keys, ValOf(a), ValOf(b), BothOf(a, b));
    SumWiden(a.Keys, keys, ValOf(a));
    SumWiden(b.Keys, keys, ValOf(b));
  }

  lemma ToTermBounds(lg: real -> real, c: real, p: real, m: real, t: real)
    requires IsLog(lg, c) && p >= 0.0 && m >= 0.5 * p
    requires t == if p > 0.0 && m > 0.0 then p * lg(Over(p, m)) else 0.0
    ensures c * (p - m) <= t <= p
  {
    if p > 0.0 {
      LogTerm(lg, c, p, m);
      TermAtMost(lg, c, p, m);
    } else {
      RealTimesMonotone(c, p - m, 0.0);
    }
  }

  lemma LogAtMostOne(lg: real -> real, c: real, p: real, m: real)
    requires IsLog(lg, c) && p > 0.0 && m >= 0.5 * p
    ensures lg(p / m) <= 1.0
  {
    AtMostTwo(p, m);
  }

  lemma TermAtMost(lg: real -> real, c: real, p: real, m: real)
    requires IsLog(lg, c) && p > 0.0 && m >= 0.5 * p
    ensures p * lg(p / m) <= p
  {
    LogAtMostOne(lg, c, p, m);
    RealTimesMonotone(p, lg(p / m), 1.0);
  }

  lemma AtMostTwo(p: real, m: real)
    requires p > 0.0 && m >= 0.5 * p
    ensures 0.0 < p / m <= 2.0
  {
    var inv := Inverse(m);
    Divided(p, m, inv);
    Divided(1.0, m, inv);
    RealTimesMonotone(inv, p, 2.0 * m);
  }

  lemma ToTermBound(p: int -> real, m: int -> real, lg: real -> real, c: real, k: int)
    requires IsLog(lg, c) && p(k) >= 0.0 && m(k) >= 0.5 * p(k)
    ensures AtLeast(ToTermOf(p, m, lg)(k), c, p(k), m(k)) && ToTermOf(p, m, lg)(k) <= p(k)
  {
    ToTermBounds(lg, c, p(k), m(k), ToTermOf(p, m, lg)(k));
  }

  lemma ToTermsBounds(keys: set<int>, p: int -> real, m: int -> real, lg: real -> real, c: real)
    requires IsLog(lg, c) && forall k :: k in keys ==> p(k) >= 0.0 && m(k) >= 0.5 * p(k)
    ensures forall k :: k in keys ==> AtLeast(ToTermOf(p, m, lg)(k), c, p(k), m(k)) && ToTermOf(p, m, lg)(k) <= p(k)
  {
    forall k | k in keys
      ensures AtLeast(ToTermOf(p, m, lg)(k), c, p(k), m(k)) && ToTermOf(p, m, lg)(k) <= p(k)
    {
      ToTermBound(p, m, lg, c, k);
    }
  }

  lemma KlToBounds(keys: set<int>, p: Dist, m: Dist, lg: real -> real, c: real)
    requires IsLog(lg, c) && IsDistribution(p) && Total(m) == 1.0
    requires p.Keys <= keys && m.Keys <= keys
    requires forall k :: k in keys ==> Val(m, k) >= 0.5 * Val(p, k)
    ensures 0.0 <= KlTo(keys, p, m, lg) <= 1.0
  {
    ToTermsBounds(keys, ValOf(p), ValOf(m), lg, c);
    SummedBounds(keys, p, m, ToTermOf(ValOf(p), ValOf(m), lg), c);
  }

  lemma SummedBounds(keys: set<int>, p: Dist, m: Dist, term: int -> real, c: real)
    requires Total(p) == Total(m) == 1.0 && p.Keys <= keys && m.Keys <= keys
    requires forall k :: k in keys ==> AtLeast(term(k), c, ValOf(p)(k), ValOf(m)(k)) && term(k) <= ValOf(p)(k)
    ensures 0.0 <= SumOver(keys, term) <= 1.0
  {
    TermsBound(keys, ValOf(p), ValOf(m), term, c);
    SumLe(keys, term, ValOf(p));
    SumWiden(p.Keys, keys, ValOf(p));
    SumWiden(m.Keys, keys, ValOf(m));
  }

  /** For distributions the Jensen-Shannon divergence lies between zero and one,
      so the clamp in the similarity never acts. */
  lemma JsBounds(a: Dist, b: Dist, lg: real -> real, c: real)
    requires IsLog(lg, c) && IsDistribution(a) && IsDistribution(b)
    ensures 0.0 <= Js(a, b, lg) <= 1.0
    ensures a != map[] && b != map[] && Similarity(a, b, lg) == 1.0 - Js(a, b, lg)
  {
    var keys, m := a.Keys + b.Keys, Middle(a, b);
    MiddleTotal(a, b);
    assert m.Keys == keys;
    forall k | k in keys
      ensures Val(m, k) >= 0.5 * Val(a, k) && Val(m, k) >= 0.5 * Val(b, k)
    {
    }
    KlToBounds(keys, a, m, lg, c);
    KlToBounds(keys, b, m, lg, c);
  }

  /** Similarity does not depend on which distribution comes first. */
  lemma SimilaritySymmetric(a: Dist, b: Dist, lg: real -> real)
    ensures Similarity(a, b, lg) == Similarity(b, a, lg)
  {
    assert a.Keys + b.Keys == b.Keys + a.Keys;
    assert Middle(a, b) == Middle(b, a);
  }
}
