/** What the divergences amount to: the other end of the similarity's scale, and forms
    of both sums that do not pass through the code's quotients. */
module DivergenceScale {
  import opened Arithmetic
  import opened FiniteDist
  import opened Divergence

  // --------------------------------------------------------- nothing in common

  /** A logarithm that reaches its value at two nowhere below two. */
  ghost predicate IsLogBelowTwo(lg: real -> real, c: real) {
    IsLog(lg, c) && forall x :: 0.0 < x < 2.0 ==> lg(x) < 1.0
  }

  lemma {:induction false} SumLess(keys: set<int>, f: int -> real, g: int -> real, k: int)
    requires k in keys && f(k) < g(k) && forall j :: j in keys ==> f(j) <= g(j)
    ensures SumOver(keys, f) < SumOver(keys, g)
  {
    SumRemove(keys, f, k);
    SumRemove(keys, g, k);
    SumLe(keys - {k}, f, g);
  }

  lemma BelowTwo(p: real, m: real)
    requires p > 0.0 && m > 0.5 * p
    ensures 0.0 < p / m < 2.0
  {
    var inv := Inverse(m);
    Divided(p, m, inv);
    Divided(1.0, m, inv);
    Grows(inv, p, 2.0 * m);
    assert inv * (2.0 * m) == 2.0 * (inv * m);
  }

  /** A summand as a function of its two values. */
  function Summand(lg: real -> real, p: real, m: real): real {
    if p > 0.0 && m > 0.0 then p * lg(Over(p, m)) else 0.0
  }

  lemma TermBelow(lg: real -> real, c: real, p: real, m: real)
    requires IsLogBelowTwo(lg, c) && p > 0.0 && m > 0.5 * p
    ensures Summand(lg, p, m) < p
  {
    BelowTwo(p, m);
    Grows(p, lg(p / m), 1.0);
  }

  lemma TermAtTwo(lg: real -> real, p: real, m: real)
    requires lg(2.0) == 1.0 && p > 0.0 && m == 0.5 * p
    ensures Summand(lg, p, m) == p
  {
    Halved(p);
  }

  lemma Halved(p: real)
    requires p > 0.0
    ensures p / (0.5 * p) == 2.0
  {
    var inv := Inverse(0.5 * p);
    Divided(p, 0.5 * p, inv);
    assert inv * p == 2.0 * (inv * (0.5 * p));
  }

  /** The left sum is one if the right side holds none of its blocks, and less if it
      holds one of them. */
  lemma KlToEnds(keys: set<int>, a: Dist, b: Dist, lg: real -> real, c: real)
    requires IsLogBelowTwo(lg, c) && IsDistribution(a) && IsDistribution(b)
    requires a.Keys <= keys
    ensures a.Keys !! b.Keys ==> KlTo(keys, a, Middle(a, b), lg) == 1.0
    ensures !(a.Keys !! b.Keys) ==> KlTo(keys, a, Middle(a, b), lg) < 1.0
  {
    var m := Middle(a, b);
    var term := ToTermOf(ValOf(a), ValOf(m), lg);
    SumWiden(a.Keys, keys, ValOf(a));
    forall k
      ensures term(k) <= ValOf(a)(k)
      ensures k in a && k !in b ==> term(k) == ValOf(a)(k)
      ensures k in a && k in b ==> term(k) < ValOf(a)(k)
    {
      EndTerm(a, b, lg, c, k);
    }
    if k :| k in a && k in b {
      SumLess(keys, term, ValOf(a), k);
    } else {
      forall k | k in keys
        ensures term(k) == ValOf(a)(k)
      {
        EndTerm(a, b, lg, c, k);
      }
      SumSame(keys, term, ValOf(a));
    }
  }

  lemma SummandAt(p: int -> real, m: int -> real, lg: real -> real, k: int)
    ensures ToTermOf(p, m, lg)(k) == Summand(lg, p(k), m(k))
  {
  }

  lemma MiddleAt(a: Dist, b: Dist, k: int)
    ensures ValOf(a)(k) == Val(a, k) && ValOf(Middle(a, b))(k) == 0.5 * (Val(a, k) + Val(b, k))
    ensures Middle(a, b) == Middle(b, a)
  {
  }

  lemma EndTerm(a: Dist, b: Dist, lg: real -> real, c: real, k: int)
    requires IsLogBelowTwo(lg, c) && IsDistribution(a) && IsDistribution(b)
    ensures var t := ToTermOf(ValOf(a), ValOf(Middle(a, b)), lg)(k);
      if k in a && k in b then t < a[k] else t == Val(a, k)
  {
    SummandAt(ValOf(a), ValOf(Middle(a, b)), lg, k);
    MiddleAt(a, b, k);
    EndSummand(lg, c, Val(a, k), Val(b, k), ValOf(Middle(a, b))(k));
  }

  lemma EndSummand(lg: real -> real, c: real, x: real, y: real, m: real)
    requires IsLogBelowTwo(lg, c) && x >= 0.0 && y >= 0.0 && m == 0.5 * (x + y)
    ensures if x > 0.0 && y > 0.0 then Summand(lg, x, m) < x else Summand(lg, x, m) == x
  {
    if x > 0.0 && y > 0.0 {
      TermBelow(lg, c, x, m);
    } else if x > 0.0 {
      TermAtTwo(lg, x, m);
    }
  }

  /** What two windows hold, nothing or a distribution each, has nothing in common
      exactly if the similarity is zero. */
  lemma SimilarityZero(a: Dist, b: Dist, lg: real -> real, c: real)
    requires IsLogBelowTwo(lg, c)
    requires (a == map[] || IsDistribution(a)) && (b == map[] || IsDistribution(b))
    ensures Similarity(a, b, lg) == 0.0 <==> a.Keys !! b.Keys
  {
    if a != map[] && b != map[] {
      var keys := a.Keys + b.Keys;
      JsBounds(a, b, lg, c);
      MiddleAt(a, b, 0);
      KlToEnds(keys, a, b, lg, c);
      KlToEnds(keys, b, a, lg, c);
    }
  }

  /** Whatever the weights, the similarity is not negative. */
  lemma SimilarityNotNegative(a: Dist, b: Dist, lg: real -> real)
    ensures Similarity(a, b, lg) >= 0.0
  {
  }

  // --------------------------------------------------------------- entropy form

  ghost predicate Quotients(lg: real -> real) {
    forall x, y :: x > 0.0 && y > 0.0 ==> lg(Over(x, y)) == lg(x) - lg(y)
  }

  /** The summand of the negative entropy. */
  function Weighed(lg: real -> real, x: real): real {
    if x > 0.0 then x * lg(x) else 0.0
  }

  function WeighedOf(d: Dist, lg: real -> real): int -> real {
    k => Weighed(lg, Val(d, k))
  }

  /** The entropy of a distribution. */
  function Entropy(d: Dist, lg: real -> real): real {
    -SumOver(d.Keys, WeighedOf(d, lg))
  }

  lemma NothingTimes(p: real, l: real)
    requires p == 0.0
    ensures p * l == 0.0
  {
  }

  /** A summand is what its two logarithms differ by. */
  lemma SplitTerm(lg: real -> real, p: real, m: real)
    requires Quotients(lg) && p >= 0.0 && m > 0.0
    ensures Summand(lg, p, m) == Weighed(lg, p) - p * lg(m)
  {
    if p > 0.0 {
      Distribute(p, lg(p), -lg(m));
    } else {
      NothingTimes(p, lg(m));
    }
  }

  function HalvesOf(f: int -> real, g: int -> real): int -> real {
    k => 0.5 * f(k) + 0.5 * g(k)
  }

  /** Block by block: half of both summands is what the entropies differ by. */
  lemma EntropyTerm(a: Dist, b: Dist, lg: real -> real, k: int)
    requires Quotients(lg) && NonNegative(a) && NonNegative(b)
    ensures var m := Middle(a, b);
      HalvesOf(ToTermOf(ValOf(a), ValOf(m), lg), ToTermOf(ValOf(b), ValOf(m), lg))(k)
      == HalvesOf(WeighedOf(a, lg), WeighedOf(b, lg))(k) - WeighedOf(m, lg)(k)
  {
    SummandAt(ValOf(a), ValOf(Middle(a, b)), lg, k);
    SummandAt(ValOf(b), ValOf(Middle(a, b)), lg, k);
    MiddleAt(a, b, k);
    MiddleAt(b, a, k);
    EntropySummand(lg, Val(a, k), Val(b, k));
  }

  lemma EntropySummand(lg: real -> real, x: real, y: real)
    requires Quotients(lg) && x >= 0.0 && y >= 0.0
    ensures var m := 0.5 * (x + y);
      0.5 * Summand(lg, x, m) + 0.5 * Summand(lg, y, m) == 0.5 * Weighed(lg, x) + 0.5 * Weighed(lg, y) - Weighed(lg, m)
  {
    var m := 0.5 * (x + y);
    if m > 0.0 {
      SplitTerm(lg, x, m);
      SplitTerm(lg, y, m);
      HalfProducts(x, y, m, lg(m));
    }
  }

  lemma HalfProducts(x: real, y: real, m: real, l: real)
    requires m == 0.5 * (x + y)
    ensures 0.5 * (x * l) + 0.5 * (y * l) == m * l
  {
    assert m * l == 0.5 * ((x + y) * l);
    assert (x + y) * l == x * l + y * l;
  }

  lemma {:induction false} SumHalves(keys: set<int>, f: int -> real, g: int -> real)
    ensures SumOver(keys, HalvesOf(f, g)) == 0.5 * SumOver(keys, f) + 0.5 * SumOver(keys, g)
  {
    if keys != {} {
      SumHalves(keys - {Smallest(keys)}, f, g);
    }
  }

  /** The Jensen-Shannon divergence is the entropy of the middle less the mean entropy
      of the two: nothing is left of the quotients in the sums. */
  lemma JsIsEntropyGain(a: Dist, b: Dist, lg: real -> real)
    requires Quotients(lg) && NonNegative(a) && NonNegative(b)
    ensures Js(a, b, lg) == Entropy(Middle(a, b), lg) - 0.5 * (Entropy(a, lg) + Entropy(b, lg))
  {
    var keys, m := a.Keys + b.Keys, Middle(a, b);
    var terms := HalvesOf(ToTermOf(ValOf(a), ValOf(m), lg), ToTermOf(ValOf(b), ValOf(m), lg));
    var halves := HalvesOf(WeighedOf(a, lg), WeighedOf(b, lg));
    assert m.Keys == keys;
    SumHalves(keys, ToTermOf(ValOf(a), ValOf(m), lg), ToTermOf(ValOf(b), ValOf(m), lg));
    SumHalves(keys, WeighedOf(a, lg), WeighedOf(b, lg));
    forall k | k in keys
      ensures halves(k) == terms(k) + WeighedOf(m, lg)(k)
    {
      EntropyTerm(a, b, lg, k);
    }
    SumAdd(keys, terms, WeighedOf(m, lg), halves);
    SumWiden(a.Keys, keys, WeighedOf(a, lg));
    SumWiden(b.Keys, keys, WeighedOf(b, lg));
  }

  // -------------------------------------------------------- smoothed KL, unscaled

  predicate Multiplies(z: real, x: real, y: real) {
    z * x == y
  }

  /** A summand of two weights, normalised or not. */
  function LogWeight(lg: real -> real, x: real, y: real): real {
    x * lg(Over(x, y))
  }

  function PlainTermOf(p: Dist, q: Dist, eps: real, lg: real -> real): int -> real {
    k => LogWeight(lg, Val(p, k) + eps, Val(q, k) + eps)
  }

  lemma Cancelled(x: real, y: real, z: real)
    requires y > 0.0 && z > 0.0
    ensures Over(Over(x, z), Over(y, z)) == Over(x, y) && z * Over(x, z) == x
  {
    var inv := Inverse(z);
    Divided(x, z, inv);
    Divided(y, z, inv);
    var w := Inverse(y);
    var v := Inverse(inv * y);
    Divided(inv * x, inv * y, v);
    Divided(x, y, w);
    assert v * (inv * y) == 1.0;
    SameInverse(v * inv, w, y);
    assert v * (inv * x) == (v * inv) * x;
    assert z * (inv * x) == (inv * z) * x;
  }

  lemma SameInverse(v: real, w: real, y: real)
    requires v * y == 1.0 && w * y == 1.0
    ensures v == w
  {
    assert v == v * (w * y) == w * (v * y);
  }

  lemma PlainTerm(p: Dist, q: Dist, eps: real, z: real, lg: real -> real, k: int)
    requires z > 0.0 && Val(q, k) + eps > 0.0
    ensures Multiplies(z, TermOf(SmoothedOf(p, eps, z), SmoothedOf(q, eps, z), lg)(k), PlainTermOf(p, q, eps, lg)(k))
  {
    ScaledWeight(lg, Val(p, k) + eps, Val(q, k) + eps, z);
    WeightAt(SmoothedOf(p, eps, z), SmoothedOf(q, eps, z), lg, k);
  }

  lemma WeightAt(p: int -> real, q: int -> real, lg: real -> real, k: int)
    ensures TermOf(p, q, lg)(k) == LogWeight(lg, p(k), q(k))
  {
  }

  lemma ScaledWeight(lg: real -> real, x: real, y: real, z: real)
    requires z > 0.0 && y > 0.0
    ensures Multiplies(z, LogWeight(lg, Over(x, z), Over(y, z)), LogWeight(lg, x, y))
  {
    Cancelled(x, y, z);
    Rescaled(z, Over(x, z), lg(Over(x, y)), x);
  }

  lemma Rescaled(z: real, u: real, l: real, x: real)
    requires z * u == x
    ensures x * l == z * (u * l)
  {
  }

  lemma {:induction false} PlainTerms(p: Dist, q: Dist, eps: real, z: real, lg: real -> real, keys: set<int>)
    requires eps > 0.0 && z > 0.0 && NonNegative(p) && NonNegative(q)
    ensures ScaledOn(keys, TermOf(SmoothedOf(p, eps, z), SmoothedOf(q, eps, z), lg), z, PlainTermOf(p, q, eps, lg))
  {
    forall k | k in keys
      ensures PlainTermOf(p, q, eps, lg)(k) == z * TermOf(SmoothedOf(p, eps, z), SmoothedOf(q, eps, z), lg)(k)
    {
      PlainTerm(p, q, eps, z, lg, k);
      assert Multiplies(z, TermOf(SmoothedOf(p, eps, z), SmoothedOf(q, eps, z), lg)(k), PlainTermOf(p, q, eps, lg)(k));
    }
  }

  lemma {:induction false} PlainSum(p: Dist, q: Dist, eps: real, z: real, lg: real -> real, keys: set<int>)
    requires eps > 0.0 && z > 0.0 && NonNegative(p) && NonNegative(q)
    ensures Multiplies(z, SumOver(keys, TermOf(SmoothedOf(p, eps, z), SmoothedOf(q, eps, z), lg)), SumOver(keys, PlainTermOf(p, q, eps, lg)))
  {
    PlainTerms(p, q, eps, z, lg, keys);
    ScaledSum(keys, TermOf(SmoothedOf(p, eps, z), SmoothedOf(q, eps, z), lg), z, PlainTermOf(p, q, eps, lg));
  }

  lemma ScaledSum(keys: set<int>, f: int -> real, a: real, h: int -> real)
    requires ScaledOn(keys, f, a, h)
    ensures Multiplies(a, SumOver(keys, f), SumOver(keys, h))
  {
    SumScale(keys, f, a, h);
  }

  /** One plus eps for each of `n` blocks. */
  predicate OnePlus(z: real, eps: real, n: nat) {
    z == 1.0 + eps * n as real
  }

  /** Smoothed KL, times one plus eps for every block, is the sum over the smoothed but
      unnormalised values: the normaliser cancels inside the logarithm. */
  lemma {:induction false} KlUnscaled(p: Dist, q: Dist, eps: real, z: real, lg: real -> real)
    requires eps > 0.0 && NonNegative(p) && NonNegative(q) && OnePlus(z, eps, |p.Keys + q.Keys|)
    ensures Multiplies(z, Kl(p, q, eps, lg), SumOver(p.Keys + q.Keys, PlainTermOf(p, q, eps, lg)))
  {
    PositiveNormaliser(eps, |p.Keys + q.Keys|, z);
    KlIs(p, q, eps, z, lg);
    PlainSum(p, q, eps, z, lg, p.Keys + q.Keys);
  }

  lemma PositiveNormaliser(eps: real, n: nat, z: real)
    requires eps > 0.0 && OnePlus(z, eps, n)
    ensures z == Normaliser(eps, n) > 0.0
  {
    RealTimesMonotone(eps, 0.0, n as real);
  }

  lemma KlIs(p: Dist, q: Dist, eps: real, z: real, lg: real -> real)
    requires z == Normaliser(eps, |p.Keys + q.Keys|)
    ensures Kl(p, q, eps, lg) == SumOver(p.Keys + q.Keys, TermOf(SmoothedOf(p, eps, z), SmoothedOf(q, eps, z), lg))
  {
  }
}
