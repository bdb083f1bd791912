/** Finite distributions over block ids: sums, normalisation and means. */
module FiniteDist {

  type Dist = map<int, real>

  // -------------------------------------------------------------- finite sums

  lemma Member<T>(s: set<T>) returns (m: T)
    requires s != {}
    ensures m in s
  {
    m :| m in s;
  }

  lemma {:induction false} SmallestExists(keys: set<int>) returns (m: int)
    requires keys != {}
    ensures m in keys && forall j :: j in keys ==> m <= j
  {
    var k := Member(keys);
    var rest := keys - {k};
    assert keys == rest + {k};
    if rest == {} {
      m := k;
    } else {
      m := SmallestExists(rest);
      if k < m {
        m := k;
      }
    }
  }

  function Smallest(keys: set<int>): (m: int)
    requires keys != {}
    ensures m in keys && forall j :: j in keys ==> m <= j
  {
    assert exists m :: m in keys && forall j :: j in keys ==> m <= j by {
      var m := SmallestExists(keys);
    }
    var m :| m in keys && forall j :: j in keys ==> m <= j;
    m
  }

  function SumOver(keys: set<int>, f: int -> real): real {
    if keys == {} then 0.0
    else f(Smallest(keys)) + SumOver(keys - {Smallest(keys)}, f)
  }

  /** The order in which a sum is taken does not matter. */
  lemma {:induction false} SumRemove(keys: set<int>, f: int -> real, k: int)
    requires k in keys
    ensures SumOver(keys, f) == f(k) + SumOver(keys - {k}, f)
    decreases keys
  {
    var m := Smallest(keys);
    if k != m {
      SumRemove(keys - {m}, f, k);
      assert m in keys - {k};
      assert Smallest(keys - {k}) <= m <= Smallest(keys - {k});
      assert keys - {m} - {k} == keys - {k} - {m};
    }
  }

  lemma SumInsert(keys: set<int>, f: int -> real, k: int)
    requires k !in keys
    ensures SumOver(keys + {k}, f) == f(k) + SumOver(keys, f)
  {
    SumRemove(keys + {k}, f, k);
    assert keys + {k} - {k} == keys;
  }

  lemma {:induction false} SumLe(keys: set<int>, f: int -> real, g: int -> real)
    requires forall k :: k in keys ==> f(k) <= g(k)
    ensures SumOver(keys, f) <= SumOver(keys, g)
  {
    if keys != {} {
      SumLe(keys - {Smallest(keys)}, f, g);
    }
  }

  lemma SumSame(keys: set<int>, f: int -> real, g: int -> real)
    requires forall k :: k in keys ==> f(k) == g(k)
    ensures SumOver(keys, f) == SumOver(keys, g)
  {
    SumLe(keys, f, g);
    SumLe(keys, g, f);
  }

  lemma {:induction false} SumAdd(keys: set<int>, f: int -> real, g: int -> real, h: int -> real)
    requires forall k :: k in keys ==> h(k) == f(k) + g(k)
    ensures SumOver(keys, h) == SumOver(keys, f) + SumOver(keys, g)
  {
    if keys != {} {
      SumAdd(keys - {Smallest(keys)}, f, g, h);
    }
  }

  ghost predicate ScaledOn(keys: set<int>, f: int -> real, a: real, h: int -> real) {
    forall k :: k in keys ==> h(k) == a * f(k)
  }

  lemma {:induction false} SumScale(keys: set<int>, f: int -> real, a: real, h: int -> real)
    requires ScaledOn(keys, f, a, h)
    ensures SumOver(keys, h) == a * SumOver(keys, f)
  {
    if keys != {} {
      var m := Smallest(keys);
      SumScale(keys - {m}, f, a, h);
      Distribute(a, f(m), SumOver(keys - {m}, f));
    }
  }

  lemma Distribute(a: real, x: real, y: real)
    ensures a * (x + y) == a * x + a * y
  {
  }

  function ConstantOf(c: real): int -> real {
    k => c
  }

  lemma {:induction false} SumConstant(keys: set<int>, f: int -> real, c: real)
    requires forall k :: k in keys ==> f(k) == c
    ensures SumOver(keys, f) == c * |keys| as real
  {
    if keys != {} {
      var m := Smallest(keys);
      SumConstant(keys - {m}, f, c);
      Distribute(c, |keys - {m}| as real, 1.0);
      assert |keys| == |keys - {m}| + 1;
    }
  }

  /** Keys outside which the summand vanishes can be added. */
  lemma {:induction false} SumWiden(keys: set<int>, wide: set<int>, f: int -> real)
    requires keys <= wide && forall k :: k in wide - keys ==> f(k) == 0.0
    ensures SumOver(wide, f) == SumOver(keys, f)
    decreases |wide - keys|
  {
    if wide == keys {
    } else {
      assert wide == keys + (wide - keys);
      var k := Member(wide - keys);
      assert wide - {k} - keys == wide - keys - {k};
      SumRemove(wide, f, k);
      SumWiden(keys, wide - {k}, f);
    }
  }

  // ------------------------------------------------------------ distributions

  function Val(d: Dist, k: int): real {
    if k in d then d[k] else 0.0
  }

  function ValOf(d: Dist): int -> real {
    k => Val(d, k)
  }

  function Positive(x: real): real {
    if x > 0.0 then x else 0.0
  }

  function PositiveOf(d: Dist): int -> real {
    k => Positive(Val(d, k))
  }

  function Total(d: Dist): real {
    SumOver(d.Keys, ValOf(d))
  }

  /** Positive weights that sum to one. */
  ghost predicate IsDistribution(d: Dist) {
    (forall k :: k in d ==> d[k] > 0.0) && Total(d) == 1.0
  }

  function Normalize(d: Dist): Dist {
    var total := SumOver(d.Keys, PositiveOf(d));
    if total <= 0.0 then map[]
    else map k | k in d && d[k] > 0.0 :: d[k] / total
  }

  /** Normalising leaves nothing or a distribution on the positive entries. */
  lemma NormalizeProperties(d: Dist)
    ensures var r := Normalize(d);
      && (r == map[] || IsDistribution(r))
      && (r == map[] <==> forall k :: k in d ==> d[k] <= 0.0)
      && (r != map[] ==> r.Keys == set k | k in d && d[k] > 0.0)
  {
    if k :| k in d && d[k] > 0.0 {
      PositiveTotal(d, k);
      assert k in Normalize(d);
      NormalizedTotal(d);
    } else {
      SumConstant(d.Keys, PositiveOf(d), 0.0);
    }
  }

  /** What is left keeps its proportions. */
  lemma NormalizeProportions(d: Dist, j: int, k: int)
    requires j in Normalize(d) && k in Normalize(d)
    ensures Normalize(d)[j] * d[k] == Normalize(d)[k] * d[j]
  {
    Proportional(d[j], d[k], SumOver(d.Keys, PositiveOf(d)));
  }

  lemma Proportional(x: real, y: real, z: real)
    requires z != 0.0
    ensures x / z * y == y / z * x
  {
    var inv := 1.0 / z;
    assert x / z == x * inv && y / z == y * inv;
  }

  lemma NormalizedTotal(d: Dist)
    requires SumOver(d.Keys, PositiveOf(d)) > 0.0
    ensures IsDistribution(Normalize(d))
  {
    var r := Normalize(d);
    var keep := set k | k in d && d[k] > 0.0;
    assert r.Keys == keep;
    SumWiden(keep, d.Keys, PositiveOf(d));
    DividedTotal(keep, PositiveOf(d), SumOver(keep, PositiveOf(d)), ValOf(r));
  }

  /** Dividing positive values by their sum leaves positive values that sum to one. */
  lemma DividedTotal(keys: set<int>, f: int -> real, total: real, g: int -> real)
    requires total > 0.0 && (forall k :: k in keys ==> f(k) > 0.0 && g(k) == f(k) / total)
    ensures SumOver(keys, g) == SumOver(keys, f) / total
    ensures total == SumOver(keys, f) ==> SumOver(keys, g) == 1.0
    ensures forall k :: k in keys ==> g(k) > 0.0
  {
    var inv := Inverse(total);
    DividedScales(keys, f, total, g, inv);
    ScaledTotal(keys, f, total, g, inv);
    WholeByItself(total);
  }

  lemma ScaledTotal(keys: set<int>, f: int -> real, total: real, g: int -> real, inv: real)
    requires total > 0.0 && inv * total == 1.0 && ScaledOn(keys, f, inv, g)
    ensures SumOver(keys, g) == SumOver(keys, f) / total
  {
    SumScale(keys, f, inv, g);
    Divided(SumOver(keys, f), total, inv);
  }

  lemma WholeByItself(x: real)
    requires x > 0.0
    ensures x / x == 1.0
  {
  }

  lemma DividedScales(keys: set<int>, f: int -> real, total: real, g: int -> real, inv: real)
    requires total > 0.0 && inv * total == 1.0 && (forall k :: k in keys ==> f(k) > 0.0 && g(k) == f(k) / total)
    ensures ScaledOn(keys, f, inv, g) && forall k :: k in keys ==> g(k) > 0.0
  {
    forall k | k in keys
      ensures g(k) == inv * f(k) && g(k) > 0.0
    {
      Divided(f(k), total, inv);
    }
  }

  lemma PositiveTotal(d: Dist, k: int)
    requires k in d && d[k] > 0.0
    ensures SumOver(d.Keys, PositiveOf(d)) >= d[k]
  {
    SumRemove(d.Keys, PositiveOf(d), k);
    SumNonNegative(d.Keys - {k}, PositiveOf(d));
  }

  lemma {:induction false} SumNonNegative(keys: set<int>, f: int -> real)
    requires forall k :: k in keys ==> f(k) >= 0.0
    ensures SumOver(keys, f) >= 0.0
  {
    if keys != {} {
      SumNonNegative(keys - {Smallest(keys)}, f);
    }
  }

  lemma Inverse(total: real) returns (inv: real)
    requires total > 0.0
    ensures inv * total == 1.0 && inv > 0.0
  {
    inv := 1.0 / total;
  }

  lemma Divided(x: real, total: real, inv: real)
    requires total > 0.0 && inv * total == 1.0
    ensures x / total == inv * x
    ensures x > 0.0 ==> x / total > 0.0
  {
    assert x / total == x * inv;
  }

  /** A distribution is left as it is. */
  lemma NormalizeKeeps(d: Dist)
    requires IsDistribution(d)
    ensures Normalize(d) == d
  {
    SumSame(d.Keys, PositiveOf(d), ValOf(d));
  }

  // -------------------------------------------------------------------- means

  function KeysOf(dists: seq<Dist>): set<int> {
    if dists == [] then {} else KeysOf(dists[..|dists| - 1]) + dists[|dists| - 1].Keys
  }

  function SumAt(dists: seq<Dist>, k: int): real {
    if dists == [] then 0.0 else SumAt(dists[..|dists| - 1], k) + Val(dists[|dists| - 1], k)
  }

  function NonEmpty(dists: seq<Dist>): nat {
    if dists == [] then 0 else NonEmpty(dists[..|dists| - 1]) + (if dists[|dists| - 1] == map[] then 0 else 1)
  }

  function Accumulated(dists: seq<Dist>): Dist {
    map k | k in KeysOf(dists) :: SumAt(dists, k)
  }

  function Scaled(d: Dist, n: real): Dist
    requires n != 0.0
  {
    map k | k in d :: d[k] / n
  }

  function Mean(dists: seq<Dist>): Dist {
    if NonEmpty(dists) == 0 then map[] else Normalize(Scaled(Accumulated(dists), NonEmpty(dists) as real))
  }

  lemma {:induction false} KeysOfMembers(dists: seq<Dist>, k: int)
    ensures k in KeysOf(dists) <==> exists i :: 0 <= i < |dists| && k in dists[i]
    ensures k !in KeysOf(dists) ==> SumAt(dists, k) == 0.0
  {
    if dists != [] {
      var n := |dists| - 1;
      KeysOfMembers(dists[..n], k);
      if i :| 0 <= i < |dists| && k in dists[i] {
        assert i < n ==> k in dists[..n][i];
      }
    }
  }

  /** The accumulating loops; a dict's items come in any order. */
  method MeanDist(dists: seq<Dist>) returns (r: Dist)
    ensures r == Mean(dists)
  {
    var acc: Dist := map[];
    var n := 0;
    for i := 0 to |dists|
      invariant n == NonEmpty(dists[..i])
      invariant acc == Accumulated(dists[..i])
    {
      assert dists[..i + 1][..i] == dists[..i];
      if dists[i] == map[] {
        assert Accumulated(dists[..i + 1]) == Accumulated(dists[..i]);
      } else {
        n := n + 1;
        acc := AddInto(acc, dists[i]);
        AccumulateStep(dists, i);
      }
    }
    assert dists[..|dists|] == dists;
    if n == 0 {
      return map[];
    }
    r := Normalize(Scaled(acc, n as real));
  }

  function Added(acc: Dist, d: Dist): Dist {
    map k | k in acc.Keys + d.Keys :: Val(acc, k) + Val(d, k)
  }

  lemma AccumulateStep(dists: seq<Dist>, i: nat)
    requires i < |dists|
    ensures Accumulated(dists[..i + 1]) == Added(Accumulated(dists[..i]), dists[i])
  {
    assert dists[..i + 1][..i] == dists[..i];
    forall k
      ensures Val(Accumulated(dists[..i]), k) == SumAt(dists[..i], k)
    {
      KeysOfMembers(dists[..i], k);
    }
  }

  method AddInto(before: Dist, d: Dist) returns (acc: Dist)
    ensures acc == Added(before, d)
  {
    acc := before;
    var rest := d.Keys;
    while rest != {}
      invariant rest <= d.Keys
      invariant acc.Keys == before.Keys + (d.Keys - rest)
      invariant forall k :: k in acc ==> acc[k] == Val(before, k) + (if k in rest then 0.0 else Val(d, k))
    {
      ghost var some := Member(rest);
      var k :| k in rest;
      acc := acc[k := Val(acc, k) + d[k]];
      rest := rest - {k};
    }
  }

  /** A mean is empty or a distribution. */
  lemma MeanIsDistribution(dists: seq<Dist>)
    ensures Mean(dists) == map[] || IsDistribution(Mean(dists))
  {
    if NonEmpty(dists) != 0 {
      NormalizeProperties(Scaled(Accumulated(dists), NonEmpty(dists) as real));
    }
  }

  function SumAtOf(dists: seq<Dist>): int -> real {
    k => SumAt(dists, k)
  }

  ghost predicate AllDistributions(dists: seq<Dist>) {
    forall i :: 0 <= i < |dists| ==> dists[i] == map[] || IsDistribution(dists[i])
  }

  lemma {:induction false} AccumulatedTotal(dists: seq<Dist>, wide: set<int>)
    requires AllDistributions(dists) && KeysOf(dists) <= wide
    ensures SumOver(wide, SumAtOf(dists)) == NonEmpty(dists) as real
  {
    if dists == [] {
      SumConstant(wide, SumAtOf(dists), 0.0);
    } else {
      var n := |dists| - 1;
      AccumulatedTotal(dists[..n], wide);
      SumAdd(wide, SumAtOf(dists[..n]), ValOf(dists[n]), SumAtOf(dists));
      SumWiden(dists[n].Keys, wide, ValOf(dists[n]));
      assert Total(dists[n]) == if dists[n] == map[] then 0.0 else 1.0;
    }
  }

  /** The mean of distributions already sums to one: the closing normalisation
      divides by one, and the result is the plain average. */
  lemma MeanIsAverage(dists: seq<Dist>)
    requires AllDistributions(dists) && NonEmpty(dists) > 0
    ensures Mean(dists) == Scaled(Accumulated(dists), NonEmpty(dists) as real)
  {
    AverageIsDistribution(dists, Accumulated(dists), NonEmpty(dists) as real);
    NormalizeKeeps(Scaled(Accumulated(dists), NonEmpty(dists) as real));
  }

  lemma AverageIsDistribution(dists: seq<Dist>, acc: Dist, n: real)
    requires AllDistributions(dists) && acc == Accumulated(dists) && n == NonEmpty(dists) as real > 0.0
    ensures IsDistribution(Scaled(acc, n))
  {
    assert Scaled(acc, n).Keys == acc.Keys == KeysOf(dists);
    AccumulatedTotal(dists, acc.Keys);
    forall k | k in acc.Keys
      ensures SumAtOf(dists)(k) > 0.0
    {
      SumAtPositive(dists, k);
    }
    DividedTotal(acc.Keys, SumAtOf(dists), n, ValOf(Scaled(acc, n)));
  }

  lemma {:induction false} SumAtPositive(dists: seq<Dist>, k: int)
    requires AllDistributions(dists)
    ensures SumAt(dists, k) >= 0.0
    ensures k in KeysOf(dists) ==> SumAt(dists, k) > 0.0
  {
    if dists != [] {
      SumAtPositive(dists[..|dists| - 1], k);
    }
  }
}
