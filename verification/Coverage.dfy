/** How much attention mass the heaviest blocks cover. */
module Coverage {
  import opened Arithmetic
  import opened FiniteDist
  import opened Sorting

  // ------------------------------------------------------ values of a dict

  function Values(d: Dist, keys: set<int>): seq<real> {
    if keys == {} then [] else [Val(d, Smallest(keys))] + Values(d, keys - {Smallest(keys)})
  }

  function Descending(): (real, real) -> bool {
    (x, y) => x >= y
  }

  function SeqSum(s: seq<real>): real {
    if s == [] then 0.0 else s[0] + SeqSum(s[1..])
  }

  function Kept(d: Dist, always: int): set<int> {
    set k | k in d && 0 <= k < always && d[k] > 0.0
  }

  function Candidates(d: Dist, always: int): set<int> {
    set k | k in d && k >= always && d[k] > 0.0
  }

  function KeptMass(d: Dist, always: int): real {
    SumOver(Kept(d, always), ValOf(d))
  }

  function Ranked(d: Dist, keys: set<int>): seq<real> {
    Sort(Values(d, keys), Descending())
  }

  function Min(x: real, y: real): real {
    if x <= y then x else y
  }

  function Take(s: seq<real>, k: int): seq<real> {
    if k <= 0 then [] else if k < |s| then s[..k] else s
  }

  /** The uncapped curve: kept mass plus the `k` largest candidates. */
  function Curve(d: Dist, always: int, k: int): real {
    KeptMass(d, always) + SeqSum(Take(Ranked(d, Candidates(d, always)), k))
  }

  function SplitAlwaysKept(d: Dist, always: int): (real, seq<real>) {
    (KeptMass(d, always), Ranked(d, Candidates(d, always)))
  }

  function CoverageAtK(d: Dist, k: int, always: int): real {
    var (kept, values) := SplitAlwaysKept(d, always);
    if values == [] then Min(1.0, kept)
    else
      var dynamic := if k - always > 0 then k - always else 0;
      Min(1.0, kept + SeqSum(values[..if dynamic < |values| then dynamic else |values|]))
  }

  function Ceil(x: real): int {
    -(-x).Floor
  }

  function FractionCount(n: nat, fraction: real): int {
    var k := Ceil(n as real * fraction);
    if k > 1 then k else 1
  }

  function CoverageAtFraction(d: Dist, fraction: real, always: int): real {
    var (kept, values) := SplitAlwaysKept(d, always);
    if values == [] then Min(1.0, kept)
    else
      var k := FractionCount(|values|, fraction);
      Min(1.0, kept + SeqSum(values[..if k < |values| then k else |values|]))
  }

  /** At least one block, and else the least number that is the fraction or more. */
  lemma FractionCountIs(n: nat, fraction: real)
    ensures var k := FractionCount(n, fraction);
      && k >= 1 && k as real >= n as real * fraction
      && (k > 1 ==> (k - 1) as real < n as real * fraction)
  {
  }

  lemma AtKIsCurve(d: Dist, k: int, always: int)
    ensures CoverageAtK(d, k, always) == Min(1.0, Curve(d, always, k - always))
  {
    var s := Ranked(d, Candidates(d, always));
    assert s[..|s|] == s && s[..0] == [];
  }

  lemma AtFractionIsCurve(d: Dist, fraction: real, always: int)
    ensures CoverageAtFraction(d, fraction, always)
         == Min(1.0, Curve(d, always, FractionCount(|Ranked(d, Candidates(d, always))|, fraction)))
  {
    var s := Ranked(d, Candidates(d, always));
    assert s[..|s|] == s && s[..0] == [];
  }

  /** Coverage is the curve as long as that does not pass one, and never more than one. */
  lemma CappedAtOne(d: Dist, k: int, fraction: real, always: int)
    ensures CoverageAtK(d, k, always) <= 1.0 && CoverageAtFraction(d, fraction, always) <= 1.0
    ensures Curve(d, always, k - always) <= 1.0 ==> CoverageAtK(d, k, always) == Curve(d, always, k - always)
    ensures Curve(d, always, k - always) >= 1.0 ==> CoverageAtK(d, k, always) == 1.0
    ensures var n := FractionCount(|Ranked(d, Candidates(d, always))|, fraction);
      && (Curve(d, always, n) <= 1.0 ==> CoverageAtFraction(d, fraction, always) == Curve(d, always, n))
      && (Curve(d, always, n) >= 1.0 ==> CoverageAtFraction(d, fraction, always) == 1.0)
  {
    AtKIsCurve(d, k, always);
    AtFractionIsCurve(d, fraction, always);
  }

  // ---------------------------------------------------- mass above a threshold

  function Excess(s: seq<real>, t: real): real {
    if s == [] then 0.0 else Positive(s[0] - t) + Excess(s[1..], t)
  }

  /** `n` copies of `t` added up. */
  function Times(n: nat, t: real): real {
    if n == 0 then 0.0 else t + Times(n - 1, t)
  }

  lemma {:induction false} TimesIs(n: nat, t: real)
    ensures Times(n, t) == t * n as real
  {
    if n > 0 {
      TimesIs(n - 1, t);
      Distribute(t, (n - 1) as real, 1.0);
    }
  }

  lemma {:induction false} TimesGrows(a: nat, b: nat, t: real)
    requires t >= 0.0 && a <= b
    ensures Times(a, t) <= Times(b, t)
  {
    if a < b {
      TimesGrows(a, b - 1, t);
    }
  }

  function ExcessOf(d: Dist, t: real): int -> real {
    k => Positive(Val(d, k) - t)
  }

  lemma {:induction false} ExcessInsert(x: real, s: seq<real>, t: real)
    ensures Excess(Insert(x, s, Descending()), t) == Positive(x - t) + Excess(s, t)
  {
    if s != [] && !Descending()(x, s[0]) {
      ExcessInsert(x, s[1..], t);
    }
  }

  lemma {:induction false} ExcessSort(s: seq<real>, t: real)
    ensures Excess(Sort(s, Descending()), t) == Excess(s, t)
  {
    if s != [] {
      ExcessSort(s[1..], t);
      ExcessInsert(s[0], Sort(s[1..], Descending()), t);
    }
  }

  lemma {:induction false} ExcessValues(d: Dist, keys: set<int>, t: real)
    ensures Excess(Values(d, keys), t) == SumOver(keys, ExcessOf(d, t))
  {
    if keys != {} {
      ExcessValues(d, keys - {Smallest(keys)}, t);
    }
  }

  lemma {:induction false} ExcessConcat(a: seq<real>, b: seq<real>, t: real)
    ensures Excess(a + b, t) == Excess(a, t) + Excess(b, t)
  {
    if a == [] {
      assert a + b == b;
    } else {
      assert (a + b)[1..] == a[1..] + b;
      ExcessConcat(a[1..], b, t);
    }
  }

  lemma {:induction false} ExcessAbove(s: seq<real>, t: real)
    requires forall i :: 0 <= i < |s| ==> s[i] >= t
    ensures SeqSum(s) == Excess(s, t) + Times(|s|, t)
  {
    if s != [] {
      ExcessAbove(s[1..], t);
    }
  }

  lemma {:induction false} ExcessBelow(s: seq<real>, t: real)
    requires forall i :: 0 <= i < |s| ==> s[i] <= t
    ensures Excess(s, t) == 0.0
  {
    if s != [] {
      ExcessBelow(s[1..], t);
    }
  }

  /** In a descending list the first `k` values hold all the excess over the
      value that follows them. */
  lemma ExcessOfTop(s: seq<real>, k: nat, t: real)
    requires SortedBy(s, Descending()) && k <= |s|
    requires if k < |s| then t == s[k] else t == 0.0 && forall i :: 0 <= i < |s| ==> s[i] >= 0.0
    ensures SeqSum(s[..k]) == Excess(s, t) + Times(k, t)
  {
    SplitAt(s, k, t);
    ExcessConcat(s[..k], s[k..], t);
    ExcessAbove(s[..k], t);
    ExcessBelow(s[k..], t);
  }

  lemma SplitAt(s: seq<real>, k: nat, t: real)
    requires SortedBy(s, Descending()) && k <= |s|
    requires if k < |s| then t == s[k] else t == 0.0 && forall i :: 0 <= i < |s| ==> s[i] >= 0.0
    ensures s == s[..k] + s[k..]
    ensures forall i :: 0 <= i < k ==> s[..k][i] >= t
    ensures forall i :: 0 <= i < |s| - k ==> s[k..][i] <= t
  {
    assert forall i :: 0 <= i < k && k < |s| ==> Descending()(s[i], s[k]);
    assert forall i :: k < i < |s| ==> Descending()(s[k], s[i]);
  }

  lemma DescendingOrders()
    ensures Orders(Descending())
  {
  }

  lemma {:induction false} ValuesMembers(d: Dist, keys: set<int>)
    ensures |Values(d, keys)| == |keys|
    ensures forall x :: x in Values(d, keys) ==> exists k :: k in keys && Val(d, k) == x
  {
    if keys != {} {
      var m := Smallest(keys);
      ValuesMembers(d, keys - {m});
      forall x | x in Values(d, keys)
        ensures exists k :: k in keys && Val(d, k) == x
      {
        if x == Val(d, m) {
          assert m in keys;
        } else {
          assert x in Values(d, keys - {m});
          var k :| k in keys - {m} && Val(d, k) == x;
          assert k in keys;
        }
      }
    }
  }

  lemma RankedProperties(d: Dist, keys: set<int>)
    ensures SortedBy(Ranked(d, keys), Descending()) && |Ranked(d, keys)| == |keys|
    ensures forall i :: 0 <= i < |keys| ==> exists k :: k in keys && Val(d, k) == Ranked(d, keys)[i]
  {
    DescendingOrders();
    SortSorts(Values(d, keys), Descending());
    SortKeeps(Values(d, keys), Descending());
    ValuesMembers(d, keys);
    forall i | 0 <= i < |keys|
      ensures exists k :: k in keys && Val(d, k) == Ranked(d, keys)[i]
    {
      assert Ranked(d, keys)[i] in Ranked(d, keys);
    }
  }

  // ---------------------------------------------------------------- optimality

  function LiftedOf(d: Dist, t: real): int -> real {
    k => t + ExcessOf(d, t)(k)
  }

  /** Any choice of blocks weighs at most their number times a threshold, plus
      all the excess over the threshold there is. */
  lemma ChoiceBound(d: Dist, keys: set<int>, choice: set<int>, t: real)
    requires choice <= keys
    ensures SumOver(choice, ValOf(d)) <= Times(|choice|, t) + SumOver(keys, ExcessOf(d, t))
  {
    forall k | k in choice
      ensures ValOf(d)(k) <= LiftedOf(d, t)(k)
    {
      assert ExcessOf(d, t)(k) == Positive(Val(d, k) - t) >= Val(d, k) - t;
    }
    SumLe(choice, ValOf(d), LiftedOf(d, t));
    SumAdd(choice, ConstantOf(t), ExcessOf(d, t), LiftedOf(d, t));
    SumTimes(choice, t);
    SumSubset(choice, keys, ExcessOf(d, t));
  }

  lemma SumTimes(keys: set<int>, t: real)
    ensures SumOver(keys, ConstantOf(t)) == Times(|keys|, t)
  {
    SumConstant(keys, ConstantOf(t), t);
    TimesIs(|keys|, t);
  }

  lemma SumSubset(part: set<int>, keys: set<int>, f: int -> real)
    requires part <= keys && forall k :: k in keys ==> f(k) >= 0.0
    ensures SumOver(part, f) <= SumOver(keys, f)
    decreases |keys - part|
  {
    if part != keys {
      assert keys == part + (keys - part);
      var k := Member(keys - part);
      SumRemove(keys, f, k);
      assert keys - {k} - part == keys - part - {k};
      SumSubset(part, keys - {k}, f);
    }
  }

  /** No set of at most `k` blocks weighs more than the `k` largest values. */
  lemma TopIsBest(d: Dist, keys: set<int>, choice: set<int>, k: int)
    requires choice <= keys && |choice| <= (if k > 0 then k else 0)
    requires forall b :: b in keys ==> Val(d, b) > 0.0
    ensures SumOver(choice, ValOf(d)) <= SeqSum(Take(Ranked(d, keys), k))
  {
    var s := Ranked(d, keys);
    RankedProperties(d, keys);
    var n := if k <= 0 then 0 else if k < |s| then k else |s|;
    SmallerSet(choice, keys);
    TakeIsPrefix(s, k, n);
    var t := if n < |s| then s[n] else 0.0;
    ExcessOfTop(s, n, t);
    ExcessSort(Values(d, keys), t);
    ExcessValues(d, keys, t);
    ChoiceBound(d, keys, choice, t);
    TimesGrows(|choice|, n, t);
  }

  lemma TakeIsPrefix(s: seq<real>, k: int, n: nat)
    requires n == if k <= 0 then 0 else if k < |s| then k else |s|
    ensures Take(s, k) == s[..n]
  {
  }

  lemma SmallerSet(a: set<int>, b: set<int>)
    requires a <= b
    ensures |a| <= |b|
    decreases |b - a|
  {
    if a != b {
      assert b == a + (b - a);
      var k := Member(b - a);
      assert b - {k} - a == b - a - {k};
      SmallerSet(a, b - {k});
    }
  }

  lemma CurveOptimal(d: Dist, always: int, k: int, choice: set<int>)
    requires choice <= Candidates(d, always) && |choice| <= (if k > 0 then k else 0)
    ensures Min(1.0, KeptMass(d, always) + SumOver(choice, ValOf(d))) <= Min(1.0, Curve(d, always, k))
  {
    TopIsBest(d, Candidates(d, always), choice, k);
  }

  /** Top-k coverage is optimal: no set of at most max(0, k - always) candidate
      blocks, added to the kept mass and capped at one, covers more. */
  lemma CoverageAtKOptimal(d: Dist, k: int, always: int, choice: set<int>)
    requires choice <= Candidates(d, always) && |choice| <= (if k - always > 0 then k - always else 0)
    ensures Min(1.0, KeptMass(d, always) + SumOver(choice, ValOf(d))) <= CoverageAtK(d, k, always)
  {
    AtKIsCurve(d, k, always);
    CurveOptimal(d, always, k - always, choice);
  }

  lemma CoverageAtFractionOptimal(d: Dist, fraction: real, always: int, choice: set<int>)
    requires choice <= Candidates(d, always)
    requires |choice| <= FractionCount(|Candidates(d, always)|, fraction)
    ensures Min(1.0, KeptMass(d, always) + SumOver(choice, ValOf(d))) <= CoverageAtFraction(d, fraction, always)
  {
    AtFractionIsCurve(d, fraction, always);
    RankedProperties(d, Candidates(d, always));
    CurveOptimal(d, always, FractionCount(|Candidates(d, always)|, fraction), choice);
  }

  // -------------------------------------------------------------- attainment

  lemma {:induction false} LargestExists(d: Dist, keys: set<int>) returns (m: int)
    requires keys != {}
    ensures m in keys && forall j :: j in keys ==> Val(d, j) <= Val(d, m)
  {
    var k := Member(keys);
    var rest := keys - {k};
    assert keys == rest + {k};
    if rest == {} {
      m := k;
    } else {
      m := LargestExists(d, rest);
      if Val(d, m) < Val(d, k) {
        m := k;
      }
    }
  }

  lemma {:induction false} ValuesRemove(d: Dist, keys: set<int>, k: int)
    requires k in keys
    ensures multiset(Values(d, keys)) == multiset{Val(d, k)} + multiset(Values(d, keys - {k}))
    decreases keys
  {
    var m := Smallest(keys);
    if m != k {
      ValuesRemove(d, keys - {m}, k);
      assert m in keys - {k};
      assert Smallest(keys - {k}) <= m <= Smallest(keys - {k});
      assert keys - {m} - {k} == keys - {k} - {m};
    }
  }

  /** Two descending lists of the same values are the same list. */
  lemma {:induction false} DescendingUnique(a: seq<real>, b: seq<real>)
    requires SortedBy(a, Descending()) && SortedBy(b, Descending()) && multiset(a) == multiset(b)
    ensures a == b
  {
    SameMembers(a, b);
    if a == [] {
      assert |multiset(b)| == 0;
    } else {
      assert a[0] in b && |multiset(a)| == |multiset(b)|;
      assert b[0] in a;
      HeadIsLargest(a, b[0]);
      HeadIsLargest(b, a[0]);
      WithoutHead(a);
      WithoutHead(b);
      TailSorted(a);
      TailSorted(b);
      DescendingUnique(a[1..], b[1..]);
    }
  }

  lemma WithoutHead(a: seq<real>)
    requires a != []
    ensures a == [a[0]] + a[1..] && multiset(a[1..]) == multiset(a) - multiset{a[0]}
  {
    assert a == [a[0]] + a[1..];
  }

  lemma TailSorted(a: seq<real>)
    requires a != [] && SortedBy(a, Descending())
    ensures SortedBy(a[1..], Descending())
  {
  }

  lemma HeadIsLargest(a: seq<real>, x: real)
    requires SortedBy(a, Descending()) && x in a
    ensures x <= a[0]
  {
    var i :| 0 <= i < |a| && a[i] == x;
    assert i > 0 ==> Descending()(a[0], a[i]);
  }

  lemma RankedHead(d: Dist, keys: set<int>, m: int)
    requires m in keys && forall j :: j in keys ==> Val(d, j) <= Val(d, m)
    ensures Ranked(d, keys) == [Val(d, m)] + Ranked(d, keys - {m})
  {
    var rest := keys - {m};
    RankedProperties(d, keys);
    RankedProperties(d, rest);
    var b := [Val(d, m)] + Ranked(d, rest);
    assert SortedBy(b, Descending());
    SortKeeps(Values(d, keys), Descending());
    SortKeeps(Values(d, rest), Descending());
    ValuesRemove(d, keys, m);
    DescendingUnique(Ranked(d, keys), b);
  }

  /** The bound is attained: some set of that many blocks weighs exactly that much. */
  lemma {:induction false} TopIsAttained(d: Dist, keys: set<int>, n: nat) returns (choice: set<int>)
    requires n <= |keys|
    ensures choice <= keys && |choice| == n && |Ranked(d, keys)| == |keys|
    ensures SumOver(choice, ValOf(d)) == SeqSum(Ranked(d, keys)[..n])
    decreases n
  {
    RankedProperties(d, keys);
    if n == 0 {
      choice := {};
    } else {
      var m := LargestExists(d, keys);
      var rest := TopIsAttained(d, keys - {m}, n - 1);
      choice := rest + {m};
      SumInsert(rest, ValOf(d), m);
      RankedHead(d, keys, m);
      SumOfHead(Ranked(d, keys), Val(d, m), Ranked(d, keys - {m}), n);
    }
  }

  lemma SumOfHead(s: seq<real>, x: real, rest: seq<real>, n: nat)
    requires s == [x] + rest && 0 < n <= |s|
    ensures SeqSum(s[..n]) == x + SeqSum(rest[..n - 1])
  {
    assert s[..n] == [x] + rest[..n - 1];
  }

  lemma CurveAttained(d: Dist, always: int, k: int) returns (choice: set<int>)
    ensures choice <= Candidates(d, always) && |choice| <= (if k > 0 then k else 0)
    ensures KeptMass(d, always) + SumOver(choice, ValOf(d)) == Curve(d, always, k)
  {
    var keys := Candidates(d, always);
    RankedProperties(d, keys);
    var s := Ranked(d, keys);
    var n := if k <= 0 then 0 else if k < |s| then k else |s|;
    choice := TopIsAttained(d, keys, n);
    TakeIsPrefix(s, k, n);
  }

  lemma CoverageAtKAttained(d: Dist, k: int, always: int) returns (choice: set<int>)
    ensures choice <= Candidates(d, always) && |choice| <= (if k - always > 0 then k - always else 0)
    ensures Min(1.0, KeptMass(d, always) + SumOver(choice, ValOf(d))) == CoverageAtK(d, k, always)
  {
    AtKIsCurve(d, k, always);
    choice := CurveAttained(d, always, k - always);
  }

  lemma CoverageAtFractionAttained(d: Dist, fraction: real, always: int) returns (choice: set<int>)
    ensures choice <= Candidates(d, always) && |choice| <= FractionCount(|Candidates(d, always)|, fraction)
    ensures Min(1.0, KeptMass(d, always) + SumOver(choice, ValOf(d))) == CoverageAtFraction(d, fraction, always)
  {
    AtFractionIsCurve(d, fraction, always);
    RankedProperties(d, Candidates(d, always));
    choice := CurveAttained(d, always, FractionCount(|Candidates(d, always)|, fraction));
  }

  // -------------------------------------------------------------- the curve

  lemma {:induction false} SumSnoc(s: seq<real>, k: nat)
    requires k < |s|
    ensures SeqSum(s[..k + 1]) == SeqSum(s[..k]) + s[k]
  {
    if k == 0 {
      assert s[..1] == [s[0]] && s[..0] == [];
    } else {
      assert s[..k + 1][1..] == s[1..][..k] && s[..k][1..] == s[1..][..k - 1];
      SumSnoc(s[1..], k - 1);
    }
  }

  /** What the curve gains by one block more. */
  function Gain(d: Dist, always: int, k: int): real {
    var s := Ranked(d, Candidates(d, always));
    if 0 <= k < |s| then s[k] else 0.0
  }

  lemma CurveStep(d: Dist, always: int, k: int)
    ensures Curve(d, always, k + 1) == Curve(d, always, k) + Gain(d, always, k)
  {
    var s := Ranked(d, Candidates(d, always));
    if 0 <= k < |s| {
      SumSnoc(s, k);
      assert s[..|s|] == s && s[..0] == [];
    }
  }

  lemma GainPositive(d: Dist, always: int, k: int)
    ensures Gain(d, always, k) >= 0.0
  {
    RankedProperties(d, Candidates(d, always));
  }

  /** The uncapped curve grows, and from the first block on by ever less. */
  lemma CurveConcave(d: Dist, always: int, k: int)
    ensures Curve(d, always, k + 1) >= Curve(d, always, k)
    ensures k >= 0 ==> Curve(d, always, k + 2) - Curve(d, always, k + 1) <= Curve(d, always, k + 1) - Curve(d, always, k)
  {
    CurveStep(d, always, k);
    CurveStep(d, always, k + 1);
    GainPositive(d, always, k);
    var s := Ranked(d, Candidates(d, always));
    RankedProperties(d, Candidates(d, always));
    assert 0 <= k && k + 1 < |s| ==> Descending()(s[k], s[k + 1]);
  }

  lemma {:induction false} CurveMonotone(d: Dist, always: int, j: int, k: int)
    requires j <= k
    ensures Curve(d, always, j) <= Curve(d, always, k)
    decreases k - j
  {
    if j < k {
      CurveMonotone(d, always, j, k - 1);
      CurveConcave(d, always, k - 1);
    }
  }

  lemma CeilLe(x: real, y: real)
    requires x <= y
    ensures Ceil(x) <= Ceil(y)
  {
  }

  lemma CeilMonotone(n: nat, f: real, g: real)
    requires f <= g
    ensures FractionCount(n, f) <= FractionCount(n, g)
  {
    RealTimesMonotone(n as real, f, g);
    CeilLe(n as real * f, n as real * g);
  }

  /** Covering more blocks, or a larger fraction of them, never covers less. */
  lemma CoverageMonotone(d: Dist, always: int, j: int, k: int, f: real, g: real)
    ensures j <= k ==> CoverageAtK(d, j, always) <= CoverageAtK(d, k, always)
    ensures f <= g ==> CoverageAtFraction(d, f, always) <= CoverageAtFraction(d, g, always)
  {
    var n := |Ranked(d, Candidates(d, always))|;
    if j <= k {
      AtKIsCurve(d, j, always);
      AtKIsCurve(d, k, always);
      CurveMonotone(d, always, j - always, k - always);
    }
    if f <= g {
      AtFractionIsCurve(d, f, always);
      AtFractionIsCurve(d, g, always);
      CeilMonotone(n, f, g);
      CurveMonotone(d, always, FractionCount(n, f), FractionCount(n, g));
    }
  }

  // ----------------------------------------------------------------- everything

  function PositiveFrom(d: Dist, first: int): set<int> {
    set k | k in d && k >= first && d[k] > 0.0
  }

  /** The blocks always kept and the candidates are all positive blocks from 0 on, or
      from the bound on if that is negative, each once; the bound divides them. */
  lemma KeptAndCandidates(d: Dist, always: int)
    ensures Kept(d, always) !! Candidates(d, always)
    ensures Kept(d, always) + Candidates(d, always) == PositiveFrom(d, if always < 0 then always else 0)
    ensures (forall k :: k in Kept(d, always) ==> k < always) && (forall k :: k in Candidates(d, always) ==> k >= always)
  {
  }

  lemma {:induction false} SumUnion(a: set<int>, b: set<int>, f: int -> real)
    requires a !! b
    ensures SumOver(a + b, f) == SumOver(a, f) + SumOver(b, f)
  {
    if b == {} {
      assert a + b == a;
    } else {
      var m := Smallest(b);
      SumUnion(a, b - {m}, f);
      assert a + b == (a + (b - {m})) + {m};
      SumInsert(a + (b - {m}), f, m);
    }
  }

  /** With room for every candidate, all the positive mass is covered, up to one. */
  lemma CoversEverything(d: Dist, k: int, always: int)
    requires k - always >= |Candidates(d, always)|
    ensures CoverageAtK(d, k, always) == Min(1.0, SumOver(PositiveFrom(d, if always < 0 then always else 0), ValOf(d)))
  {
    var all := Candidates(d, always);
    EverythingMass(d, always);
    CoverageAtKOptimal(d, k, always, all);
    var choice := CoverageAtKAttained(d, k, always);
    CandidatesSum(d, always, choice);
    MinSqueeze(KeptMass(d, always), SumOver(choice, ValOf(d)), SumOver(all, ValOf(d)), CoverageAtK(d, k, always));
  }

  lemma EverythingMass(d: Dist, always: int)
    ensures SumOver(PositiveFrom(d, if always < 0 then always else 0), ValOf(d))
         == KeptMass(d, always) + SumOver(Candidates(d, always), ValOf(d))
  {
    KeptAndCandidates(d, always);
    SumUnion(Kept(d, always), Candidates(d, always), ValOf(d));
  }

  lemma CandidatesSum(d: Dist, always: int, choice: set<int>)
    requires choice <= Candidates(d, always)
    ensures SumOver(choice, ValOf(d)) <= SumOver(Candidates(d, always), ValOf(d))
  {
    SumSubset(choice, Candidates(d, always), ValOf(d));
  }

  lemma MinSqueeze(kept: real, x: real, y: real, c: real)
    requires x <= y && Min(1.0, kept + y) <= c && Min(1.0, kept + x) == c
    ensures c == Min(1.0, kept + y)
  {
  }
}
