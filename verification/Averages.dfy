/** A mean, block by block: what it holds is the sum over the distributions that hold
    something, divided by their number. */
module Averages {
  import opened FiniteDist

  function ValueAt(dists: seq<Dist>, b: int): int -> real {
    i => if 0 <= i < |dists| then Val(dists[i], b) else 0.0
  }

  /** The positions from `lo` up to `hi` at which something is held. */
  function HeldIn(dists: seq<Dist>, lo: int, hi: int): set<int> {
    set i | 0 <= i < |dists| && lo <= i < hi && dists[i] != map[]
  }

  /** `v` is an `n`th part of `total`. */
  predicate Share(v: real, n: nat, total: real) {
    v * n as real == total
  }

  /** `d` is the average of the positions `held`: nothing if there are none. */
  ghost predicate AveragesOf(d: Dist, held: set<int>, value: int -> int -> real) {
    && (held == {} ==> d == map[])
    && (held != {} ==> IsDistribution(d) && forall b :: Share(Val(d, b), |held|, SumOver(held, value(b))))
  }

  lemma {:induction false} SliceCounts(dists: seq<Dist>, lo: nat, hi: nat, b: int)
    requires lo <= hi <= |dists|
    ensures SumAt(dists[lo..hi], b) == SumOver(HeldIn(dists, lo, hi), ValueAt(dists, b))
    ensures NonEmpty(dists[lo..hi]) == |HeldIn(dists, lo, hi)|
  {
    if lo == hi {
      assert HeldIn(dists, lo, hi) == {};
    } else {
      var n := hi - 1;
      SliceCounts(dists, lo, n, b);
      assert dists[lo..hi][..|dists[lo..hi]| - 1] == dists[lo..n];
      if dists[n] == map[] {
        assert HeldIn(dists, lo, hi) == HeldIn(dists, lo, n);
      } else {
        assert HeldIn(dists, lo, hi) == HeldIn(dists, lo, n) + {n};
        SumInsert(HeldIn(dists, lo, n), ValueAt(dists, b), n);
      }
    }
  }

  lemma MeanAt(dists: seq<Dist>, b: int)
    requires AllDistributions(dists) && NonEmpty(dists) > 0
    ensures IsDistribution(Mean(dists)) && Share(Val(Mean(dists), b), NonEmpty(dists), SumAt(dists, b))
  {
    MeanIsAverage(dists);
    AverageIsDistribution(dists, Accumulated(dists), NonEmpty(dists) as real);
    KeysOfMembers(dists, b);
    ScaledAt(Accumulated(dists), NonEmpty(dists), b);
  }

  lemma ScaledAt(d: Dist, n: nat, b: int)
    requires n > 0
    ensures Share(Val(Scaled(d, n as real), b), n, Val(d, b))
  {
    QuotientTimes(Val(d, b), n as real);
  }

  lemma QuotientTimes(x: real, n: real)
    requires n != 0.0
    ensures x / n * n == x && 0.0 * n == 0.0
  {
  }

  function ValuesOf(dists: seq<Dist>): int -> int -> real {
    b => ValueAt(dists, b)
  }

  /** The mean of a slice averages the positions of the slice. */
  lemma SliceAverages(dists: seq<Dist>, lo: nat, hi: nat)
    requires lo <= hi <= |dists| && AllDistributions(dists)
    ensures AveragesOf(Mean(dists[lo..hi]), HeldIn(dists, lo, hi), ValuesOf(dists))
  {
    var slice := dists[lo..hi];
    SliceCounts(dists, lo, hi, 0);
    if NonEmpty(slice) > 0 {
      forall b
        ensures Share(Val(Mean(slice), b), |HeldIn(dists, lo, hi)|, SumOver(HeldIn(dists, lo, hi), ValuesOf(dists)(b)))
      {
        SliceCounts(dists, lo, hi, b);
        MeanAt(slice, b);
      }
      MeanAt(slice, 0);
    }
  }

  lemma OnePart(v: real, total: real)
    requires Share(v, 1, total)
    ensures v == total
  {
  }

  /** The average of one position is what it holds. */
  lemma OneAverages(d: Dist, dists: seq<Dist>, i: nat)
    requires i < |dists| && IsDistribution(dists[i]) && AveragesOf(d, {i}, ValuesOf(dists))
    ensures d == dists[i]
  {
    forall b
      ensures Val(d, b) == Val(dists[i], b)
    {
      assert Share(Val(d, b), |{i}|, SumOver({i}, ValuesOf(dists)(b)));
      SumInsert({}, ValueAt(dists, b), i);
      assert {} + {i} == {i};
      OnePart(Val(d, b), SumOver({i}, ValueAt(dists, b)));
    }
    forall b
      ensures b in d <==> b in dists[i]
    {
      assert Val(d, b) == Val(dists[i], b);
    }
    forall b | b in d
      ensures d[b] == dists[i][b]
    {
      assert Val(d, b) == Val(dists[i], b);
    }
  }
}
