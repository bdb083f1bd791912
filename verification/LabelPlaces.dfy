/** Where the step labels of a plot stand, how wide they are, and which steps have one. */
module LabelPlaces {
  import opened StepLabels
  import Ladder

  lemma OverWhole(x: real, d: real)
    requires d > 0.0
    ensures x * d / d == x
  {
  }

  lemma Spread(pad: real, inner: real, i: real, d: real)
    requires d > 0.0
    ensures inner * (i + 1.0) / d - inner * i / d == inner / d
  {
    assert inner * (i + 1.0) == inner * i + inner;
    var inv := 1.0 / d;
    assert (inner * i + inner) * inv == (inner * i) * inv + inner * inv;
  }

  /** The transitions of a plot are spread evenly from one end to the other. */
  lemma EvenlySpread(pad: real, inner: real, n: nat, i: int)
    requires n >= 2
    ensures XAt(pad, inner, n, 0) == pad && XAt(pad, inner, n, n - 1) == pad + inner
    ensures XAt(pad, inner, n, i + 1) - XAt(pad, inner, n, i) == inner / (n - 1) as real
  {
    OverWhole(inner, (n - 1) as real);
    Spread(pad, inner, i as real, (n - 1) as real);
    assert inner * 0.0 == 0.0;
  }

  /** A step's label stands midway between its first and its last transition. */
  lemma Midway(pad: real, inner: real, n: nat, r: Range)
    requires r.last < n
    ensures Centre(pad, inner, n, r) - XAt(pad, inner, n, r.first) == XAt(pad, inner, n, r.last) - Centre(pad, inner, n, r)
  {
  }

  lemma {:induction false} DigitsAreText(n: nat)
    ensures Digits(n) == |Ladder.NatText(n)|
  {
    if n >= 10 {
      DigitsAreText(n / 10);
    }
  }

  /** A label is as wide as its text, at 7.2 units a character. */
  lemma WidthOfText(step: nat)
    ensures LabelWidth(step) == 7.2 * |"Step" + Ladder.NatText(step)| as real
  {
    DigitsAreText(step);
  }

  /** The steps with at least three transitions. */
  function LongSteps(rs: seq<Range>): set<int> {
    set k | 0 <= k < |rs| && rs[k].last >= rs[k].first + 2
  }

  lemma LongStepsSnoc(rs: seq<Range>, r: Range)
    ensures |LongSteps(rs + [r])| == |LongSteps(rs)| + (if r.last >= r.first + 2 then 1 else 0)
  {
    var all, n := rs + [r], |rs|;
    assert all[n] == r && forall k :: 0 <= k < n ==> all[k] == rs[k];
    if r.last >= r.first + 2 {
      assert LongSteps(all) == LongSteps(rs) + {n};
    } else {
      assert LongSteps(all) == LongSteps(rs);
    }
  }

  /** Every step with at least three transitions has a label, and no other. */
  lemma {:induction false} LabelsExactly(pad: real, inner: real, n: nat, rs: seq<Range>)
    requires Ordered(rs, n)
    ensures |LabelsOf(pad, inner, n, rs)| == |LongSteps(rs)|
    ensures forall k :: k in LongSteps(rs) ==> LabelFor(pad, inner, n, rs[k]) in LabelsOf(pad, inner, n, rs)
  {
    if rs == [] {
      assert LongSteps(rs) == {};
    } else {
      var m := |rs| - 1;
      assert rs == rs[..m] + [rs[m]];
      LabelsExactly(pad, inner, n, rs[..m]);
      LongStepsSnoc(rs[..m], rs[m]);
      forall k | k in LongSteps(rs)
        ensures LabelFor(pad, inner, n, rs[k]) in LabelsOf(pad, inner, n, rs)
      {
        assert k < m ==> k in LongSteps(rs[..m]) && rs[..m][k] == rs[k];
      }
    }
  }

  /** Any two of the chosen labels leave eight units between them. */
  ghost predicate EightApart(ls: seq<Label>, s: set<int>) {
    && (forall i :: i in s ==> 0 <= i < |ls|)
    && (forall i, j :: i in s && j in s && i < j ==> Left(ls[j]) - Right(ls[i]) >= 8.0)
  }

  /** On every plot the labels drawn leave eight units between any two, and no choice of
      labels that does so is larger. */
  lemma DrawnEightApart(pad: real, inner: real, boundary: seq<bool>, s: set<int>)
    requires inner > 0.0
    ensures forall k :: 0 <= k < |RangesOf(Boundaries(boundary), |boundary|)| ==> RangesOf(Boundaries(boundary), |boundary|)[k].step == k
    ensures var ls := LabelsOf(pad, inner, |boundary|, RangesOf(Boundaries(boundary), |boundary|));
      && EightApart(ls, set k | k in Greedy(ls))
      && (EightApart(ls, s) ==> |s| <= |Greedy(ls)|)
  {
    LabelSelectionOptimal(pad, inner, boundary, s);
    var ls := LabelsOf(pad, inner, |boundary|, RangesOf(Boundaries(boundary), |boundary|));
    DrawnApart(ls, Greedy(ls));
    assert EightApart(ls, s) <==> Compatible(ls, s);
  }

  lemma DrawnApart(ls: seq<Label>, g: seq<int>)
    requires (forall k :: 0 <= k < |g| ==> 0 <= g[k] < |ls|) && Spaced(ls, g)
    ensures EightApart(ls, set k | k in g)
  {
    forall i, j | i in g && j in g && i < j
      ensures Left(ls[j]) - Right(ls[i]) >= 8.0
    {
      var a :| 0 <= a < |g| && g[a] == i;
      var b :| 0 <= b < |g| && g[b] == j;
      DrawnInOrder(ls, g, a, b);
      assert Fits(ls[g[a]], ls[g[b]]);
    }
  }

  lemma DrawnInOrder(ls: seq<Label>, g: seq<int>, a: nat, b: nat)
    requires (forall k :: 0 <= k < |g| ==> 0 <= g[k] < |ls|) && Spaced(ls, g) && a < |g| && b < |g| && g[a] < g[b]
    ensures a < b
  {
  }
}
