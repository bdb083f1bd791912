/** The step annotations of the divergence plot: which stretch of transitions
    each step covers, and which of the step labels are drawn. */
module StepLabels {
  import opened Lists

  // --------------------------------------------------------------- step ranges

  /** Indices of the boundary transitions, in order. */
  function Boundaries(boundary: seq<bool>): seq<int> {
    if boundary == [] then []
    else Boundaries(boundary[..|boundary| - 1]) + (if boundary[|boundary| - 1] then [|boundary| - 1] else [])
  }

  datatype Range = Range(step: int, first: int, last: int)

  function FirstOf(bs: seq<int>, k: nat): int
    requires k <= |bs|
  {
    if k == 0 then 0 else bs[k - 1] + 1
  }

  function RangesOf(bs: seq<int>, n: nat): seq<Range> {
    seq(|bs|, k requires 0 <= k < |bs| => Range(k, FirstOf(bs, k), bs[k] - 1))
    + (if n > 0 then [Range(|bs|, FirstOf(bs, |bs|), n - 1)] else [])
  }

  /** The source's loop over the boundary indices. */
  method StepRanges(boundary: seq<bool>) returns (ranges: seq<Range>)
    ensures ranges == RangesOf(Boundaries(boundary), |boundary|)
  {
    var bs := Boundaries(boundary);
    ranges := [];
    var start := 0;
    for k := 0 to |bs|
      invariant start == FirstOf(bs, k) && |ranges| == k
      invariant forall j :: 0 <= j < k ==> ranges[j] == Range(j, FirstOf(bs, j), bs[j] - 1)
    {
      ranges := ranges + [Range(k, start, bs[k] - 1)];
      start := bs[k] + 1;
    }
    assert ranges == seq(|bs|, k requires 0 <= k < |bs| => Range(k, FirstOf(bs, k), bs[k] - 1));
    if boundary != [] {
      ranges := ranges + [Range(|ranges|, start, |boundary| - 1)];
    }
  }

  predicate InRange(r: Range, i: int) {
    r.first <= i <= r.last
  }

  lemma {:induction false} BoundariesMembers(boundary: seq<bool>, i: int)
    ensures i in Boundaries(boundary) <==> 0 <= i < |boundary| && boundary[i]
  {
    if boundary != [] {
      BoundariesMembers(boundary[..|boundary| - 1], i);
    }
  }

  lemma {:induction false} BoundariesAscend(boundary: seq<bool>)
    ensures Ascends(Boundaries(boundary))
  {
    if boundary != [] {
      var front := boundary[..|boundary| - 1];
      BoundariesAscend(front);
      forall k | 0 <= k < |Boundaries(front)|
        ensures Boundaries(front)[k] < |front|
      {
        BoundariesMembers(front, Boundaries(front)[k]);
      }
    }
  }

  lemma BoundariesProperties(boundary: seq<bool>)
    ensures var bs := Boundaries(boundary);
      && (forall k :: 0 <= k < |bs| ==> 0 <= bs[k] < |boundary| && boundary[bs[k]])
      && Ascends(bs)
      && (forall i :: 0 <= i < |boundary| && boundary[i] ==> i in bs)
  {
    BoundariesAscend(boundary);
    forall i
      ensures i in Boundaries(boundary) <==> 0 <= i < |boundary| && boundary[i]
    {
      BoundariesMembers(boundary, i);
    }
  }

  /** The step ranges partition exactly the transitions that are not boundaries. */
  lemma RangesPartition(boundary: seq<bool>, i: int)
    requires 0 <= i < |boundary|
    ensures var rs := RangesOf(Boundaries(boundary), |boundary|);
      && (!boundary[i] ==> exists k :: 0 <= k < |rs| && InRange(rs[k], i))
      && (boundary[i] ==> forall k :: 0 <= k < |rs| ==> !InRange(rs[k], i))
      && (forall j, k :: 0 <= j < k < |rs| ==> !(InRange(rs[j], i) && InRange(rs[k], i)))
  {
    var bs := Boundaries(boundary);
    BoundariesProperties(boundary);
    RangesDisjoint(bs, |boundary|, i);
    if !boundary[i] {
      var k := Locate(bs, i, |bs|);
      assert InRange(RangesOf(bs, |boundary|)[k], i);
    } else {
      var b :| 0 <= b < |bs| && bs[b] == i;
      OutsideRanges(bs, |boundary|, b);
    }
  }

  lemma RangesDisjoint(bs: seq<int>, n: nat, i: int)
    requires Ascends(bs)
    ensures var rs := RangesOf(bs, n);
      forall j, k :: 0 <= j < k < |rs| ==> !(InRange(rs[j], i) && InRange(rs[k], i))
  {
    var rs := RangesOf(bs, n);
    forall j, k | 0 <= j < k < |rs|
      ensures !(InRange(rs[j], i) && InRange(rs[k], i))
    {
      RangesApart(bs, n, j, k);
    }
  }

  lemma OutsideRanges(bs: seq<int>, n: nat, b: nat)
    requires Ascends(bs) && b < |bs|
    ensures forall k :: 0 <= k < |RangesOf(bs, n)| ==> !InRange(RangesOf(bs, n)[k], bs[b])
  {
    forall k | 0 <= k < |RangesOf(bs, n)|
      ensures !InRange(RangesOf(bs, n)[k], bs[b])
    {
      assert k > b ==> bs[k - 1] >= bs[b];
      assert k < b ==> bs[k] < bs[b];
    }
  }

  lemma RangesApart(bs: seq<int>, n: nat, j: nat, k: nat)
    requires Ascends(bs)
    requires j < k < |RangesOf(bs, n)|
    ensures RangesOf(bs, n)[j].last + 1 < RangesOf(bs, n)[k].first
  {
    assert j < k - 1 ==> bs[j] < bs[k - 1];
  }

  lemma {:induction false} Locate(bs: seq<int>, i: int, n: nat) returns (k: nat)
    requires n <= |bs| && i !in bs && i >= 0
    requires Ascends(bs)
    requires n < |bs| ==> i < bs[n]
    ensures k <= n && FirstOf(bs, k) <= i && (k < |bs| ==> i < bs[k])
  {
    if n == 0 || bs[n - 1] < i {
      k := n;
    } else {
      assert bs[n - 1] in bs;
      k := Locate(bs, i, n - 1);
    }
  }

  // -------------------------------------------------------------------- labels

  datatype Label = Label(centre: real, width: real)

  function Left(l: Label): real {
    l.centre - 0.5 * l.width
  }

  function Right(l: Label): real {
    l.centre + 0.5 * l.width
  }

  function Digits(n: nat): (d: nat)
    ensures d >= 1
  {
    if n < 10 then 1 else 1 + Digits(n / 10)
  }

  lemma {:induction false} DigitsGrow(m: nat, n: nat)
    requires m <= n
    ensures 1 <= Digits(m) <= Digits(n)
    decreases n
  {
    if m >= 10 {
      DigitsGrow(m / 10, n / 10);
    }
  }

  /** 7.2 units a character; the text is "Step" and the step number. */
  function LabelWidth(step: nat): real {
    7.2 * (4 + Digits(step)) as real
  }

  /** The horizontal position of transition `i` of `n`. */
  function XAt(pad: real, inner: real, n: nat, i: int): real {
    pad + inner * i as real / (if n - 1 > 1 then n - 1 else 1) as real
  }

  function Centre(pad: real, inner: real, n: nat, r: Range): real {
    0.5 * (XAt(pad, inner, n, r.first) + XAt(pad, inner, n, if r.last < n - 1 then r.last else n - 1))
  }

  /** A step with at least three transitions gets a label. */
  predicate Labelled(n: nat, r: Range) {
    r.first <= r.last && r.first < n && r.last - r.first >= 2
  }

  function LabelsOf(pad: real, inner: real, n: nat, rs: seq<Range>): seq<Label>
    requires forall k :: 0 <= k < |rs| ==> rs[k].step >= 0
  {
    if rs == [] then []
    else
      var r := rs[|rs| - 1];
      LabelsOf(pad, inner, n, rs[..|rs| - 1])
      + (if Labelled(n, r) then [Label(Centre(pad, inner, n, r), LabelWidth(r.step))] else [])
  }

  method StepLabelList(pad: real, inner: real, n: nat, rs: seq<Range>) returns (labels: seq<Label>)
    requires forall k :: 0 <= k < |rs| ==> rs[k].step >= 0
    ensures labels == LabelsOf(pad, inner, n, rs)
  {
    labels := [];
    for k := 0 to |rs|
      invariant labels == LabelsOf(pad, inner, n, rs[..k])
    {
      assert rs[..k + 1][..k] == rs[..k];
      var r := rs[k];
      if r.first > r.last || r.first >= n {
        continue;
      }
      var centre := Centre(pad, inner, n, r);
      if r.last - r.first >= 2 {
        labels := labels + [Label(centre, LabelWidth(r.step))];
      }
    }
    assert rs[..|rs|] == rs;
  }

  /** Right ends strictly increase from label to label. */
  ghost predicate RightsGrow(ls: seq<Label>) {
    && (forall k :: 0 <= k < |ls| ==> ls[k].width > 0.0)
    && (forall j, k :: 0 <= j < k < |ls| ==> Right(ls[j]) < Right(ls[k]))
  }

  lemma CentreGrows(pad: real, inner: real, n: nat, r: Range, r': Range)
    requires inner > 0.0 && r.first <= r.last < r'.first <= r'.last < n
    ensures Centre(pad, inner, n, r) < Centre(pad, inner, n, r')
  {
    XGrows(pad, inner, n, r.first, r'.first);
    XGrows(pad, inner, n, r.last, r'.last);
  }

  lemma XGrows(pad: real, inner: real, n: nat, i: int, j: int)
    requires inner > 0.0 && i < j
    ensures XAt(pad, inner, n, i) < XAt(pad, inner, n, j)
  {
    var d := (if n - 1 > 1 then n - 1 else 1) as real;
    Multiply(inner, i as real, j as real);
    Divide(inner * i as real, inner * j as real, d);
  }

  lemma Multiply(a: real, x: real, y: real)
    requires a > 0.0 && x < y
    ensures a * x < a * y
  {
  }

  lemma Divide(x: real, y: real, d: real)
    requires d >= 1.0 && x < y
    ensures x / d < y / d
  {
  }

  lemma WidthGrows(j: nat, k: nat)
    requires j <= k
    ensures 0.0 < LabelWidth(j) <= LabelWidth(k)
  {
    DigitsGrow(j, k);
  }

  /** Ranges as the step loop makes them: numbered, apart, inside [0, n). */
  ghost predicate Ordered(rs: seq<Range>, n: nat) {
    && (forall k :: 0 <= k < |rs| ==> rs[k].step == k && 0 <= rs[k].first && rs[k].last < n)
    && (forall j, k :: 0 <= j < k < |rs| ==> rs[j].last < rs[k].first)
  }

  function LabelFor(pad: real, inner: real, n: nat, r: Range): Label
    requires r.step >= 0
  {
    Label(Centre(pad, inner, n, r), LabelWidth(r.step))
  }

  lemma {:induction false} LabelsComeFrom(pad: real, inner: real, n: nat, rs: seq<Range>, l: Label) returns (k: nat)
    requires Ordered(rs, n) && l in LabelsOf(pad, inner, n, rs)
    ensures k < |rs| && Labelled(n, rs[k]) && l == LabelFor(pad, inner, n, rs[k])
  {
    var m := |rs| - 1;
    if l in LabelsOf(pad, inner, n, rs[..m]) {
      k := LabelsComeFrom(pad, inner, n, rs[..m], l);
    } else {
      k := m;
    }
  }

  lemma LabelBefore(pad: real, inner: real, n: nat, rs: seq<Range>, j: nat, k: nat)
    requires inner > 0.0 && Ordered(rs, n) && j < k < |rs| && Labelled(n, rs[j]) && Labelled(n, rs[k])
    ensures Right(LabelFor(pad, inner, n, rs[j])) < Right(LabelFor(pad, inner, n, rs[k]))
  {
    CentreGrows(pad, inner, n, rs[j], rs[k]);
    WidthGrows(j, k);
  }

  lemma {:induction false} LabelsGrow(pad: real, inner: real, n: nat, rs: seq<Range>)
    requires inner > 0.0 && Ordered(rs, n)
    ensures RightsGrow(LabelsOf(pad, inner, n, rs))
  {
    if rs != [] {
      var m := |rs| - 1;
      LabelsGrow(pad, inner, n, rs[..m]);
      if Labelled(n, rs[m]) {
        var front := LabelsOf(pad, inner, n, rs[..m]);
        WidthGrows(m, m);
        forall l | l in front
          ensures Right(l) < Right(LabelFor(pad, inner, n, rs[m]))
        {
          var k := LabelsComeFrom(pad, inner, n, rs[..m], l);
          LabelBefore(pad, inner, n, rs, k, m);
        }
        AppendGrows(front, LabelFor(pad, inner, n, rs[m]));
      }
    }
  }

  lemma AppendGrows(front: seq<Label>, l: Label)
    requires RightsGrow(front) && l.width > 0.0 && forall x :: x in front ==> Right(x) < Right(l)
    ensures RightsGrow(front + [l])
  {
  }

  // ---------------------------------------------------------- greedy selection

  const GAP := 8.0

  predicate Fits(before: Label, after: Label) {
    Left(after) >= Right(before) + GAP
  }

  /** The labels drawn, as indices. */
  function Greedy(ls: seq<Label>): (g: seq<int>)
    ensures forall k :: 0 <= k < |g| ==> 0 <= g[k] < |ls|
  {
    if ls == [] then []
    else
      var n := |ls| - 1;
      var g := Greedy(ls[..n]);
      if g == [] || Fits(ls[g[|g| - 1]], ls[n]) then g + [n] else g
  }

  /** No right end drawn so far is minus infinity in the source. */
  datatype Bound = NoBound | Bound(right: real)

  lemma GreedyNext(ls: seq<Label>, i: nat)
    requires i < |ls|
    ensures var g := Greedy(ls[..i]);
      Greedy(ls[..i + 1]) == if g == [] || Fits(ls[g[|g| - 1]], ls[i]) then g + [i] else g
  {
    assert ls[..i + 1][..i] == ls[..i];
  }

  method ChooseLabels(ls: seq<Label>) returns (drawn: seq<int>)
    ensures drawn == Greedy(ls)
  {
    drawn := [];
    var lastRight := NoBound;
    for i := 0 to |ls|
      invariant drawn == Greedy(ls[..i])
      invariant lastRight == if drawn == [] then NoBound else Bound(Right(ls[drawn[|drawn| - 1]]))
    {
      GreedyNext(ls, i);
      var left, right := Left(ls[i]), Right(ls[i]);
      if lastRight.Bound? && left < lastRight.right + GAP {
        continue;
      }
      lastRight := Bound(right);
      drawn := drawn + [i];
    }
    assert ls[..|ls|] == ls;
  }

  ghost predicate Compatible(ls: seq<Label>, s: set<int>) {
    && (forall i :: i in s ==> 0 <= i < |ls|)
    && (forall i, j :: i in s && j in s && i < j ==> Fits(ls[i], ls[j]))
  }

  lemma FitsFurther(a: Label, b: Label, c: Label)
    requires Fits(b, c) && Right(a) <= Right(b)
    ensures Fits(a, c)
  {
  }

  ghost predicate Spaced(ls: seq<Label>, g: seq<int>)
    requires forall k :: 0 <= k < |g| ==> 0 <= g[k] < |ls|
  {
    forall j, k :: 0 <= j < k < |g| ==> g[j] < g[k] && Fits(ls[g[j]], ls[g[k]])
  }

  lemma SpacedMore(ls: seq<Label>, g: seq<int>)
    requires ls != [] && forall k :: 0 <= k < |g| ==> 0 <= g[k] < |ls| - 1
    requires Spaced(ls[..|ls| - 1], g)
    ensures Spaced(ls, g)
  {
    var front := ls[..|ls| - 1];
    forall j, k | 0 <= j < k < |g|
      ensures g[j] < g[k] && Fits(ls[g[j]], ls[g[k]])
    {
      assert Fits(front[g[j]], front[g[k]]);
    }
  }

  lemma SpacedAppend(ls: seq<Label>, g: seq<int>, n: int)
    requires RightsGrow(ls) && 0 <= n < |ls| && forall k :: 0 <= k < |g| ==> 0 <= g[k] < n
    requires Spaced(ls, g) && (g == [] || Fits(ls[g[|g| - 1]], ls[n]))
    ensures Spaced(ls, g + [n])
  {
    forall j | 0 <= j < |g|
      ensures Fits(ls[g[j]], ls[n])
    {
      if j < |g| - 1 {
        FitsFurther(ls[g[j]], ls[g[|g| - 1]], ls[n]);
      }
    }
  }

  /** The drawn labels keep their distance, every one from every other. */
  lemma {:induction false} GreedyCompatible(ls: seq<Label>)
    requires RightsGrow(ls)
    ensures Spaced(ls, Greedy(ls))
  {
    if ls != [] {
      var n := |ls| - 1;
      GreedyCompatible(ls[..n]);
      var g := Greedy(ls[..n]);
      SpacedMore(ls, g);
      if g == [] || Fits(ls[g[|g| - 1]], ls[n]) {
        SpacedAppend(ls, g, n);
      }
    }
  }

  function LastDrawn(ls: seq<Label>): int
    requires Greedy(ls) != []
    ensures 0 <= LastDrawn(ls) < |ls|
  {
    Greedy(ls)[|Greedy(ls)| - 1]
  }

  /** A member of the choice that ends no earlier than the last drawn label. */
  ghost predicate Reaches(ls: seq<Label>, s: set<int>)
    requires Greedy(ls) != [] && forall i :: i in s ==> 0 <= i < |ls|
  {
    exists i :: i in s && Right(ls[LastDrawn(ls)]) <= Right(ls[i])
  }

  lemma GreedyStep(ls: seq<Label>)
    requires ls != []
    ensures var n := |ls| - 1;
            var g := Greedy(ls[..n]);
      && (g == [] || Fits(ls[LastDrawn(ls[..n])], ls[n]) ==> Greedy(ls) == g + [n])
      && (g != [] && !Fits(ls[LastDrawn(ls[..n])], ls[n]) ==> Greedy(ls) == g && LastDrawn(ls) == LastDrawn(ls[..n]))
  {
  }

  lemma LastReaches(ls: seq<Label>, s: set<int>)
    requires RightsGrow(ls) && Compatible(ls, s) && ls != [] && |ls| - 1 in s && Greedy(ls) != []
    ensures Reaches(ls, s)
  {
    var n := |ls| - 1;
    assert LastDrawn(ls) < n ==> Right(ls[LastDrawn(ls)]) < Right(ls[n]);
  }

  /** Greedy has drawn at least as many labels as the choice, and if only as many, it
      ends no further right. */
  ghost predicate Ahead(ls: seq<Label>, s: set<int>)
    requires forall i :: i in s ==> 0 <= i < |ls|
  {
    |s| <= |Greedy(ls)| && (|s| == |Greedy(ls)| && Greedy(ls) != [] ==> Reaches(ls, s))
  }

  /** Greedy stays ahead of every compatible choice. */
  lemma {:induction false} GreedyAhead(ls: seq<Label>, s: set<int>)
    requires RightsGrow(ls) && Compatible(ls, s)
    ensures Ahead(ls, s)
    decreases |ls|
  {
    if ls == [] {
      assert forall i :: i in s ==> i in {};
    } else {
      var n := |ls| - 1;
      var front, t := ls[..n], s - {n};
      GreedyAhead(front, t);
      if n in s {
        AheadWithLast(ls, s);
      } else {
        assert t == s;
        AheadWithoutLast(ls, s);
      }
    }
  }

  lemma AheadWithLast(ls: seq<Label>, s: set<int>)
    requires RightsGrow(ls) && Compatible(ls, s) && ls != [] && |ls| - 1 in s
    requires Ahead(ls[..|ls| - 1], s - {|ls| - 1})
    ensures Ahead(ls, s)
  {
    var n := |ls| - 1;
    var front, t := ls[..n], s - {n};
    GreedyStep(ls);
    assert s == t + {n};
    if |t| == |Greedy(front)| && Greedy(front) != [] {
      var i :| i in t && Right(front[LastDrawn(front)]) <= Right(front[i]);
      FitsFurther(ls[LastDrawn(front)], ls[i], ls[n]);
    }
    LastReaches(ls, s);
  }

  lemma AheadWithoutLast(ls: seq<Label>, s: set<int>)
    requires ls != [] && (forall i :: i in s ==> 0 <= i < |ls| - 1)
    requires Ahead(ls[..|ls| - 1], s)
    ensures Ahead(ls, s)
  {
    var n := |ls| - 1;
    var front := ls[..n];
    GreedyStep(ls);
    if |s| == |Greedy(ls)| && Greedy(ls) != [] {
      var i :| i in s && Right(front[LastDrawn(front)]) <= Right(front[i]);
      assert Right(ls[LastDrawn(ls)]) <= Right(ls[i]);
    }
  }

  lemma RangeAt(bs: seq<int>, n: nat, k: nat)
    requires k < |RangesOf(bs, n)| && forall j :: 0 <= j < |bs| ==> 0 <= bs[j] < n
    ensures var r := RangesOf(bs, n)[k]; r.step == k && 0 <= r.first && r.last < n
  {
  }

  lemma RangesOrdered(boundary: seq<bool>)
    ensures Ordered(RangesOf(Boundaries(boundary), |boundary|), |boundary|)
  {
    var bs, n := Boundaries(boundary), |boundary|;
    BoundariesProperties(boundary);
    forall k | 0 <= k < |RangesOf(bs, n)|
      ensures RangesOf(bs, n)[k].step == k && 0 <= RangesOf(bs, n)[k].first && RangesOf(bs, n)[k].last < n
    {
      RangeAt(bs, n, k);
    }
    forall j, k | 0 <= j < k < |RangesOf(bs, n)|
      ensures RangesOf(bs, n)[j].last < RangesOf(bs, n)[k].first
    {
      RangesApart(bs, n, j, k);
    }
  }

  /** On every plot: the labels drawn keep their distance, and no set of labels
      that keeps it is larger. */
  lemma LabelSelectionOptimal(pad: real, inner: real, boundary: seq<bool>, s: set<int>)
    requires inner > 0.0
    ensures forall k :: 0 <= k < |RangesOf(Boundaries(boundary), |boundary|)| ==> RangesOf(Boundaries(boundary), |boundary|)[k].step == k
    ensures var ls := LabelsOf(pad, inner, |boundary|, RangesOf(Boundaries(boundary), |boundary|));
      && Spaced(ls, Greedy(ls))
      && (Compatible(ls, s) ==> |s| <= |Greedy(ls)|)
  {
    RangesOrdered(boundary);
    var ls := LabelsOf(pad, inner, |boundary|, RangesOf(Boundaries(boundary), |boundary|));
    LabelsGrow(pad, inner, |boundary|, RangesOf(Boundaries(boundary), |boundary|));
    GreedyCompatible(ls);
    if Compatible(ls, s) {
      GreedyAhead(ls, s);
    }
  }
}
