/** The segments of a trace in terms of sample numbers: how many there are, where a
    file divides, and what a segment holds for each of its samples. */
module TraceSegments {
  import opened Wrappers
  import opened Lists
  import opened FiniteDist
  import opened Averages
  import opened TraceReader

  // -------------------------------------------------------------- accepted rows

  lemma {:induction false} RowsAppend(a: seq<Line>, b: seq<Line>)
    ensures Rows(a + b) == Rows(a) + Rows(b)
  {
    if b == [] {
      assert a + b == a;
    } else {
      var n := |b| - 1;
      RowsAppend(a, b[..n]);
      assert (a + b)[..|a + b| - 1] == a + b[..n];
    }
  }

  lemma RowsOne(l: Line)
    ensures Rows([l]) == if l.Accepted? then [l.row] else []
  {
    assert Rows([l][..0]) == [];
  }

  /** The lines of a file that holds just these rows. */
  function Written(rows: seq<Row>): seq<Line> {
    seq(|rows|, i requires 0 <= i < |rows| => Accepted(rows[i]))
  }

  lemma {:induction false} RowsWritten(rows: seq<Row>)
    ensures Rows(Written(rows)) == rows
  {
    if rows != [] {
      var n := |rows| - 1;
      RowsWritten(rows[..n]);
      assert Written(rows)[..n] == Written(rows[..n]);
    }
  }

  /** Lines that are no rows change nothing, wherever they stand. */
  lemma SkippedLines(a: seq<Line>, b: seq<Line>)
    ensures TraceOf([a + [Skipped] + b]) == TraceOf([a + b])
  {
    RowsSkip(a, b);
    OneFile(a + [Skipped] + b);
    OneFile(a + b);
  }

  lemma RowsSkip(a: seq<Line>, b: seq<Line>)
    ensures Rows(a + [Skipped] + b) == Rows(a + b)
  {
    RowsAppend(a, [Skipped]);
    RowsAppend(a + [Skipped], b);
    RowsAppend(a, b);
    RowsOne(Skipped);
    assert Rows(a) + [] == Rows(a);
  }

  lemma OneFile(lines: seq<Line>)
    ensures TraceOf([lines]) == SegmentsOf(Cut(Rows(lines), Descends))
  {
    assert [lines] == [] + [lines];
    Snoc([], lines);
    assert TraceOf([]) == [];
  }

  /** Files never share a segment. */
  lemma {:induction false} FilesApart(a: seq<seq<Line>>, b: seq<seq<Line>>)
    ensures TraceOf(a + b) == TraceOf(a) + TraceOf(b)
  {
    if b == [] {
      assert a + b == a;
    } else {
      FilesApart(a, Front(b));
      AppendRejoin(a, b);
      Snoc(a + Front(b), Last(b));
      Associate(TraceOf(a), TraceOf(Front(b)), SegmentsOf(Cut(Rows(Last(b)), Descends)));
    }
  }

  // ---------------------------------------------------------------- how many

  /** The places where the sample number falls. */
  function FallsIn(rows: seq<Row>): set<int> {
    set i | 0 <= i < |rows| - 1 && FallsAfter(rows, i)
  }

  predicate FallsAfter(rows: seq<Row>, i: nat)
    requires i < |rows| - 1
  {
    rows[i + 1].sample < rows[i].sample
  }

  lemma FallsSnoc(rows: seq<Row>, r: Row)
    requires rows != []
    ensures |FallsIn(rows + [r])| == |FallsIn(rows)| + (if r.sample < Last(rows).sample then 1 else 0)
  {
    var all, n := rows + [r], |rows| - 1;
    forall i
      ensures i in FallsIn(all) <==> i in FallsIn(rows) || (i == n && r.sample < Last(rows).sample)
    {
      assert 0 <= i < n ==> all[i] == rows[i] && all[i + 1] == rows[i + 1];
      assert all[n] == rows[n] && all[n + 1] == r;
    }
    if r.sample < Last(rows).sample {
      assert FallsIn(all) == FallsIn(rows) + {n};
    } else {
      assert FallsIn(all) == FallsIn(rows);
    }
  }

  lemma {:induction false} SegmentsCount(groups: seq<seq<Row>>)
    ensures |SegmentsOf(groups)| == |groups|
  {
    if groups != [] {
      SegmentsCount(Front(groups));
    }
  }

  lemma {:induction false} CutCount(rows: seq<Row>)
    ensures |Cut(rows, Descends)| == if rows == [] then 0 else 1 + |FallsIn(rows)|
  {
    if |rows| == 1 {
      CutStep([], rows[0], Descends);
      assert [] + [rows[0]] == rows;
      assert FallsIn(rows) == {};
    } else if rows != [] {
      var front, r := Front(rows), Last(rows);
      Rejoin(rows);
      CutCount(front);
      CutStep(front, r, Descends);
      FallsSnoc(front, r);
    }
  }

  /** A file has one segment more than its accepted rows have falls of the sample
      number, and none if there are no rows. */
  lemma SegmentCount(lines: seq<Line>)
    ensures |TraceOf([lines])| == if Rows(lines) == [] then 0 else 1 + |FallsIn(Rows(lines))|
  {
    OneFile(lines);
    CutCount(Rows(lines));
    SegmentsCount(Cut(Rows(lines), Descends));
  }

  // ------------------------------------------------------------ where a file divides

  lemma {:induction false} SegmentsAppend(a: seq<seq<Row>>, b: seq<seq<Row>>)
    ensures SegmentsOf(a + b) == SegmentsOf(a) + SegmentsOf(b)
  {
    if b == [] {
      assert a + b == a;
    } else {
      SegmentsAppend(a, Front(b));
      AppendRejoin(a, b);
      Snoc(a + Front(b), Last(b));
      Associate(SegmentsOf(a), SegmentsOf(Front(b)), [SegmentOf(Last(b))]);
    }
  }

  lemma {:induction false} CutApart(a: seq<Row>, b: seq<Row>)
    requires a != [] && b != [] && Descends(Last(a), b[0])
    ensures Cut(a + b, Descends) == Cut(a, Descends) + Cut(b, Descends)
  {
    var r := Last(b);
    Rejoin(b);
    AppendRejoin(a, b);
    if |b| == 1 {
      CutStep(a, r, Descends);
      CutStep([], r, Descends);
      assert [] + [r] == b && a + b == a + [r];
      assert Cut([], Descends) == [];
    } else {
      CutApart(a, Front(b));
      CutStep(a + Front(b), r, Descends);
      CutStep(Front(b), r, Descends);
      assert Last(a + Front(b)) == Last(Front(b));
      CutGroups(Front(b), Descends);
      TailGrows(Cut(a, Descends), Cut(Front(b), Descends), r);
    }
  }

  lemma TailGrows(a: seq<seq<Row>>, b: seq<seq<Row>>, r: Row)
    requires b != []
    ensures (a + b) + [[r]] == a + (b + [[r]])
    ensures Front(a + b) + [Last(a + b) + [r]] == a + (Front(b) + [Last(b) + [r]])
  {
  }

  /** A file divides where the sample number falls: what is before and what is after
      could as well be two files. */
  lemma {:induction false} FileDivides(a: seq<Line>, b: seq<Line>)
    requires Rows(a) != [] && Rows(b) != [] && Rows(b)[0].sample < Rows(a)[|Rows(a)| - 1].sample
    ensures TraceOf([a + b]) == TraceOf([a, b]) == TraceOf([a]) + TraceOf([b])
  {
    RowsAppend(a, b);
    var all := OneFileOf(a + b, Rows(a) + Rows(b));
    var first := OneFileOf(a, Rows(a));
    var second := OneFileOf(b, Rows(b));
    RowsDivide(Rows(a), Rows(b));
    TwoFiles(a, b);
  }

  /** The segments of one file, from its rows. */
  lemma {:induction false} OneFileOf(lines: seq<Line>, rows: seq<Row>) returns (segments: seq<Segment>)
    requires rows == Rows(lines)
    ensures segments == TraceOf([lines]) == SegmentsOf(Cut(rows, Descends))
  {
    OneFile(lines);
    segments := TraceOf([lines]);
  }

  lemma {:induction false} RowsDivide(a: seq<Row>, b: seq<Row>)
    requires a != [] && b != [] && Descends(Last(a), b[0])
    ensures SegmentsOf(Cut(a + b, Descends)) == SegmentsOf(Cut(a, Descends)) + SegmentsOf(Cut(b, Descends))
  {
    CutApart(a, b);
    SegmentsAppend(Cut(a, Descends), Cut(b, Descends));
  }

  lemma TwoFiles(a: seq<Line>, b: seq<Line>)
    ensures TraceOf([a, b]) == TraceOf([a]) + TraceOf([b])
  {
    FilesApart([a], [b]);
    assert [a] + [b] == [a, b];
  }

  // --------------------------------------------------------- what a segment holds

  ghost predicate NeverFalls(rows: seq<Row>) {
    forall i, j :: 0 <= i < j < |rows| ==> rows[i].sample <= rows[j].sample
  }

  lemma {:induction false} NeverFallsWhole(rows: seq<Row>)
    requires NeverFalls(rows)
    ensures Whole(rows, Descends)
  {
    if |rows| > 1 {
      NeverFallsWhole(Front(rows));
    }
  }

  lemma WholeIsCut(rows: seq<Row>)
    requires rows != [] && Whole(rows, Descends)
    ensures Cut(rows, Descends) == [rows]
  {
    CutOneMore([], rows, Descends);
    assert [] + rows == rows;
    assert Cut([], Descends) == [];
  }

  function SampleNumbers(rows: seq<Row>): set<int> {
    set j | 0 <= j < |rows| :: rows[j].sample
  }

  /** How many sample numbers are smaller. */
  function Rank(samples: set<int>, x: int): nat {
    |set y | y in samples && y < x|
  }

  lemma {:induction false} SampleNumbersAre(rows: seq<Row>)
    ensures SampleNumbers(rows) == SamplesOf(rows)
  {
    if rows != [] {
      SampleNumbersAre(Front(rows));
      Rejoin(rows);
      forall x
        ensures x in SampleNumbers(rows) <==> x in SampleNumbers(Front(rows)) || x == Last(rows).sample
      {
        assert rows[|rows| - 1] == Last(rows);
        assert forall j :: 0 <= j < |rows| - 1 ==> rows[j] == Front(rows)[j];
      }
    }
  }

  lemma {:induction false} KeysRank(keys: set<int>, x: int)
    requires x in keys
    ensures |SortedKeys(keys)| == |keys| && Rank(keys, x) < |keys| && SortedKeys(keys)[Rank(keys, x)] == x
  {
    KeysCount(keys);
    RankStep(keys, Smallest(keys), x);
    if x != Smallest(keys) {
      KeysRank(keys - {Smallest(keys)}, x);
    }
  }

  lemma RankStep(keys: set<int>, m: int, x: int)
    requires m in keys && x in keys && forall y :: y in keys ==> m <= y
    ensures Rank(keys, x) == if x == m then 0 else 1 + Rank(keys - {m}, x)
  {
    var rest := keys - {m};
    if x == m {
      assert (set y | y in keys && y < x) == {};
    } else {
      assert (set y | y in keys && y < x) == (set y | y in rest && y < x) + {m};
    }
  }

  lemma {:induction false} KeysCount(keys: set<int>)
    ensures |SortedKeys(keys)| == |keys|
  {
    if keys != {} {
      KeysCount(keys - {Smallest(keys)});
    }
  }

  lemma {:induction false} GroupsForAt(rows: seq<Row>, keys: seq<int>, k: nat)
    requires k < |keys|
    ensures |GroupsFor(rows, keys)| == |keys| && GroupsFor(rows, keys)[k] == RowsAt(rows, keys[k])
  {
    GroupsForCount(rows, keys);
    if k < |keys| - 1 {
      GroupsForAt(rows, Front(keys), k);
      GroupsForCount(rows, Front(keys));
    } else {
      GroupsForCount(rows, Front(keys));
    }
  }

  lemma {:induction false} GroupsForCount(rows: seq<Row>, keys: seq<int>)
    ensures |GroupsFor(rows, keys)| == |keys|
  {
    if keys != [] {
      GroupsForCount(rows, Front(keys));
    }
  }

  lemma {:induction false} MeansAt(groups: seq<seq<Row>>, k: nat)
    requires k < |groups|
    ensures |Means(groups)| == |groups| && Means(groups)[k] == Mean(Norms(groups[k]))
  {
    if k < |groups| - 1 {
      MeansAt(Front(groups), k);
    } else if k > 0 {
      MeansAt(Front(groups), k - 1);
    }
  }

  lemma {:induction false} MinimaAt(groups: seq<seq<Row>>, k: nat)
    requires AllNonEmpty(groups) && k < |groups|
    ensures |Minima(groups)| == |groups| && Lens(groups[k]) != [] && Minima(groups)[k] == Least(Lens(groups[k]))
  {
    LensNonEmpty(Last(groups));
    if k < |groups| - 1 {
      MinimaAt(Front(groups), k);
    } else if k > 0 {
      MinimaAt(Front(groups), k - 1);
    }
  }

  /** The rows of sample `s` that hold something. */
  function HeldAt(rows: seq<Row>, s: int): set<int> {
    set j | 0 <= j < |rows| && rows[j].sample == s && Normalize(rows[j].dist) != map[]
  }

  function RowValues(rows: seq<Row>): int -> int -> real {
    b => RowValue(rows, b)
  }

  function RowValue(rows: seq<Row>, b: int): int -> real {
    j => if 0 <= j < |rows| then Val(Normalize(rows[j].dist), b) else 0.0
  }

  lemma {:induction false} HeldAtSum(rows: seq<Row>, s: int, b: int)
    ensures SumAt(Norms(RowsAt(rows, s)), b) == SumOver(HeldAt(rows, s), RowValue(rows, b))
  {
    if rows == [] {
      assert HeldAt(rows, s) == {};
    } else {
      HeldAtSum(Front(rows), s, b);
      NormsGrow(Front(rows), Last(rows), s, b);
      HeldSumGrows(Front(rows), Last(rows), s, b);
      Rejoin(rows);
    }
  }

  lemma {:induction false} HeldSumGrows(front: seq<Row>, r: Row, s: int, b: int)
    ensures SumOver(HeldAt(front + [r], s), RowValue(front + [r], b))
         == SumOver(HeldAt(front, s), RowValue(front, b))
            + (if r.sample == s && Normalize(r.dist) != map[] then Val(Normalize(r.dist), b) else 0.0)
  {
    var all, n := front + [r], |front|;
    HeldGrows(front, r, s);
    forall j | j in HeldAt(front, s)
      ensures RowValue(front, b)(j) == RowValue(all, b)(j)
    {
      assert all[j] == front[j];
    }
    SumSame(HeldAt(front, s), RowValue(front, b), RowValue(all, b));
    SumInsert(HeldAt(front, s), RowValue(all, b), n);
  }

  lemma {:induction false} HeldAtCount(rows: seq<Row>, s: int)
    ensures NonEmpty(Norms(RowsAt(rows, s))) == |HeldAt(rows, s)|
  {
    if rows == [] {
      assert HeldAt(rows, s) == {};
    } else {
      HeldAtCount(Front(rows), s);
      CountGrows(Front(rows), Last(rows), s);
      HeldCountGrows(Front(rows), Last(rows), s);
      Rejoin(rows);
    }
  }

  function Counts(r: Row, s: int): nat {
    if r.sample == s && Normalize(r.dist) != map[] then 1 else 0
  }

  lemma {:induction false} CountGrows(front: seq<Row>, r: Row, s: int)
    ensures NonEmpty(Norms(RowsAt(front + [r], s))) == NonEmpty(Norms(RowsAt(front, s))) + Counts(r, s)
  {
    NormsGrow(front, r, s, 0);
  }

  lemma {:induction false} HeldCountGrows(front: seq<Row>, r: Row, s: int)
    ensures |HeldAt(front + [r], s)| == |HeldAt(front, s)| + Counts(r, s)
  {
    HeldGrows(front, r, s);
  }

  lemma {:induction false} HeldGrows(front: seq<Row>, r: Row, s: int)
    ensures HeldAt(front + [r], s)
         == if r.sample == s && Normalize(r.dist) != map[] then HeldAt(front, s) + {|front|} else HeldAt(front, s)
    ensures |front| !in HeldAt(front, s)
  {
    var all := front + [r];
    assert all[|front|] == r;
    assert forall j :: 0 <= j < |front| ==> all[j] == front[j];
  }

  lemma {:induction false} NormsGrow(front: seq<Row>, r: Row, s: int, b: int)
    ensures var before, after := Norms(RowsAt(front, s)), Norms(RowsAt(front + [r], s));
      if r.sample == s && Normalize(r.dist) != map[]
      then SumAt(after, b) == SumAt(before, b) + Val(Normalize(r.dist), b) && NonEmpty(after) == NonEmpty(before) + 1
      else SumAt(after, b) == SumAt(before, b) && NonEmpty(after) == NonEmpty(before)
  {
    RowsAtSnoc(front, r, s);
    if r.sample == s {
      NormsSnoc(RowsAt(front, s), r);
      Snoc(Norms(RowsAt(front, s)), Normalize(r.dist));
    }
  }

  lemma {:induction false} NormsAreDistributions(rows: seq<Row>)
    ensures AllDistributions(Norms(rows))
  {
    if rows != [] {
      NormsAreDistributions(Front(rows));
      NormalizeProperties(Last(rows).dist);
    }
  }

  lemma {:induction false} SampleAverages(rows: seq<Row>, s: int)
    ensures AveragesOf(Mean(Norms(RowsAt(rows, s))), HeldAt(rows, s), RowValues(rows))
  {
    var norms := Norms(RowsAt(rows, s));
    NormsAreDistributions(RowsAt(rows, s));
    HeldAtCount(rows, s);
    if NonEmpty(norms) > 0 {
      MeanAt(norms, 0);
      forall b
        ensures Share(Val(Mean(norms), b), |HeldAt(rows, s)|, SumOver(HeldAt(rows, s), RowValues(rows)(b)))
      {
        HeldAtSum(rows, s, b);
        MeanAt(norms, b);
      }
    }
  }

  lemma {:induction false} LensMembers(rows: seq<Row>, s: int, n: int)
    ensures n in Lens(RowsAt(rows, s)) <==> exists j :: 0 <= j < |rows| && rows[j].sample == s && rows[j].seqLen == n
  {
    if rows != [] {
      var front, r := Front(rows), Last(rows);
      Rejoin(rows);
      LensMembers(front, s, n);
      RowsAtSnoc(front, r, s);
      if r.sample == s {
        NormsSnoc(RowsAt(front, s), r);
      }
      if j :| 0 <= j < |rows| && rows[j].sample == s && rows[j].seqLen == n {
        assert j < |front| ==> front[j] == rows[j];
      }
      if j :| 0 <= j < |front| && front[j].sample == s && front[j].seqLen == n {
        assert rows[j] == front[j];
      }
      assert rows[|front|] == r;
    }
  }

  /** `n` is the least sequence length among the rows of sample `s`. */
  ghost predicate LeastLength(rows: seq<Row>, s: int, n: int) {
    && (exists j :: 0 <= j < |rows| && rows[j].sample == s && rows[j].seqLen == n)
    && (forall j :: 0 <= j < |rows| && rows[j].sample == s ==> n <= rows[j].seqLen)
  }

  lemma {:induction false} LeastAt(rows: seq<Row>, s: int)
    requires Lens(RowsAt(rows, s)) != []
    ensures LeastLength(rows, s, Least(Lens(RowsAt(rows, s))))
  {
    var lens := Lens(RowsAt(rows, s));
    LensMembers(rows, s, Least(lens));
    forall j | 0 <= j < |rows| && rows[j].sample == s
      ensures Least(lens) <= rows[j].seqLen
    {
      LensMembers(rows, s, rows[j].seqLen);
      var k :| 0 <= k < |lens| && lens[k] == rows[j].seqLen;
    }
  }

  /** The block size that counts: the last one stated, if it is not zero, or the default. */
  ghost predicate BlockSize(rows: seq<Row>, n: int) {
    if j :| LastStated(rows, j) then n == (if rows[j].blockTokens.value == 0 then 128 else rows[j].blockTokens.value)
    else n == 128
  }

  ghost predicate LastStated(rows: seq<Row>, j: int) {
    && 0 <= j < |rows| && rows[j].blockTokens.Some?
    && forall k :: j < k < |rows| ==> rows[k].blockTokens.None?
  }

  lemma {:induction false} TokensBlockSize(rows: seq<Row>)
    ensures BlockSize(rows, OrDefault(TokensOf(rows)))
  {
    if rows == [] {
      assert !exists j :: LastStated(rows, j);
    } else if Last(rows).blockTokens.Some? {
      assert LastStated(rows, |rows| - 1);
      OneLastStated(rows, |rows| - 1);
    } else {
      var front := Front(rows);
      TokensBlockSize(front);
      forall j
        ensures LastStated(rows, j) <==> LastStated(front, j)
      {
        assert forall k :: 0 <= k < |front| ==> front[k] == rows[k];
      }
      if j :| LastStated(front, j) {
        OneLastStated(rows, j);
        OneLastStated(front, j);
      }
    }
  }

  lemma OneLastStated(rows: seq<Row>, j: int)
    requires LastStated(rows, j)
    ensures forall k :: LastStated(rows, k) ==> k == j
  {
  }

  /** What a segment made of these rows holds: per sample number, in order, the average
      of that sample's rows and their least length; and the block size. */
  ghost predicate SegmentHolds(rows: seq<Row>, segment: Segment) {
    var samples := SampleNumbers(rows);
    && |segment.samples| == |segment.seqLens| == |samples|
    && BlockSize(rows, segment.blockTokens)
    && forall s :: s in samples ==>
         Rank(samples, s) < |samples|
         && AveragesOf(segment.samples[Rank(samples, s)], HeldAt(rows, s), RowValues(rows))
         && LeastLength(rows, s, segment.seqLens[Rank(samples, s)])
  }

  lemma {:induction false} HoldsItsRows(rows: seq<Row>)
    requires Whole(rows, Descends)
    ensures SegmentHolds(rows, SegmentOf(rows))
  {
    var samples, keys := SampleNumbers(rows), SortedKeys(SamplesOf(rows));
    SampleNumbersAre(rows);
    ByKeyIsRuns(rows);
    CutGroups(rows, Changes);
    SummaryLengths(Cut(rows, Changes));
    GroupsForCount(rows, keys);
    KeysCount(samples);
    TokensBlockSize(rows);
    forall s | s in samples
      ensures Rank(samples, s) < |samples|
      ensures AveragesOf(SegmentOf(rows).samples[Rank(samples, s)], HeldAt(rows, s), RowValues(rows))
      ensures LeastLength(rows, s, SegmentOf(rows).seqLens[Rank(samples, s)])
    {
      KeysRank(samples, s);
      GroupsForAt(rows, keys, Rank(samples, s));
      MeansAt(Cut(rows, Changes), Rank(samples, s));
      MinimaAt(Cut(rows, Changes), Rank(samples, s));
      SampleAverages(rows, s);
      LeastAt(rows, s);
    }
  }

  /** A file whose sample numbers never fall makes one segment, and that segment holds
      exactly its rows. */
  lemma OneSegment(lines: seq<Line>)
    requires Rows(lines) != [] && NeverFalls(Rows(lines))
    ensures |TraceOf([lines])| == 1 && SegmentHolds(Rows(lines), TraceOf([lines])[0])
  {
    var rows := Rows(lines);
    NeverFallsWhole(rows);
    WholeIsCut(rows);
    OneFile(lines);
    assert SegmentsOf([rows]) == [SegmentOf(rows)] by {
      Snoc([], rows);
      assert [] + [rows] == [rows];
    }
    HoldsItsRows(rows);
  }

  // ------------------------------------------------------- every segment of a file

  /** The rows from `lo` up to `hi` are those between the `k`th fall and the next. */
  ghost predicate Span(rows: seq<Row>, k: nat, lo: int, hi: int) {
    && 0 <= lo < hi <= |rows|
    && (lo > 0 ==> lo - 1 in FallsIn(rows)) && (hi < |rows| ==> hi - 1 in FallsIn(rows))
    && (forall i :: lo <= i < hi - 1 ==> i !in FallsIn(rows))
    && |FallsBefore(rows, lo)| == k
  }

  function FallsBefore(rows: seq<Row>, lo: int): set<int> {
    set i | i in FallsIn(rows) && i < lo
  }

  lemma FallsGrow(rows: seq<Row>, r: Row)
    requires rows != []
    ensures FallsIn(rows + [r]) == if Descends(Last(rows), r) then FallsIn(rows) + {|rows| - 1} else FallsIn(rows)
    ensures |rows| - 1 !in FallsIn(rows)
  {
    var all, n := rows + [r], |rows| - 1;
    forall i
      ensures i in FallsIn(all) <==> i in FallsIn(rows) || (i == n && Descends(Last(rows), r))
    {
      assert 0 <= i < n ==> all[i] == rows[i] && all[i + 1] == rows[i + 1];
      assert all[n] == rows[n] && all[n + 1] == r;
      assert 0 <= i < n ==> FallsAfter(all, i) == FallsAfter(rows, i);
    }
  }

  lemma {:induction false} SpanStays(rows: seq<Row>, r: Row, k: nat, lo: int, hi: int)
    requires rows != [] && Span(rows, k, lo, hi)
    requires hi == |rows| ==> Descends(Last(rows), r)
    ensures Span(rows + [r], k, lo, hi)
  {
    FallsGrow(rows, r);
    assert FallsBefore(rows + [r], lo) == FallsBefore(rows, lo);
  }

  lemma {:induction false} SpanGrows(rows: seq<Row>, r: Row, k: nat, lo: int)
    requires rows != [] && Span(rows, k, lo, |rows|) && !Descends(Last(rows), r)
    ensures Span(rows + [r], k, lo, |rows| + 1)
  {
    FallsGrow(rows, r);
    assert FallsBefore(rows + [r], lo) == FallsBefore(rows, lo);
  }

  lemma {:induction false} SpanBegins(rows: seq<Row>, r: Row)
    requires rows != [] && Descends(Last(rows), r)
    ensures Span(rows + [r], |Cut(rows, Descends)|, |rows|, |rows| + 1)
  {
    var all := rows + [r];
    FallsGrow(rows, r);
    FallsSnoc(rows, r);
    CutCount(rows);
    assert FallsBefore(all, |rows|) == FallsIn(all);
  }

  lemma {:induction false} CutSpans(rows: seq<Row>, k: nat) returns (lo: nat, hi: nat)
    requires k < |Cut(rows, Descends)|
    ensures Span(rows, k, lo, hi) && Cut(rows, Descends)[k] == rows[lo..hi]
    ensures k == |Cut(rows, Descends)| - 1 ==> hi == |rows|
  {
    var front, r := Front(rows), Last(rows);
    Rejoin(rows);
    CutStep(front, r, Descends);
    if front == [] {
      lo, hi := FirstSpan(rows, k);
    } else if k == |Cut(front, Descends)| {
      lo, hi := |front|, |rows|;
      SpanBegins(front, r);
    } else {
      lo, hi := CutSpans(front, k);
      CutCount(front);
      if hi == |front| {
        LastSpan(front, k, lo);
      }
      hi := SpanAfter(front, r, k, lo, hi);
    }
  }

  lemma {:induction false} FirstSpan(rows: seq<Row>, k: nat) returns (lo: nat, hi: nat)
    requires |rows| == 1 && k < |Cut(rows, Descends)|
    ensures Span(rows, k, lo, hi) && Cut(rows, Descends)[k] == rows[lo..hi] && hi == |rows| && k == |Cut(rows, Descends)| - 1
  {
    lo, hi := 0, 1;
    CutStep([], rows[0], Descends);
    assert rows == [] + [rows[0]];
    assert FallsBefore(rows, 0) == {};
    assert Cut([], Descends) == [] && [] + [[rows[0]]] == [[rows[0]]];
  }

  /** One row more: the last span grows by it, or stays like all others. */
  lemma {:induction false} SpanAfter(front: seq<Row>, r: Row, k: nat, lo: nat, hi: nat) returns (hi': nat)
    requires front != [] && k < |Cut(front, Descends)| && Span(front, k, lo, hi) && Cut(front, Descends)[k] == front[lo..hi]
    requires hi == |front| <==> k == |Cut(front, Descends)| - 1
    ensures k < |Cut(front + [r], Descends)|
    ensures Span(front + [r], k, lo, hi') && Cut(front + [r], Descends)[k] == (front + [r])[lo..hi']
    ensures k == |Cut(front + [r], Descends)| - 1 ==> hi' == |front| + 1
  {
    CutStep(front, r, Descends);
    if k == |Cut(front, Descends)| - 1 && !Descends(Last(front), r) {
      SpanGrows(front, r, k, lo);
      hi' := |front| + 1;
      assert (front + [r])[lo..hi'] == front[lo..|front|] + [r];
    } else {
      SpanStays(front, r, k, lo, hi);
      hi' := hi;
      assert (front + [r])[lo..hi'] == front[lo..hi];
    }
  }

  /** Only the last span reaches the end. */
  lemma {:induction false} LastSpan(rows: seq<Row>, k: nat, lo: int)
    requires Span(rows, k, lo, |rows|)
    ensures k == |FallsIn(rows)|
  {
    assert FallsBefore(rows, lo) == FallsIn(rows);
  }

  lemma {:induction false} SpanWhole(rows: seq<Row>, lo: nat, hi: nat)
    requires lo < hi <= |rows| && forall i :: lo <= i < hi - 1 ==> i !in FallsIn(rows)
    ensures Whole(rows[lo..hi], Descends)
  {
    if hi - lo > 1 {
      SpanWhole(rows, lo, hi - 1);
      assert Front(rows[lo..hi]) == rows[lo..hi - 1];
      assert hi - 2 !in FallsIn(rows);
      assert !FallsAfter(rows, hi - 2);
    }
  }

  lemma {:induction false} SegmentsAt(groups: seq<seq<Row>>, k: nat)
    requires k < |groups|
    ensures |SegmentsOf(groups)| == |groups| && SegmentsOf(groups)[k] == SegmentOf(groups[k])
  {
    SegmentsCount(groups);
    SegmentsCount(Front(groups));
    if k < |groups| - 1 {
      SegmentsAt(Front(groups), k);
    }
  }

  /** Segment `k` of a file holds exactly the accepted rows between the `k`th fall of
      the sample number and the next, sample by sample. */
  lemma SegmentAt(lines: seq<Line>, k: nat) returns (lo: nat, hi: nat)
    requires k < |TraceOf([lines])|
    ensures Span(Rows(lines), k, lo, hi) && SegmentHolds(Rows(lines)[lo..hi], TraceOf([lines])[k])
  {
    var rows := Rows(lines);
    OneFile(lines);
    SegmentsCount(Cut(rows, Descends));
    SegmentsAt(Cut(rows, Descends), k);
    lo, hi := CutSpans(rows, k);
    SpanWhole(rows, lo, hi);
    HoldsItsRows(rows[lo..hi]);
  }
}
