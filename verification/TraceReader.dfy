/** Reading attention traces: rows are cut into segments where the sample number
    descends, and the rows of one sample are averaged. */
module TraceReader {
  import opened Wrappers
  import opened Lists
  import opened FiniteDist

  /** One accepted row, already parsed; `dist` is the dict of block ids to mass. */
  datatype Row = Row(sample: int, blockTokens: Option<int>, dist: Dist, seqLen: int)

  /** A trace line is a row of one of the two accepted kinds, or is skipped. */
  datatype Line = Accepted(row: Row) | Skipped

  datatype Segment = Segment(samples: seq<Dist>, seqLens: seq<int>, blockTokens: int)

  function Rows(lines: seq<Line>): seq<Row> {
    if lines == [] then []
    else Rows(lines[..|lines| - 1]) + (if lines[|lines| - 1].Accepted? then [lines[|lines| - 1].row] else [])
  }

  // ------------------------------------------------------- cutting a row list

  predicate Descends(before: Row, after: Row) {
    after.sample < before.sample
  }

  predicate Changes(before: Row, after: Row) {
    after.sample != before.sample
  }

  /** Cut a list of rows wherever neighbours satisfy `breaks`. */
  function Cut(rows: seq<Row>, breaks: (Row, Row) -> bool): seq<seq<Row>> {
    if rows == [] then []
    else Extend(Cut(Front(rows), breaks), Last(rows), |rows| == 1 || breaks(Last(Front(rows)), Last(rows)))
  }

  function Extend(groups: seq<seq<Row>>, r: Row, fresh_: bool): seq<seq<Row>> {
    if groups == [] || fresh_ then groups + [[r]] else Front(groups) + [Last(groups) + [r]]
  }

  /** No two neighbours inside one group break. */
  ghost predicate Whole(group: seq<Row>, breaks: (Row, Row) -> bool) {
    |group| <= 1 || (Whole(Front(group), breaks) && !breaks(Last(Front(group)), Last(group)))
  }

  /** Non-empty groups with no break inside and one between any two of them. */
  ghost predicate CutAtBreaks(groups: seq<seq<Row>>, breaks: (Row, Row) -> bool) {
    groups == []
    || (var front, g := Front(groups), Last(groups);
        && CutAtBreaks(front, breaks) && g != [] && Whole(g, breaks)
        && (front != [] ==> Last(front) != [] && breaks(Last(Last(front)), g[0])))
  }

  lemma ExtendFlattens(groups: seq<seq<Row>>, r: Row, fresh_: bool)
    ensures Flatten(Extend(groups, r, fresh_)) == Flatten(groups) + [r]
  {
    if groups == [] || fresh_ {
      FlattenSnoc(groups, [r]);
    } else {
      FlattenSnoc(Front(groups), Last(groups) + [r]);
    }
  }

  /** Cutting loses no row, repeats none and keeps their order. */
  lemma {:induction false} CutFlattens(rows: seq<Row>, breaks: (Row, Row) -> bool)
    ensures Flatten(Cut(rows, breaks)) == rows
  {
    if rows != [] {
      CutFlattens(Front(rows), breaks);
      ExtendFlattens(Cut(Front(rows), breaks), Last(rows), |rows| == 1 || breaks(Last(Front(rows)), Last(rows)));
      assert Front(rows) + [Last(rows)] == rows;
    }
  }

  ghost predicate AllNonEmpty(groups: seq<seq<Row>>) {
    groups == [] || (AllNonEmpty(Front(groups)) && Last(groups) != [])
  }

  lemma {:induction false} CutGroups(rows: seq<Row>, breaks: (Row, Row) -> bool)
    ensures AllNonEmpty(Cut(rows, breaks))
    ensures rows != [] ==>
      Cut(rows, breaks) != [] && Last(Cut(rows, breaks)) != [] && Last(Last(Cut(rows, breaks))) == Last(rows)
  {
    if rows != [] {
      CutGroups(Front(rows), breaks);
      ExtendGroups(Cut(Front(rows), breaks), Last(rows), |rows| == 1 || breaks(Last(Front(rows)), Last(rows)));
    }
  }

  lemma ExtendGroups(groups: seq<seq<Row>>, r: Row, fresh_: bool)
    requires AllNonEmpty(groups)
    ensures var g := Extend(groups, r, fresh_);
      AllNonEmpty(g) && g != [] && Last(g) != [] && Last(Last(g)) == r
  {
    if groups == [] || fresh_ {
      Snoc(groups, [r]);
    } else {
      Snoc(Front(groups), Last(groups) + [r]);
    }
  }

  /** How the cuts grow by one row. */
  lemma CutStep(rows: seq<Row>, r: Row, breaks: (Row, Row) -> bool)
    ensures rows == [] || breaks(Last(rows), r) ==> Cut(rows + [r], breaks) == Cut(rows, breaks) + [[r]]
    ensures rows != [] && !breaks(Last(rows), r) ==>
      Cut(rows, breaks) != [] && Cut(rows + [r], breaks) == Front(Cut(rows, breaks)) + [Last(Cut(rows, breaks)) + [r]]
  {
    Snoc(rows, r);
    CutGroups(rows, breaks);
  }

  lemma WholeSnoc(g: seq<Row>, r: Row, breaks: (Row, Row) -> bool)
    requires g != [] && Whole(g, breaks) && !breaks(Last(g), r)
    ensures Whole(g + [r], breaks)
  {
    Snoc(g, r);
  }

  lemma {:induction false} CutCuts(rows: seq<Row>, breaks: (Row, Row) -> bool)
    ensures CutAtBreaks(Cut(rows, breaks), breaks)
  {
    if rows != [] {
      var front, r := Front(rows), Last(rows);
      assert front + [r] == rows;
      CutCuts(front, breaks);
      CutGroups(front, breaks);
      CutStep(front, r, breaks);
      if front == [] || breaks(Last(front), r) {
        NewGroup(Cut(front, breaks), r, breaks);
      } else {
        GrowGroup(Cut(front, breaks), r, breaks);
      }
    }
  }

  lemma NewGroup(groups: seq<seq<Row>>, r: Row, breaks: (Row, Row) -> bool)
    requires CutAtBreaks(groups, breaks)
    requires groups != [] ==> breaks(Last(Last(groups)), r)
    ensures CutAtBreaks(groups + [[r]], breaks)
  {
    Snoc(groups, [r]);
  }

  lemma GrowGroup(groups: seq<seq<Row>>, r: Row, breaks: (Row, Row) -> bool)
    requires groups != [] && CutAtBreaks(groups, breaks) && !breaks(Last(Last(groups)), r)
    ensures CutAtBreaks(Front(groups) + [Last(groups) + [r]], breaks)
  {
    WholeSnoc(Last(groups), r, breaks);
    Snoc(Front(groups), Last(groups) + [r]);
  }

  lemma {:induction false} CutOneMore(rows: seq<Row>, g: seq<Row>, breaks: (Row, Row) -> bool)
    requires g != [] && Whole(g, breaks) && (rows != [] ==> breaks(Last(rows), g[0]))
    ensures Cut(rows + g, breaks) == Cut(rows, breaks) + [g]
  {
    assert Front(g) + [Last(g)] == g;
    if |g| == 1 {
      CutStep(rows, Last(g), breaks);
    } else {
      CutOneMore(rows, Front(g), breaks);
      GrowLast(rows, Front(g), Last(g), breaks);
    }
  }

  lemma GrowLast(rows: seq<Row>, g: seq<Row>, r: Row, breaks: (Row, Row) -> bool)
    requires g != [] && !breaks(Last(g), r)
    requires Cut(rows + g, breaks) == Cut(rows, breaks) + [g]
    ensures Cut(rows + (g + [r]), breaks) == Cut(rows, breaks) + [g + [r]]
  {
    assert rows + (g + [r]) == (rows + g) + [r];
    assert Last(rows + g) == Last(g);
    CutStep(rows + g, r, breaks);
    Snoc(Cut(rows, breaks), g);
  }

  lemma {:induction false} CutOfFlatten(groups: seq<seq<Row>>, breaks: (Row, Row) -> bool)
    requires CutAtBreaks(groups, breaks)
    ensures Cut(Flatten(groups), breaks) == groups
  {
    if groups != [] {
      var front, g := Front(groups), Last(groups);
      CutOfFlatten(front, breaks);
      if front != [] {
        LastOfFlatten(front);
      } else {
        assert Flatten(front) == [];
      }
      CutOneMore(Flatten(front), g, breaks);
      Rejoin(groups);
    }
  }

  lemma LastOfFlatten(groups: seq<seq<Row>>)
    requires groups != [] && Last(groups) != []
    ensures Flatten(groups) != [] && Last(Flatten(groups)) == Last(Last(groups))
  {
  }

  /** The cuts fall exactly at the breaks: this is the only way to divide the rows
      into groups with no break inside and one between any two. */
  lemma CutUnique(rows: seq<Row>, groups: seq<seq<Row>>, breaks: (Row, Row) -> bool)
    ensures groups == Cut(rows, breaks) <==> Flatten(groups) == rows && CutAtBreaks(groups, breaks)
  {
    CutFlattens(rows, breaks);
    CutCuts(rows, breaks);
    if Flatten(groups) == rows && CutAtBreaks(groups, breaks) {
      CutOfFlatten(groups, breaks);
    }
  }

  // -------------------------------------------------- grouping rows by sample

  function SamplesOf(rows: seq<Row>): set<int> {
    if rows == [] then {} else SamplesOf(Front(rows)) + {Last(rows).sample}
  }

  function RowsAt(rows: seq<Row>, sample: int): seq<Row> {
    if rows == [] then []
    else RowsAt(Front(rows), sample) + (if Last(rows).sample == sample then [Last(rows)] else [])
  }

  function SortedKeys(keys: set<int>): seq<int> {
    if keys == {} then [] else [Smallest(keys)] + SortedKeys(keys - {Smallest(keys)})
  }

  function GroupsFor(rows: seq<Row>, keys: seq<int>): seq<seq<Row>> {
    if keys == [] then [] else GroupsFor(rows, Front(keys)) + [RowsAt(rows, Last(keys))]
  }

  /** Grouping by a dict and then sorting its keys. */
  function ByKey(rows: seq<Row>): seq<seq<Row>> {
    GroupsFor(rows, SortedKeys(SamplesOf(rows)))
  }

  lemma {:induction false} SortedKeysSnoc(keys: set<int>, top: int)
    requires forall k :: k in keys ==> k < top
    ensures SortedKeys(keys + {top}) == SortedKeys(keys) + [top]
    decreases keys
  {
    var all := keys + {top};
    if keys == {} {
      assert all == {top};
      assert Smallest(all) == top && all - {top} == {};
    } else {
      var m := Smallest(keys);
      assert m in all && Smallest(all) <= m;
      assert Smallest(all) in keys;
      assert Smallest(all) == m;
      assert all - {m} == (keys - {m}) + {top};
      SortedKeysSnoc(keys - {m}, top);
    }
  }

  lemma {:induction false} SortedKeysMembers(keys: set<int>, x: int)
    ensures x in SortedKeys(keys) <==> x in keys
  {
    if keys != {} {
      SortedKeysMembers(keys - {Smallest(keys)}, x);
    }
  }

  lemma {:induction false} RowsAtAbsent(rows: seq<Row>, sample: int)
    ensures RowsAt(rows, sample) == [] <==> sample !in SamplesOf(rows)
  {
    if rows != [] {
      RowsAtAbsent(Front(rows), sample);
    }
  }

  lemma RowsAtSnoc(rows: seq<Row>, r: Row, s: int)
    ensures RowsAt(rows + [r], s) == if r.sample == s then RowsAt(rows, s) + [r] else RowsAt(rows, s)
    ensures SamplesOf(rows + [r]) == SamplesOf(rows) + {r.sample}
  {
    Snoc(rows, r);
  }

  lemma {:induction false} GroupsForOther(rows: seq<Row>, r: Row, keys: seq<int>)
    requires r.sample !in keys
    ensures GroupsFor(rows + [r], keys) == GroupsFor(rows, keys)
  {
    if keys != [] {
      GroupsForOther(rows, r, Front(keys));
      RowsAtSnoc(rows, r, Last(keys));
    }
  }

  lemma GroupsForSnoc(rows: seq<Row>, keys: seq<int>, k: int)
    ensures GroupsFor(rows, keys + [k]) == GroupsFor(rows, keys) + [RowsAt(rows, k)]
  {
    Snoc(keys, k);
  }

  /** The samples of rows without a descent are at most the last one. */
  lemma {:induction false} SamplesBelow(rows: seq<Row>, x: int)
    requires rows != [] && Whole(rows, Descends) && x in SamplesOf(rows)
    ensures x <= Last(rows).sample
  {
    if |rows| > 1 && x in SamplesOf(Front(rows)) {
      SamplesBelow(Front(rows), x);
    }
  }

  lemma LastIsSample(rows: seq<Row>)
    requires rows != []
    ensures Last(rows).sample in SamplesOf(rows)
  {
  }

  /** In rows without a descent the last key is the last row's sample. */
  lemma LastKey(rows: seq<Row>) returns (below: set<int>)
    requires rows != [] && Whole(rows, Descends)
    ensures below == SamplesOf(rows) - {Last(rows).sample}
    ensures SortedKeys(SamplesOf(rows)) == SortedKeys(below) + [Last(rows).sample]
  {
    var top := Last(rows).sample;
    below := SamplesOf(rows) - {top};
    LastIsSample(rows);
    assert SamplesOf(rows) == below + {top};
    forall x | x in below
      ensures x < top
    {
      SamplesBelow(rows, x);
    }
    SortedKeysSnoc(below, top);
  }

  /** In rows without a descent, grouping by a dict with sorted keys is the same
      as grouping consecutive equal samples in arrival order. */
  lemma {:induction false} ByKeyIsRuns(rows: seq<Row>)
    requires Whole(rows, Descends)
    ensures ByKey(rows) == Cut(rows, Changes)
  {
    if |rows| == 1 {
      ByKeyOne(rows[0]);
      assert rows == [rows[0]];
      CutStep([], rows[0], Changes);
    } else if rows != [] {
      var front, r := Front(rows), Last(rows);
      assert front + [r] == rows;
      ByKeyIsRuns(front);
      CutStep(front, r, Changes);
      if r.sample == Last(front).sample {
        ByKeySame(front, r);
      } else {
        ByKeyNew(front, r);
      }
    }
  }

  lemma ByKeyOne(r: Row)
    ensures ByKey([r]) == [[r]]
  {
    assert SamplesOf([r]) == {} + {r.sample} by {
      RowsAtSnoc([], r, r.sample);
      assert [] + [r] == [r];
    }
    SortedKeysSnoc({}, r.sample);
    assert SortedKeys({}) == [];
    assert [] + [r.sample] == [r.sample];
    GroupsForSnoc([r], [], r.sample);
    RowsAtSnoc([], r, r.sample);
  }

  lemma ByKeySame(front: seq<Row>, r: Row)
    requires front != [] && Whole(front, Descends) && r.sample == Last(front).sample
    ensures ByKey(front) != [] && ByKey(front + [r]) == Front(ByKey(front)) + [Last(ByKey(front)) + [r]]
  {
    var below := LastKey(front);
    var keys := SortedKeys(below);
    LastIsSample(front);
    RowsAtSnoc(front, r, r.sample);
    assert SamplesOf(front + [r]) == SamplesOf(front);
    SortedKeysMembers(below, r.sample);
    GroupsForOther(front, r, keys);
    GroupsForSnoc(front, keys, r.sample);
    GroupsForSnoc(front + [r], keys, r.sample);
    Snoc(GroupsFor(front, keys), RowsAt(front, r.sample));
  }

  lemma ByKeyNew(front: seq<Row>, r: Row)
    requires front != [] && Whole(front, Descends) && r.sample > Last(front).sample
    ensures ByKey(front + [r]) == ByKey(front) + [[r]]
  {
    forall x | x in SamplesOf(front)
      ensures x < r.sample
    {
      SamplesBelow(front, x);
    }
    var keys := SortedKeys(SamplesOf(front));
    RowsAtSnoc(front, r, r.sample);
    SortedKeysSnoc(SamplesOf(front), r.sample);
    SortedKeysMembers(SamplesOf(front), r.sample);
    assert r.sample !in SamplesOf(front);
    RowsAtAbsent(front, r.sample);
    GroupsForOther(front, r, keys);
    GroupsForSnoc(front + [r], keys, r.sample);
    assert [] + [r] == [r];
  }

  // --------------------------------------------------------------- one segment

  function Norms(rows: seq<Row>): seq<Dist> {
    if rows == [] then [] else Norms(Front(rows)) + [Normalize(Last(rows).dist)]
  }

  function Lens(rows: seq<Row>): seq<int> {
    if rows == [] then [] else Lens(Front(rows)) + [Last(rows).seqLen]
  }

  function Least(xs: seq<int>): (m: int)
    requires xs != []
    ensures m in xs && forall k :: 0 <= k < |xs| ==> m <= xs[k]
  {
    if |xs| == 1 then xs[0]
    else
      var m := Least(Front(xs));
      if Last(xs) < m then Last(xs) else m
  }

  const DEFAULT_TOKENS := 128

  /** `tokens or 128`: a missing and a zero count both give the default. */
  function OrDefault(tokens: Option<int>): int {
    if tokens == None || tokens == Some(0) then DEFAULT_TOKENS else tokens.value
  }

  /** The block size a segment ends with: the last row that states one decides. */
  function TokensOf(rows: seq<Row>): Option<int> {
    if rows == [] then None
    else
      var r := Last(rows);
      Some(if r.blockTokens.Some? then r.blockTokens.value else OrDefault(TokensOf(Front(rows))))
  }

  function Means(groups: seq<seq<Row>>): seq<Dist> {
    if groups == [] then [] else Means(Front(groups)) + [Mean(Norms(Last(groups)))]
  }

  function Minima(groups: seq<seq<Row>>): seq<int>
    requires AllNonEmpty(groups)
  {
    if groups == [] then [] else Minima(Front(groups)) + [Least(Lens(Last(groups)))]
  }

  /** The plain description of a segment: average each run of equal samples. */
  ghost function SegmentOf(rows: seq<Row>): Segment {
    CutGroups(rows, Changes);
    var runs := Cut(rows, Changes);
    Segment(Means(runs), Minima(runs), OrDefault(TokensOf(rows)))
  }

  // ---------------------------------------------------------------- the reader

  function Tabulate<T>(keys: set<int>, f: int -> T): map<int, T> {
    map k | k in keys :: f(k)
  }

  function NormsAt(rows: seq<Row>): int -> seq<Dist> {
    s => Norms(RowsAt(rows, s))
  }

  function LensAt(rows: seq<Row>): int -> seq<int> {
    s => Lens(RowsAt(rows, s))
  }

  ghost function LayersOf(rows: seq<Row>): map<int, seq<Dist>> {
    Tabulate(SamplesOf(rows), NormsAt(rows))
  }

  ghost function SeqLensOf(rows: seq<Row>): map<int, seq<int>> {
    Tabulate(SamplesOf(rows), LensAt(rows))
  }

  /** A defaultdict's `d[key].append(x)`. */
  function Appended<T>(d: map<int, seq<T>>, key: int, x: T): map<int, seq<T>> {
    d[key := (if key in d then d[key] else []) + [x]]
  }

  lemma TabulateAppend<T>(keys: set<int>, f: int -> seq<T>, g: int -> seq<T>, key: int, x: T)
    requires g(key) == f(key) + [x] && (key !in keys ==> f(key) == [])
    requires forall k :: k in keys && k != key ==> g(k) == f(k)
    ensures Tabulate(keys + {key}, g) == Appended(Tabulate(keys, f), key, x)
  {
    var before, after := Tabulate(keys, f), Tabulate(keys + {key}, g);
    assert (if key in before then before[key] else []) == f(key);
    assert after.Keys == Appended(before, key, x).Keys;
    forall k | k in after
      ensures after[k] == Appended(before, key, x)[k]
    {
      assert k == key || k in keys;
    }
  }

  lemma NormsSnoc(rows: seq<Row>, r: Row)
    ensures Norms(rows + [r]) == Norms(rows) + [Normalize(r.dist)]
    ensures Lens(rows + [r]) == Lens(rows) + [r.seqLen]
  {
    Snoc(rows, r);
  }

  lemma RowsAtStep(rows: seq<Row>, r: Row)
    ensures NormsAt(rows + [r])(r.sample) == NormsAt(rows)(r.sample) + [Normalize(r.dist)]
    ensures LensAt(rows + [r])(r.sample) == LensAt(rows)(r.sample) + [r.seqLen]
    ensures r.sample !in SamplesOf(rows) ==> NormsAt(rows)(r.sample) == [] && LensAt(rows)(r.sample) == []
  {
    RowsAtSnoc(rows, r, r.sample);
    RowsAtAbsent(rows, r.sample);
    NormsSnoc(RowsAt(rows, r.sample), r);
  }

  lemma RowsStepOther(rows: seq<Row>, r: Row, s: int)
    requires s != r.sample
    ensures NormsAt(rows + [r])(s) == NormsAt(rows)(s) && LensAt(rows + [r])(s) == LensAt(rows)(s)
  {
    RowsAtSnoc(rows, r, s);
  }

  lemma LayersStep(rows: seq<Row>, r: Row)
    ensures LayersOf(rows + [r]) == Appended(LayersOf(rows), r.sample, Normalize(r.dist))
    ensures SeqLensOf(rows + [r]) == Appended(SeqLensOf(rows), r.sample, r.seqLen)
  {
    RowsAtStep(rows, r);
    RowsAtSnoc(rows, r, r.sample);
    forall s | s != r.sample
      ensures NormsAt(rows + [r])(s) == NormsAt(rows)(s) && LensAt(rows + [r])(s) == LensAt(rows)(s)
    {
      RowsStepOther(rows, r, s);
    }
    TabulateAppend(SamplesOf(rows), NormsAt(rows), NormsAt(rows + [r]), r.sample, Normalize(r.dist));
    TabulateAppend(SamplesOf(rows), LensAt(rows), LensAt(rows + [r]), r.sample, r.seqLen);
  }

  lemma TokensStep(rows: seq<Row>, r: Row)
    ensures TokensOf(rows + [r]) == Some(if r.blockTokens.Some? then r.blockTokens.value else OrDefault(TokensOf(rows)))
  {
    Snoc(rows, r);
  }

  lemma NoLayers(rows: seq<Row>)
    requires LayersOf(rows) == map[]
    ensures rows == []
  {
    assert LayersOf(rows).Keys == SamplesOf(rows);
    if rows != [] {
      LastIsSample(rows);
    }
  }

  lemma SomeLayers(rows: seq<Row>)
    requires LayersOf(rows) != map[]
    ensures rows != []
  {
  }

  /** The dicts and the block size hold exactly the rows since the last cut. */
  ghost predicate Holds(layers: map<int, seq<Dist>>, seqLens: map<int, seq<int>>, tokens: Option<int>, rows: seq<Row>) {
    layers == LayersOf(rows) && seqLens == SeqLensOf(rows) && tokens == TokensOf(rows) && Whole(rows, Descends)
  }

  lemma HoldsNothing()
    ensures Holds(map[], map[], None, [])
  {
  }

  lemma HoldsMore(layers: map<int, seq<Dist>>, seqLens: map<int, seq<int>>, tokens: Option<int>, rows: seq<Row>, r: Row)
    requires Holds(layers, seqLens, tokens, rows) && (rows != [] ==> !Descends(Last(rows), r))
    ensures Holds(
              Appended(layers, r.sample, Normalize(r.dist)), Appended(seqLens, r.sample, r.seqLen),
              Some(if r.blockTokens.Some? then r.blockTokens.value else OrDefault(tokens)), rows + [r])
  {
    LayersStep(rows, r);
    TokensStep(rows, r);
    Snoc(rows, r);
  }

  class Reader {
    var layers: map<int, seq<Dist>>
    var seqLens: map<int, seq<int>>
    var blockTokens: Option<int>
    var segments: seq<Segment>
    ghost var rows: seq<Row>

    ghost predicate Valid()
      reads this
    {
      Holds(layers, seqLens, blockTokens, rows)
    }

    constructor ()
      ensures Valid() && rows == [] && segments == []
    {
      HoldsNothing();
      layers, seqLens, blockTokens, segments, rows := map[], map[], None, [], [];
    }

    /** Turn the rows gathered since the last cut into a segment. */
    method Flush()
      requires Valid()
      modifies this
      ensures Valid() && rows == []
      ensures old(rows) == [] ==> segments == old(segments)
      ensures old(rows) != [] ==> segments == old(segments) + [SegmentOf(old(rows))]
    {
      if layers == map[] {
        NoLayers(rows);
        return;
      }
      SomeLayers(rows);
      var segment := Gather(layers, seqLens, blockTokens, rows);
      Close(segment);
    }

    /** Keep a finished segment and begin with nothing. */
    method Close(segment: Segment)
      modifies this
      ensures Valid() && rows == [] && segments == old(segments) + [segment]
    {
      segments := segments + [segment];
      HoldsNothing();
      layers, seqLens, blockTokens, rows := map[], map[], None, [];
    }

    /** Take one row into the current segment. */
    method Accept(r: Row)
      requires Valid() && (rows != [] ==> !Descends(Last(rows), r))
      modifies this
      ensures Valid() && rows == old(rows) + [r] && segments == old(segments)
    {
      HoldsMore(layers, seqLens, blockTokens, rows, r);
      var tokens := if r.blockTokens.Some? then r.blockTokens.value else OrDefault(blockTokens);
      var dist := Normalize(r.dist);
      blockTokens, layers, seqLens, rows :=
        Some(tokens), Appended(layers, r.sample, dist), Appended(seqLens, r.sample, r.seqLen), rows + [r];
    }
  }

  lemma LensNonEmpty(rows: seq<Row>)
    ensures Lens(rows) == [] <==> rows == []
  {
  }

  /** The lists built from the groups of the first keys. */
  ghost predicate Gathered(samples: seq<Dist>, lens: seq<int>, groups: seq<seq<Row>>) {
    AllNonEmpty(groups) && samples == Means(groups) && lens == Minima(groups)
  }

  lemma GatherStep(samples: seq<Dist>, lens: seq<int>, groups: seq<seq<Row>>, g: seq<Row>)
    requires Gathered(samples, lens, groups) && g != []
    ensures Lens(g) != [] && Gathered(samples + [Mean(Norms(g))], lens + [Least(Lens(g))], groups + [g])
  {
    LensNonEmpty(g);
    Snoc(groups, g);
  }

  lemma LayersAt(rows: seq<Row>, s: int)
    ensures LayersOf(rows).Keys == SeqLensOf(rows).Keys == SamplesOf(rows)
    ensures s in SamplesOf(rows) ==>
      LayersOf(rows)[s] == Norms(RowsAt(rows, s)) && SeqLensOf(rows)[s] == Lens(RowsAt(rows, s))
    ensures s in SamplesOf(rows) ==> RowsAt(rows, s) != []
  {
    RowsAtAbsent(rows, s);
  }

  lemma GatherEnd(samples: seq<Dist>, lens: seq<int>, rows: seq<Row>)
    requires Whole(rows, Descends) && Gathered(samples, lens, ByKey(rows))
    ensures Segment(samples, lens, OrDefault(TokensOf(rows))) == SegmentOf(rows)
  {
    ByKeyIsRuns(rows);
  }

  lemma GroupsForNext(rows: seq<Row>, keys: seq<int>, k: nat)
    requires k < |keys|
    ensures GroupsFor(rows, keys[..k + 1]) == GroupsFor(rows, keys[..k]) + [RowsAt(rows, keys[k])]
  {
    GroupsForSnoc(rows, keys[..k], keys[k]);
    Prefix(keys, k);
  }

  lemma GatherNext(rows: seq<Row>, keys: seq<int>, k: nat, samples: seq<Dist>, lens: seq<int>)
    requires keys == SortedKeys(SamplesOf(rows)) && k < |keys|
    requires Gathered(samples, lens, GroupsFor(rows, keys[..k]))
    ensures var key := keys[k];
      && key in LayersOf(rows) && LayersOf(rows)[key] == Norms(RowsAt(rows, key))
      && key in SeqLensOf(rows) && SeqLensOf(rows)[key] == Lens(RowsAt(rows, key)) != []
      && Gathered(samples + [Mean(Norms(RowsAt(rows, key)))], lens + [Least(Lens(RowsAt(rows, key)))],
                  GroupsFor(rows, keys[..k + 1]))
  {
    SortedKeysMembers(SamplesOf(rows), keys[k]);
    LayersAt(rows, keys[k]);
    GatherStep(samples, lens, GroupsFor(rows, keys[..k]), RowsAt(rows, keys[k]));
    GroupsForNext(rows, keys, k);
  }

  /** The loop over the sorted samples inside `flush`. */
  method Gather(layers: map<int, seq<Dist>>, seqLens: map<int, seq<int>>, tokens: Option<int>, ghost rows: seq<Row>)
    returns (segment: Segment)
    requires Holds(layers, seqLens, tokens, rows)
    ensures segment == SegmentOf(rows)
  {
    LayersAt(rows, 0);
    var keys := SortedKeys(layers.Keys);
    var samples, lens := [], [];
    for k := 0 to |keys|
      invariant Gathered(samples, lens, GroupsFor(rows, keys[..k]))
    {
      var key := keys[k];
      GatherNext(rows, keys, k, samples, lens);
      var mean := MeanDist(layers[key]);
      samples := samples + [mean];
      lens := lens + [Least(seqLens[key])];
    }
    TakeAll(keys);
    GatherEnd(samples, lens, rows);
    segment := Segment(samples, lens, OrDefault(tokens));
  }

  // ------------------------------------------------------------- whole traces

  ghost function SegmentsOf(groups: seq<seq<Row>>): seq<Segment> {
    if groups == [] then [] else SegmentsOf(Front(groups)) + [SegmentOf(Last(groups))]
  }

  /** The plain description of a trace: each file is cut at the descents of its
      sample number, and each cut is averaged run by run. */
  ghost function TraceOf(files: seq<seq<Line>>): seq<Segment> {
    if files == [] then []
    else TraceOf(Front(files)) + SegmentsOf(Cut(Rows(Last(files)), Descends))
  }

  /** `closed` segments are done and the rows `open` are still being gathered. */
  ghost predicate Between(closed: seq<Segment>, open: seq<Row>, rows: seq<Row>) {
    var groups := Cut(rows, Descends);
    if groups == [] then closed == [] && open == []
    else closed == SegmentsOf(Front(groups)) && open == Last(groups)
  }

  lemma BetweenCut(closed: seq<Segment>, open: seq<Row>, rows: seq<Row>, r: Row)
    requires Between(closed, open, rows) && rows != [] && Descends(Last(rows), r)
    ensures open != [] && Between(closed + [SegmentOf(open)], [r], rows + [r])
  {
    CutStep(rows, r, Descends);
    CutGroups(rows, Descends);
    Snoc(Cut(rows, Descends), [r]);
  }

  lemma BetweenGrow(closed: seq<Segment>, open: seq<Row>, rows: seq<Row>, r: Row)
    requires Between(closed, open, rows) && (rows != [] ==> !Descends(Last(rows), r))
    ensures Between(closed, open + [r], rows + [r])
    ensures open != [] ==> !Descends(Last(open), r)
  {
    CutStep(rows, r, Descends);
    CutGroups(rows, Descends);
    if rows == [] {
      assert Cut(rows, Descends) == [];
      Snoc(Cut(rows, Descends), [r]);
    } else {
      Snoc(Front(Cut(rows, Descends)), open + [r]);
    }
  }

  lemma BetweenEnd(closed: seq<Segment>, open: seq<Row>, rows: seq<Row>)
    requires Between(closed, open, rows)
    ensures open == [] ==> SegmentsOf(Cut(rows, Descends)) == closed
    ensures open != [] ==> SegmentsOf(Cut(rows, Descends)) == closed + [SegmentOf(open)]
  {
    CutGroups(rows, Descends);
  }

  lemma RowsStep(lines: seq<Line>, i: nat)
    requires i < |lines|
    ensures Rows(lines[..i + 1]) == if lines[i].Accepted? then Rows(lines[..i]) + [lines[i].row] else Rows(lines[..i])
  {
    assert lines[..i + 1][..i] == lines[..i];
  }

  function LastSample(rows: seq<Row>): Option<int> {
    if rows == [] then None else Some(Last(rows).sample)
  }

  /** One accepted row: cut first if its sample number descends. */
  method TakeRow(reader: Reader, lastSample: Option<int>, r: Row, ghost base: seq<Segment>, ghost closed: seq<Segment>, ghost rows: seq<Row>)
    returns (ghost after: seq<Segment>)
    requires reader.Valid() && reader.segments == base + closed
    requires Between(closed, reader.rows, rows) && lastSample == LastSample(rows)
    modifies reader
    ensures reader.Valid() && reader.segments == base + after
    ensures Between(after, reader.rows, rows + [r])
  {
    after := closed;
    if lastSample != None && r.sample < lastSample.value {
      BetweenCut(closed, reader.rows, rows, r);
      Regroup(base, closed, SegmentOf(reader.rows));
      after := closed + [SegmentOf(reader.rows)];
      reader.Flush();
      assert [] + [r] == [r];
    } else {
      BetweenGrow(closed, reader.rows, rows, r);
    }
    reader.Accept(r);
  }

  method ReadFile(reader: Reader, lines: seq<Line>)
    requires reader.Valid() && reader.rows == []
    modifies reader
    ensures reader.Valid() && reader.rows == []
    ensures reader.segments == old(reader.segments) + SegmentsOf(Cut(Rows(lines), Descends))
  {
    var lastSample := None;
    ghost var base, closed, rows := reader.segments, [], [];
    for i := 0 to |lines|
      invariant reader.Valid()
      invariant reader.segments == base + closed
      invariant rows == Rows(lines[..i])
      invariant Between(closed, reader.rows, rows)
      invariant lastSample == LastSample(rows)
    {
      RowsStep(lines, i);
      if lines[i].Skipped? {
        continue;
      }
      var r := lines[i].row;
      closed := TakeRow(reader, lastSample, r, base, closed, rows);
      lastSample := Some(r.sample);
      Snoc(rows, r);
      rows := rows + [r];
    }
    TakeAll(lines);
    BetweenEnd(closed, reader.rows, rows);
    Regroup(base, closed, SegmentOf(reader.rows));
    reader.Flush();
  }

  lemma TraceStep(files: seq<seq<Line>>, i: nat)
    requires i < |files|
    ensures TraceOf(files[..i + 1]) == TraceOf(files[..i]) + SegmentsOf(Cut(Rows(files[i]), Descends))
  {
    assert files[..i + 1] == files[..i] + [files[i]];
    Snoc(files[..i], files[i]);
  }

  /** Reading a list of trace files. */
  method ReadTrace(files: seq<seq<Line>>) returns (segments: seq<Segment>)
    ensures segments == TraceOf(files)
  {
    var reader := new Reader();
    for i := 0 to |files|
      invariant reader.Valid() && reader.rows == [] && reader.segments == TraceOf(files[..i]) && fresh(reader)
    {
      TraceStep(files, i);
      reader.Flush();
      ReadFile(reader, files[i]);
    }
    assert files[..|files|] == files;
    segments := reader.segments;
  }

  // -------------------------------------------- what the segments look like

  /** Samples with their lengths, and a block size that is not zero. */
  ghost predicate WellFormed(segment: Segment) {
    segment.samples != [] && |segment.seqLens| == |segment.samples| && segment.blockTokens != 0
  }

  ghost predicate AllWellFormed(segments: seq<Segment>) {
    forall k :: 0 <= k < |segments| ==> WellFormed(segments[k])
  }

  lemma {:induction false} SummaryLengths(groups: seq<seq<Row>>)
    requires AllNonEmpty(groups)
    ensures |Means(groups)| == |Minima(groups)| == |groups|
  {
    if groups != [] {
      SummaryLengths(Front(groups));
    }
  }

  lemma {:induction false} TokensNonZero(rows: seq<Row>)
    ensures OrDefault(TokensOf(rows)) != 0
  {
  }

  lemma {:induction false} SegmentsWellFormed(groups: seq<seq<Row>>)
    requires AllNonEmpty(groups)
    ensures AllWellFormed(SegmentsOf(groups))
  {
    if groups != [] {
      SegmentsWellFormed(Front(groups));
      SegmentWellFormed(Last(groups));
    }
  }

  lemma SegmentWellFormed(rows: seq<Row>)
    requires rows != []
    ensures WellFormed(SegmentOf(rows))
  {
    CutGroups(rows, Changes);
    SummaryLengths(Cut(rows, Changes));
    TokensNonZero(rows);
  }

  /** Whatever the files hold, every segment has samples and a usable block size. */
  lemma {:induction false} TraceWellFormed(files: seq<seq<Line>>)
    ensures AllWellFormed(TraceOf(files))
  {
    if files != [] {
      TraceWellFormed(Front(files));
      CutGroups(Rows(Last(files)), Descends);
      SegmentsWellFormed(Cut(Rows(Last(files)), Descends));
    }
  }
}
