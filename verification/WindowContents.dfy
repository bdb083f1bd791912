/** What the windows of a trace hold: which samples each averages, where they start,
    and which steps they are counted to. */
module WindowContents {
  import opened Arithmetic
  import opened Wrappers
  import opened Lists
  import opened FiniteDist
  import opened Averages
  import opened Windows
  import TraceReader

  // ------------------------------------------------------------------- starts

  /** The windows of a segment of `n` samples start at the multiples of the stride
      that leave room for a window, and at the last place that does. */
  predicate StartsAt(n: int, window: int, stride: int, i: int)
    requires stride > 0
  {
    0 <= i <= n - window && (i % stride == 0 || i == n - window)
  }

  lemma {:induction false} StepsMembers(lo: int, hi: int, stride: int, i: int)
    requires stride > 0
    ensures i in Steps(lo, hi, stride) <==> lo <= i < hi && (i - lo) % stride == 0
    decreases hi - lo
  {
    if lo < hi {
      StepsMembers(lo + stride, hi, stride, i);
      OneStride(i - lo, stride);
      if i == lo {
        assert Steps(lo, hi, stride)[0] == lo;
      }
    }
  }

  lemma StartsExactly(n: int, window: int, stride: int, i: int)
    requires n > window && n > 0 && stride > 0
    ensures StartsOf(n, window, stride).Ok?
    ensures i in StartsOf(n, window, stride).value <==> StartsAt(n, window, stride, i)
  {
    StartsAre(n, window, stride);
    StepsMembers(0, n - window + 1, stride, i);
    StepsShape(0, n - window + 1, stride);
  }

  // ------------------------------------------------------------------ filtered

  /** What the filter leaves of sample `i` of a segment. */
  ghost function SampleAt(c: Config, segment: TraceReader.Segment, i: int): Dist
    requires TraceReader.WellFormed(segment)
  {
    if 0 <= i < |segment.samples| then Filter(c, segment.blockTokens, PrefillLen(segment), segment.samples[i]) else map[]
  }

  ghost function SampleValues(c: Config, segment: TraceReader.Segment): int -> int -> real
    requires TraceReader.WellFormed(segment)
  {
    b => i => Val(SampleAt(c, segment, i), b)
  }

  /** Position `i` is read by the slice `[start:end]`, where a negative end counts from
      the back. */
  predicate Reads(n: int, start: int, end: int, i: int) {
    0 <= i < n && start <= i < (if end < 0 then n + end else end)
  }

  /** The samples a window is taken from: those that it reads and that hold something. */
  ghost function Inside(c: Config, segment: TraceReader.Segment, w: Window): set<int>
    requires TraceReader.WellFormed(segment)
  {
    set i | 0 <= i < |segment.samples| && Reads(|segment.samples|, w.start, w.end, i) && SampleAt(c, segment, i) != map[]
  }

  /** The window of a kept segment is the average of its own samples. */
  ghost predicate Content(c: Config, segments: seq<TraceReader.Segment>, w: Window)
    requires TraceReader.AllWellFormed(segments)
  {
    && 0 <= w.source < |segments| && |segments[w.source].samples| >= c.minSamples
    && TraceReader.WellFormed(segments[w.source])
    && 0 <= w.start && w.end == (if |segments[w.source].samples| < w.start + c.window then |segments[w.source].samples| else w.start + c.window)
    && AveragesOf(w.dist, Inside(c, segments[w.source], w), SampleValues(c, segments[w.source]))
  }

  lemma {:induction false} AveragesSame(d: Dist, held: set<int>, v: int -> int -> real, v': int -> int -> real)
    requires AveragesOf(d, held, v) && forall b, i :: i in held ==> v(b)(i) == v'(b)(i)
    ensures AveragesOf(d, held, v')
  {
    forall b
      ensures SumOver(held, v(b)) == SumOver(held, v'(b))
    {
      SumSame(held, v(b), v'(b));
    }
  }

  lemma {:induction false} SliceHeld(dists: seq<Dist>, start: nat, end: int) returns (lo: nat, hi: nat)
    requires AllDistributions(dists)
    ensures lo <= hi <= |dists| && Slice(dists, start, end) == dists[lo..hi]
    ensures HeldIn(dists, lo, hi) == set i | 0 <= i < |dists| && Reads(|dists|, start, end, i) && dists[i] != map[]
  {
    lo, hi := Bound(|dists|, start), Bound(|dists|, end);
    if lo > hi {
      hi := lo;
    }
  }

  lemma {:induction false} FilteredDistributions(c: Config, blockTokens: int, prefillLen: int, samples: seq<Dist>)
    requires blockTokens != 0
    ensures AllDistributions(Filtered(c, blockTokens, prefillLen, samples))
  {
    forall k | 0 <= k < |samples|
      ensures Filter(c, blockTokens, prefillLen, samples[k]) == map[] || IsDistribution(Filter(c, blockTokens, prefillLen, samples[k]))
    {
      NormalizeProperties(map b | b in samples[k] && Keeps(c, blockTokens, prefillLen, b) :: samples[k][b]);
    }
  }

  lemma {:induction false} WindowAtContent(c: Config, segments: seq<TraceReader.Segment>, step: int, source: nat, start: nat)
    requires TraceReader.AllWellFormed(segments) && source < |segments| && |segments[source].samples| >= c.minSamples
    ensures TraceReader.WellFormed(segments[source])
    ensures var segment := segments[source];
            var filtered := Filtered(c, segment.blockTokens, PrefillLen(segment), segment.samples);
      Content(c, segments, WindowAt(c, step, source, filtered, start))
  {
    var segment := segments[source];
    assert TraceReader.WellFormed(segment);
    var filtered := Filtered(c, segment.blockTokens, PrefillLen(segment), segment.samples);
    var w := WindowAt(c, step, source, filtered, start);
    FilteredDistributions(c, segment.blockTokens, PrefillLen(segment), segment.samples);
    var lo, hi := SliceHeld(filtered, start, w.end);
    SliceAverages(filtered, lo, hi);
    assert HeldIn(filtered, lo, hi) == Inside(c, segment, w);
    AveragesSame(w.dist, Inside(c, segment, w), ValuesOf(filtered), SampleValues(c, segment));
  }

  lemma {:induction false} WindowsAtContent(c: Config, segments: seq<TraceReader.Segment>, step: int, source: nat, starts: seq<int>)
    requires TraceReader.AllWellFormed(segments) && source < |segments| && |segments[source].samples| >= c.minSamples
    requires TraceReader.WellFormed(segments[source])
    requires forall k :: 0 <= k < |starts| ==> starts[k] >= 0
    ensures var segment := segments[source];
            var ws := WindowsAt(c, step, source, Filtered(c, segment.blockTokens, PrefillLen(segment), segment.samples), starts);
      forall k :: 0 <= k < |ws| ==> Content(c, segments, ws[k])
  {
    if starts != [] {
      WindowsAtContent(c, segments, step, source, starts[..|starts| - 1]);
      WindowAtContent(c, segments, step, source, starts[|starts| - 1]);
      var segment := segments[source];
      var filtered := Filtered(c, segment.blockTokens, PrefillLen(segment), segment.samples);
      WindowsAtShape(c, step, source, filtered, starts[..|starts| - 1]);
    }
  }

  lemma StartsNotNegative(n: int, window: int, stride: int)
    requires StartsOf(n, window, stride).Ok?
    ensures var s := StartsOf(n, window, stride).value;
      forall k :: 0 <= k < |s| ==> s[k] >= 0
  {
    if n > 0 && n > window {
      StartsShape(n, window, stride);
    }
  }

  lemma ContentStays(c: Config, front: seq<TraceReader.Segment>, segments: seq<TraceReader.Segment>, w: Window)
    requires TraceReader.AllWellFormed(segments) && TraceReader.AllWellFormed(front) && front <= segments && Content(c, front, w)
    ensures Content(c, segments, w)
  {
    assert segments[w.source] == front[w.source];
  }

  /** Every window that is built, on any trace, averages the samples of its own
      segment between its start and its end, and nothing else. */
  lemma {:induction false} WindowAverages(c: Config, segments: seq<TraceReader.Segment>, k: nat)
    requires TraceReader.AllWellFormed(segments) && Built(c, segments).Ok? && k < |Built(c, segments).value.windows|
    ensures Content(c, segments, Built(c, segments).value.windows[k])
  {
    var n := |segments| - 1;
    var front, segment := segments[..n], segments[n];
    assert TraceReader.WellFormed(segment);
    var built := Built(c, front).value;
    if k < |built.windows| {
      WindowAverages(c, front, k);
      assert Built(c, segments).value.windows[k] == built.windows[k];
      ContentStays(c, front, segments, built.windows[k]);
    } else {
      var filtered := Filtered(c, segment.blockTokens, PrefillLen(segment), segment.samples);
      var starts := StartsOf(|filtered|, c.window, c.stride).value;
      StartsNotNegative(|filtered|, c.window, c.stride);
      WindowsAtContent(c, segments, |built.steps|, n, starts);
      assert Built(c, segments).value.windows == built.windows + WindowsAt(c, |built.steps|, n, filtered, starts);
    }
  }

  /** A window that reads one sample with anything in it is that sample. */
  lemma OneSample(c: Config, segments: seq<TraceReader.Segment>, k: nat, i: nat)
    requires TraceReader.AllWellFormed(segments) && Built(c, segments).Ok? && k < |Built(c, segments).value.windows|
    requires var w := Built(c, segments).value.windows[k];
      0 <= w.source < |segments| && TraceReader.WellFormed(segments[w.source]) && Inside(c, segments[w.source], w) == {i}
    ensures var w := Built(c, segments).value.windows[k];
      w.dist == SampleAt(c, segments[w.source], i)
  {
    var w := Built(c, segments).value.windows[k];
    var segment := segments[w.source];
    WindowAverages(c, segments, k);
    var filtered := Filtered(c, segment.blockTokens, PrefillLen(segment), segment.samples);
    FilteredDistributions(c, segment.blockTokens, PrefillLen(segment), segment.samples);
    assert i in Inside(c, segment, w);
    AveragesSame(w.dist, {i}, SampleValues(c, segment), ValuesOf(filtered));
    OneAverages(w.dist, filtered, i);
  }

  // ------------------------------------------------------------------- filters

  /** The blocks a sample keeps: from the sink on, and in the context mode only those
      that begin inside the prompt, as does the block so many recent ones further. With
      a block size below zero that second bound is turned around. */
  predicate Stays(c: Config, blockTokens: int, prefillLen: int, b: int) {
    b >= c.sinkBlocks
    && (c.mode == ContextOnly ==>
        b >= 0 && b * blockTokens < prefillLen
        && (c.recentPrefillBlocks > 0 ==>
              var start := (b + c.recentPrefillBlocks) * blockTokens;
              if blockTokens > 0 then start < prefillLen else start >= prefillLen - 1))
  }

  lemma KeepsMeans(c: Config, blockTokens: int, prefillLen: int, b: int)
    requires blockTokens != 0
    ensures Keeps(c, blockTokens, prefillLen, b) <==> Stays(c, blockTokens, prefillLen, b)
  {
    if c.mode == ContextOnly && blockTokens < 0 {
      FloorBelow(prefillLen, -blockTokens, b + c.recentPrefillBlocks);
    } else if c.mode == ContextOnly {
      ContextInterval(c, blockTokens, prefillLen, b);
      CeilingBound(b, blockTokens, prefillLen);
      CeilingBound(b + c.recentPrefillBlocks, blockTokens, prefillLen);
    }
  }

  /** Python's floor of a quotient by a number below zero. */
  lemma FloorBelow(prefillLen: int, size: int, k: int)
    requires size > 0
    ensures k < FloorDiv(prefillLen - size - 1, -size) <==> k * -size >= prefillLen - 1
  {
    var n := size + 1 - prefillLen;
    var q := n / size;
    assert q * size <= n < q * size + size;
    if k < q {
      TimesMonotone(k + 1, q, size);
      assert (k + 1) * size == k * size + size;
    } else {
      TimesMonotone(q, k, size);
    }
  }

  /** Filtering leaves nothing or a distribution; it holds exactly the positive blocks
      that stay, in their proportions. */
  lemma {:induction false} FilterHolds(c: Config, blockTokens: int, prefillLen: int, d: Dist, b: int, b': int)
    requires blockTokens != 0
    ensures var r := Filter(c, blockTokens, prefillLen, d);
      && (r == map[] || IsDistribution(r))
      && (b in r <==> b in d && d[b] > 0.0 && Stays(c, blockTokens, prefillLen, b))
      && (b in r && b' in r ==> r[b] * d[b'] == r[b'] * d[b])
  {
    var kept := map k | k in d && Keeps(c, blockTokens, prefillLen, k) :: d[k];
    var r := Filter(c, blockTokens, prefillLen, d);
    NormalizeProperties(kept);
    KeepsMeans(c, blockTokens, prefillLen, b);
    assert b in kept <==> b in d && Stays(c, blockTokens, prefillLen, b);
    if b in r && b' in r {
      NormalizeProportions(kept, b, b');
    }
  }

  // --------------------------------------------------------------------- steps

  ghost predicate KeptSegment(c: Config, segments: seq<TraceReader.Segment>, source: int) {
    0 <= source < |segments| && |segments[source].samples| >= c.minSamples
  }

  /** The last position of a prompt: one less than the least length of its samples. */
  ghost predicate IsPrefill(segment: TraceReader.Segment, prefillLen: int) {
    && (exists i :: 0 <= i < |segment.seqLens| && segment.seqLens[i] == prefillLen + 1)
    && (forall i :: 0 <= i < |segment.seqLens| ==> segment.seqLens[i] >= prefillLen + 1)
  }

  ghost function WindowsOf(windows: seq<Window>, step: int): set<int> {
    set j | 0 <= j < |windows| && windows[j].step == step
  }

  /** Step `k` records its number, its segment, the samples and the prompt of that
      segment, and how many windows are counted to it. */
  ghost predicate Recorded(segments: seq<TraceReader.Segment>, built: Build, k: nat)
    requires k < |built.steps|
  {
    var s := built.steps[k];
    && s.step == k && 0 <= s.source < |segments|
    && s.samples == |segments[s.source].samples| && IsPrefill(segments[s.source], s.prefillLen)
    && s.windowCount == |WindowsOf(built.windows, k)|
  }

  ghost function SourcesOf(steps: seq<Step>): seq<int> {
    seq(|steps|, k requires 0 <= k < |steps| => steps[k].source)
  }

  /** The steps are the kept segments, in order, each recorded as it is; a window is
      counted to the step of its segment. */
  ghost predicate Accounts(c: Config, segments: seq<TraceReader.Segment>, built: Build) {
    && (forall k :: 0 <= k < |built.steps| ==> Recorded(segments, built, k))
    && Ascends(SourcesOf(built.steps))
    && (forall source :: source in SourcesOf(built.steps) <==> KeptSegment(c, segments, source))
    && (forall j :: 0 <= j < |built.windows| ==>
          0 <= built.windows[j].step < |built.steps| && built.windows[j].source == built.steps[built.windows[j].step].source)
  }

  /** The `n` numbers from `lo` on. */
  function Interval(lo: int, n: nat): (r: set<int>)
    ensures |r| == n && forall j :: j in r <==> lo <= j < lo + n
  {
    if n == 0 then {} else Interval(lo, n - 1) + {lo + n - 1}
  }

  lemma LeastIsPrefill(segment: TraceReader.Segment)
    requires segment.seqLens != []
    ensures IsPrefill(segment, PrefillLen(segment))
  {
  }

  /** Where a segment of `n` samples has its windows. */
  predicate StartPlace(c: Config, n: int, i: int) {
    if n > c.window then c.stride > 0 && StartsAt(n, c.window, c.stride, i) else i == 0
  }

  /** The windows of step `k` begin exactly at the places of its segment. */
  ghost predicate Placed(c: Config, built: Build, k: nat)
    requires k < |built.steps|
  {
    forall i :: StartPlace(c, built.steps[k].samples, i) <==> exists j :: j in WindowsOf(built.windows, k) && built.windows[j].start == i
  }

  lemma {:induction false} StartPlaces(c: Config, n: int, i: int)
    requires n > 0 && StartsOf(n, c.window, c.stride).Ok?
    ensures i in StartsOf(n, c.window, c.stride).value <==> StartPlace(c, n, i)
  {
    if n > c.window {
      StartsExactly(n, c.window, c.stride, i);
    }
  }

  ghost predicate OneMore(front: seq<TraceReader.Segment>, segments: seq<TraceReader.Segment>) {
    |segments| == |front| + 1 && front == segments[..|front|]
  }

  /** One kept segment added. */
  ghost predicate Adds(built: Build, after: Build, s: Step, more: seq<Window>) {
    && after == Build(built.steps + [s], built.windows + more)
    && s.step == |built.steps| && s.windowCount == |more|
    && forall k :: 0 <= k < |more| ==> more[k].step == s.step && more[k].source == s.source
  }

  lemma {:induction false} OldWindows(windows: seq<Window>, more: seq<Window>, k: int)
    requires forall j :: 0 <= j < |more| ==> more[j].step != k
    ensures WindowsOf(windows + more, k) == WindowsOf(windows, k)
    ensures forall j :: j in WindowsOf(windows, k) ==> (windows + more)[j] == windows[j]
  {
    var all := windows + more;
    forall j
      ensures j in WindowsOf(all, k) <==> j in WindowsOf(windows, k)
    {
      assert |windows| <= j < |all| ==> all[j] == more[j - |windows|];
    }
  }

  lemma {:induction false} NewWindows(windows: seq<Window>, more: seq<Window>, step: int)
    requires forall j :: 0 <= j < |windows| ==> windows[j].step < step
    requires forall j :: 0 <= j < |more| ==> more[j].step == step
    ensures WindowsOf(windows + more, step) == Interval(|windows|, |more|)
    ensures |WindowsOf(windows + more, step)| == |more|
  {
    var all := windows + more;
    forall j
      ensures j in WindowsOf(all, step) <==> |windows| <= j < |windows| + |more|
    {
      assert 0 <= j < |windows| ==> all[j] == windows[j];
      assert |windows| <= j < |all| ==> all[j] == more[j - |windows|];
    }
  }

  lemma {:induction false} AddsRecorded(c: Config, front: seq<TraceReader.Segment>, segments: seq<TraceReader.Segment>, built: Build, after: Build,
                     s: Step, more: seq<Window>)
    requires Accounts(c, front, built) && Adds(built, after, s, more)
    requires front <= segments && s.source == |front| < |segments| && s.samples == |segments[s.source].samples|
    requires IsPrefill(segments[s.source], s.prefillLen)
    ensures forall k :: 0 <= k < |after.steps| ==> Recorded(segments, after, k)
  {
    forall k: nat | k < |after.steps|
      ensures Recorded(segments, after, k)
    {
      if k < |built.steps| {
        assert Recorded(front, built, k);
        assert after.steps[k] == built.steps[k];
        OldWindows(built.windows, more, k);
        assert segments[built.steps[k].source] == front[built.steps[k].source];
      } else {
        NewWindows(built.windows, more, s.step);
      }
    }
  }

  lemma {:induction false} AddsSources(c: Config, front: seq<TraceReader.Segment>, segments: seq<TraceReader.Segment>, built: Build, after: Build,
                    s: Step, more: seq<Window>)
    requires Accounts(c, front, built) && Adds(built, after, s, more)
    requires OneMore(front, segments) && s.source == |front| && KeptSegment(c, segments, s.source)
    ensures Ascends(SourcesOf(after.steps))
    ensures forall source :: source in SourcesOf(after.steps) <==> KeptSegment(c, segments, source)
  {
    var old_ := SourcesOf(built.steps);
    assert SourcesOf(after.steps) == old_ + [s.source];
    forall k | 0 <= k < |old_|
      ensures old_[k] < |front|
    {
      assert old_[k] in old_;
      assert KeptSegment(c, front, old_[k]);
    }
    forall source
      ensures KeptSegment(c, segments, source) <==> KeptSegment(c, front, source) || source == |front|
    {
      assert 0 <= source < |front| ==> segments[source] == front[source];
    }
  }

  lemma {:induction false} AddsWindows(c: Config, front: seq<TraceReader.Segment>, built: Build, after: Build, s: Step, more: seq<Window>)
    requires Accounts(c, front, built) && Adds(built, after, s, more)
    ensures forall j :: 0 <= j < |after.windows| ==>
      0 <= after.windows[j].step < |after.steps| && after.windows[j].source == after.steps[after.windows[j].step].source
  {
    forall j | 0 <= j < |after.windows|
      ensures 0 <= after.windows[j].step < |after.steps| && after.windows[j].source == after.steps[after.windows[j].step].source
    {
      if j < |built.windows| {
        assert after.windows[j] == built.windows[j];
      } else {
        assert after.windows[j] == more[j - |built.windows|];
      }
    }
  }

  lemma {:induction false} AddsPlaced(c: Config, front: seq<TraceReader.Segment>, built: Build, after: Build, s: Step, more: seq<Window>, starts: seq<int>)
    requires Accounts(c, front, built) && Adds(built, after, s, more) && |more| == |starts|
    requires forall k :: 0 <= k < |built.steps| ==> Placed(c, built, k)
    requires forall k :: 0 <= k < |more| ==> more[k].start == starts[k]
    requires forall i :: i in starts <==> StartPlace(c, s.samples, i)
    ensures forall k :: 0 <= k < |after.steps| ==> Placed(c, after, k)
  {
    forall k: nat | k < |after.steps|
      ensures Placed(c, after, k)
    {
      if k < |built.steps| {
        assert Placed(c, built, k);
        OldWindows(built.windows, more, k);
        assert after.steps[k] == built.steps[k];
      } else {
        NewWindows(built.windows, more, s.step);
        forall i
          ensures i in starts <==> exists j :: j in WindowsOf(after.windows, k) && after.windows[j].start == i
        {
          StartsSeen(built.windows, more, starts, s.step, i);
        }
      }
    }
  }

  lemma {:induction false} StartsSeen(windows: seq<Window>, more: seq<Window>, starts: seq<int>, step: int, i: int)
    requires |more| == |starts| && forall k :: 0 <= k < |more| ==> more[k].start == starts[k]
    requires WindowsOf(windows + more, step) == Interval(|windows|, |more|)
    ensures i in starts <==> exists j :: j in WindowsOf(windows + more, step) && (windows + more)[j].start == i
  {
    var all := windows + more;
    if i in starts {
      var k :| 0 <= k < |starts| && starts[k] == i;
      assert all[|windows| + k] == more[k];
      assert |windows| + k in WindowsOf(all, step);
    }
    if j :| j in WindowsOf(all, step) && all[j].start == i {
      assert all[j] == more[j - |windows|];
    }
  }

  lemma {:induction false} WindowsAtPlaces(c: Config, step: int, source: int, filtered: seq<Dist>, starts: seq<int>)
    ensures var ws := WindowsAt(c, step, source, filtered, starts);
      |ws| == |starts| && forall k :: 0 <= k < |ws| ==> ws[k].step == step && ws[k].source == source && ws[k].start == starts[k]
  {
    if starts != [] {
      WindowsAtPlaces(c, step, source, filtered, starts[..|starts| - 1]);
    }
  }

  /** The books are right for every trace that builds: the steps are exactly the kept
      segments in order, each with its own numbers, its windows begin exactly where
      its stride and window put them, and every window is counted to its segment. */
  lemma {:induction false} StepsAccount(c: Config, segments: seq<TraceReader.Segment>)
    requires TraceReader.AllWellFormed(segments) && Built(c, segments).Ok?
    ensures Accounts(c, segments, Built(c, segments).value)
    ensures forall k :: 0 <= k < |Built(c, segments).value.steps| ==> Placed(c, Built(c, segments).value, k)
  {
    if segments != [] {
      var n := |segments| - 1;
      var front, segment := segments[..n], segments[n];
      assert TraceReader.WellFormed(segment);
      StepsAccount(c, front);
      var built := Built(c, front).value;
      if |segment.samples| < c.minSamples {
        SkippedAccounts(c, front, segments, built);
      } else {
        var filtered := Filtered(c, segment.blockTokens, PrefillLen(segment), segment.samples);
        var starts := StartsOf(|filtered|, c.window, c.stride).value;
        var more := WindowsAt(c, |built.steps|, n, filtered, starts);
        var s := Step(|built.steps|, n, |filtered|, PrefillLen(segment), |starts|);
        WindowsAtPlaces(c, |built.steps|, n, filtered, starts);
        LeastIsPrefill(segment);
        AddsAccount(c, front, segments, built, Built(c, segments).value, s, more, starts);
      }
    }
  }

  lemma {:induction false} AddsAccount(c: Config, front: seq<TraceReader.Segment>, segments: seq<TraceReader.Segment>, built: Build, after: Build,
                    s: Step, more: seq<Window>, starts: seq<int>)
    requires Accounts(c, front, built) && Adds(built, after, s, more) && |more| == |starts|
    requires forall k :: 0 <= k < |built.steps| ==> Placed(c, built, k)
    requires OneMore(front, segments) && s.source == |front| && KeptSegment(c, segments, s.source)
    requires s.samples == |segments[s.source].samples| > 0 && IsPrefill(segments[s.source], s.prefillLen)
    requires StartsOf(s.samples, c.window, c.stride) == Ok(starts) && forall k :: 0 <= k < |more| ==> more[k].start == starts[k]
    ensures Accounts(c, segments, after)
    ensures forall k :: 0 <= k < |after.steps| ==> Placed(c, after, k)
  {
    forall i
      ensures i in starts <==> StartPlace(c, s.samples, i)
    {
      StartPlaces(c, s.samples, i);
    }
    AddsRecorded(c, front, segments, built, after, s, more);
    AddsSources(c, front, segments, built, after, s, more);
    AddsWindows(c, front, built, after, s, more);
    AddsPlaced(c, front, built, after, s, more, starts);
  }

  lemma {:induction false} SkippedAccounts(c: Config, front: seq<TraceReader.Segment>, segments: seq<TraceReader.Segment>, built: Build)
    requires Accounts(c, front, built) && OneMore(front, segments)
    requires |segments[|front|].samples| < c.minSamples
    ensures Accounts(c, segments, built)
  {
    forall k: nat | k < |built.steps|
      ensures Recorded(segments, built, k)
    {
      assert Recorded(front, built, k);
      assert segments[built.steps[k].source] == front[built.steps[k].source];
    }
    forall source
      ensures KeptSegment(c, segments, source) <==> KeptSegment(c, front, source)
    {
      assert 0 <= source < |front| ==> segments[source] == front[source];
    }
  }
}
