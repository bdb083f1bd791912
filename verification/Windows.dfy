/** Sliding windows over the segments of a trace, and the steps they belong to. */
module Windows {
  import opened Arithmetic
  import opened Wrappers
  import opened Lists
  import opened FiniteDist
  import Divergence
  import TraceReader
  import StepLabels

  datatype Error = ZeroStride | NoStarts

  // ------------------------------------------------------------- window starts

  /** Python's `range(lo, hi, stride)` for a positive stride. */
  function Steps(lo: int, hi: int, stride: int): seq<int>
    requires stride > 0
    decreases hi - lo
  {
    if lo >= hi then [] else [lo] + Steps(lo + stride, hi, stride)
  }

  function WithLast(starts: seq<int>, last: int): seq<int>
    requires starts != []
  {
    if starts[|starts| - 1] != last then starts + [last] else starts
  }

  function StartsOf(n: int, window: int, stride: int): Result<seq<int>, Error> {
    if n <= 0 then Ok([])
    else if n <= window then Ok([0])
    else if stride == 0 then Err(ZeroStride)
    else if stride < 0 then Err(NoStarts)
    else Ok(WithLast(Steps(0, n - window + 1, stride), n - window))
  }

  method WindowStarts(n: int, window: int, stride: int) returns (r: Result<seq<int>, Error>)
    ensures r == StartsOf(n, window, stride)
  {
    if n <= 0 {
      return Ok([]);
    }
    if n <= window {
      return Ok([0]);
    }
    if stride == 0 {
      return Err(ZeroStride);
    }
    var starts := if stride < 0 then [] else Steps(0, n - window + 1, stride);
    if starts == [] {
      return Err(NoStarts);
    }
    var last := n - window;
    if starts[|starts| - 1] != last {
      starts := starts + [last];
    }
    return Ok(starts);
  }

  /** Neighbours are at most `gap` apart. */
  ghost predicate Gaps(s: seq<int>, gap: int) {
    forall j, k :: 0 <= j < k < |s| && k == j + 1 ==> s[k] - s[j] <= gap
  }

  lemma {:induction false} StepsShape(lo: int, hi: int, stride: int)
    requires stride > 0 && lo < hi
    ensures var s := Steps(lo, hi, stride);
      && s != [] && s[0] == lo && Ascends(s) && Gaps(s, stride)
      && s[|s| - 1] < hi <= s[|s| - 1] + stride
      && (|s| > 1 ==> s[1] == lo + stride)
    decreases hi - lo
  {
    if lo + stride < hi {
      StepsShape(lo + stride, hi, stride);
      var rest := Steps(lo + stride, hi, stride);
      forall k | 0 <= k < |rest|
        ensures rest[k] >= lo + stride
      {
        assert k > 0 ==> rest[0] < rest[k];
      }
    }
  }

  /** Strictly increasing from `first` to `last`, by at most `gap` at a time. */
  ghost predicate Spans(s: seq<int>, first: int, last: int, gap: int) {
    && s != [] && s[0] == first && s[|s| - 1] == last && Ascends(s) && Gaps(s, gap)
    && (forall k :: 0 <= k < |s| ==> first <= s[k] <= last)
  }

  lemma AddLast(steps: seq<int>, last: int, stride: int)
    requires steps != [] && Ascends(steps) && Gaps(steps, stride)
    requires steps[|steps| - 1] <= last <= steps[|steps| - 1] + stride
    ensures Spans(WithLast(steps, last), steps[0], last, stride)
  {
    if steps[|steps| - 1] != last {
      AscendsSnoc(steps, last);
      GapsSnoc(steps, last, stride);
    }
    InBounds(WithLast(steps, last));
  }

  lemma AscendsSnoc(s: seq<int>, x: int)
    requires s != [] && Ascends(s) && s[|s| - 1] < x
    ensures Ascends(s + [x])
  {
    forall j | 0 <= j < |s|
      ensures s[j] < x
    {
      assert j < |s| - 1 ==> s[j] < s[|s| - 1];
    }
  }

  lemma GapsSnoc(s: seq<int>, x: int, gap: int)
    requires s != [] && Gaps(s, gap) && x - s[|s| - 1] <= gap
    ensures Gaps(s + [x], gap)
  {
    var all := s + [x];
    forall j, k | 0 <= j < k < |all| && k == j + 1
      ensures all[k] - all[j] <= gap
    {
      assert all[j] == s[j] && (k < |s| ==> all[k] == s[k]);
    }
  }

  /** The starts strictly increase from 0, stay in range and end at `n - window`. */
  lemma StartsShape(n: int, window: int, stride: int)
    requires n > window && n > 0 && stride > 0
    ensures StartsOf(n, window, stride).Ok?
    ensures Spans(StartsOf(n, window, stride).value, 0, n - window, stride)
  {
    StartsAre(n, window, stride);
    StepsThenLast(n - window, stride);
  }

  lemma StartsAre(n: int, window: int, stride: int)
    requires n > window && n > 0 && stride > 0
    ensures StartsOf(n, window, stride) == Ok(WithLast(Steps(0, n - window + 1, stride), n - window))
  {
  }

  lemma StepsThenLast(last: int, stride: int)
    requires last >= 0 && stride > 0
    ensures Steps(0, last + 1, stride) != [] && Spans(WithLast(Steps(0, last + 1, stride), last), 0, last, stride)
  {
    StepsShape(0, last + 1, stride);
    AddLast(Steps(0, last + 1, stride), last, stride);
  }

  lemma InBounds(s: seq<int>)
    requires s != [] && Ascends(s)
    ensures forall k :: 0 <= k < |s| ==> s[0] <= s[k] <= s[|s| - 1]
  {
    forall k | 0 <= k < |s|
      ensures s[0] <= s[k] <= s[|s| - 1]
    {
      assert k > 0 ==> s[0] < s[k];
      assert k < |s| - 1 ==> s[k] < s[|s| - 1];
    }
  }

  lemma SecondStart(n: int, window: int, stride: int)
    requires n > window > 0 && stride > 0
    ensures var s := StartsOf(n, window, stride).value;
      |s| > 1 && (s[1] == stride || s[1] == n - window)
  {
    StepsShape(0, n - window + 1, stride);
  }

  ghost predicate InWindow(n: int, window: int, start: int, i: int) {
    start <= i < (if n < start + window then n else start + window)
  }

  ghost predicate Covered(starts: seq<int>, n: int, window: int, i: int) {
    exists k :: 0 <= k < |starts| && InWindow(n, window, starts[k], i)
  }

  lemma {:induction false} LastStartBefore(s: seq<int>, i: int, m: nat) returns (k: nat)
    requires 0 < m <= |s| && s[0] <= i
    requires m < |s| ==> i < s[m]
    ensures k < m && s[k] <= i && (k + 1 < |s| ==> i < s[k + 1])
  {
    if s[m - 1] <= i {
      k := m - 1;
    } else {
      k := LastStartBefore(s, i, m - 1);
    }
  }

  /** The windows cover every sample exactly when there is none, the stride does not
      exceed the window, or two windows are long enough for the whole segment. */
  lemma CoversAll(n: int, window: int, stride: int)
    requires stride > 0
    ensures StartsOf(n, window, stride).Ok?
    ensures (forall i :: 0 <= i < n ==> Covered(StartsOf(n, window, stride).value, n, window, i))
            <==> n <= 0 || stride <= window || n <= 2 * window
  {
    if n <= 0 {
    } else if window <= 0 {
      StartsShape(n, window, stride);
      assert !Covered(StartsOf(n, window, stride).value, n, window, 0);
    } else if n > window {
      StartsShape(n, window, stride);
      SecondStart(n, window, stride);
      var s := StartsOf(n, window, stride).value;
      if stride <= window || n <= 2 * window {
        forall i | 0 <= i < n
          ensures Covered(s, n, window, i)
        {
          CoveredAt(s, n, window, stride, i);
        }
      } else {
        LeftOut(s, n, window);
      }
    } else {
      var s := StartsOf(n, window, stride).value;
      forall i | 0 <= i < n
        ensures Covered(s, n, window, i)
      {
        assert InWindow(n, window, s[0], i);
      }
    }
  }

  lemma CoveredAt(s: seq<int>, n: int, window: int, stride: int, i: int)
    requires |s| > 1 && s[0] == 0 && s[|s| - 1] == n - window && Gaps(s, stride) && 0 <= i < n
    requires window > 0 && (stride <= window || n <= 2 * window)
    ensures Covered(s, n, window, i)
  {
    if stride <= window {
      var k := LastStartBefore(s, i, |s|);
      assert InWindow(n, window, s[k], i);
    } else if i < window {
      assert InWindow(n, window, s[0], i);
    } else {
      assert InWindow(n, window, s[|s| - 1], i);
    }
  }

  lemma LeftOut(s: seq<int>, n: int, window: int)
    requires |s| > 1 && s[0] == 0 && Ascends(s) && s[1] > window > 0 && n > window
    ensures 0 <= window < n && !Covered(s, n, window, window)
  {
    forall k | 0 <= k < |s|
      ensures !InWindow(n, window, s[k], window)
    {
      assert k > 1 ==> s[1] < s[k];
    }
  }

  // ------------------------------------------------------------------- filters

  datatype Mode = FullDecode | ContextOnly

  datatype Config = Config(window: int, stride: int, minSamples: int, mode: Mode, sinkBlocks: int, recentPrefillBlocks: int)

  /** Python's `//`. */
  function FloorDiv(a: int, b: int): int
    requires b != 0
  {
    if b > 0 then a / b else (-a) / (-b)
  }

  function PrefillBlocks(prefillLen: int, blockTokens: int): int
    requires blockTokens != 0
  {
    Max(0, FloorDiv(prefillLen + blockTokens - 1, blockTokens))
  }

  predicate KeepsContext(c: Config, blockTokens: int, prefillLen: int, block: int)
    requires blockTokens != 0
  {
    var recentCut := Max(c.sinkBlocks, PrefillBlocks(prefillLen, blockTokens) - c.recentPrefillBlocks);
    && !(block < c.sinkBlocks)
    && !(block < 0)
    && !(block * blockTokens >= prefillLen)
    && !(c.recentPrefillBlocks > 0 && block >= recentCut)
  }

  predicate KeepsVisible(c: Config, block: int) {
    block >= c.sinkBlocks
  }

  predicate Keeps(c: Config, blockTokens: int, prefillLen: int, block: int)
    requires blockTokens != 0
  {
    match c.mode
    case FullDecode => KeepsVisible(c, block)
    case ContextOnly => KeepsContext(c, blockTokens, prefillLen, block)
  }

  function Filter(c: Config, blockTokens: int, prefillLen: int, d: Dist): Dist
    requires blockTokens != 0
  {
    Normalize(map b | b in d && Keeps(c, blockTokens, prefillLen, b) :: d[b])
  }

  lemma CeilingBound(block: int, blockTokens: int, prefillLen: int)
    requires blockTokens > 0
    ensures block * blockTokens < prefillLen <==> block < (prefillLen + blockTokens - 1) / blockTokens
  {
    var q := (prefillLen + blockTokens - 1) / blockTokens;
    assert q * blockTokens <= prefillLen + blockTokens - 1 < q * blockTokens + blockTokens;
    if block < q {
      TimesMonotone(block, q - 1, blockTokens);
      assert (q - 1) * blockTokens == q * blockTokens - blockTokens;
    } else {
      TimesMonotone(q, block, blockTokens);
    }
  }

  /** The context filter keeps one interval of block ids: those after the sink
      that start inside the prompt, without its most recent blocks. */
  lemma ContextInterval(c: Config, blockTokens: int, prefillLen: int, block: int)
    requires blockTokens > 0
    ensures KeepsContext(c, blockTokens, prefillLen, block)
        <==> Max(0, c.sinkBlocks) <= block < PrefillBlocks(prefillLen, blockTokens) - Max(0, c.recentPrefillBlocks)
  {
    CeilingBound(block, blockTokens, prefillLen);
  }

  // ------------------------------------------------------------------- windows

  datatype Window = Window(step: int, source: int, start: int, end: int, dist: Dist)

  datatype Step = Step(step: int, source: int, samples: int, prefillLen: int, windowCount: int)

  datatype Build = Build(steps: seq<Step>, windows: seq<Window>)

  /** A slice bound as Python reads it: negative counts from the end. */
  function Bound(n: int, i: int): (b: int)
    requires n >= 0
    ensures 0 <= b <= n
  {
    if i < 0 then Max(0, n + i) else if n < i then n else i
  }

  function Slice<T>(s: seq<T>, a: int, b: int): seq<T> {
    var lo, hi := Bound(|s|, a), Bound(|s|, b);
    if lo <= hi then s[lo..hi] else []
  }

  function Filtered(c: Config, blockTokens: int, prefillLen: int, samples: seq<Dist>): (r: seq<Dist>)
    requires blockTokens != 0
    ensures |r| == |samples|
  {
    seq(|samples|, k requires 0 <= k < |samples| => Filter(c, blockTokens, prefillLen, samples[k]))
  }

  function WindowAt(c: Config, step: int, source: int, filtered: seq<Dist>, start: int): Window {
    var end := if |filtered| < start + c.window then |filtered| else start + c.window;
    Window(step, source, start, end, Mean(Slice(filtered, start, end)))
  }

  function WindowsAt(c: Config, step: int, source: int, filtered: seq<Dist>, starts: seq<int>): seq<Window> {
    if starts == [] then []
    else
      WindowsAt(c, step, source, filtered, starts[..|starts| - 1])
      + [WindowAt(c, step, source, filtered, starts[|starts| - 1])]
  }

  function PrefillLen(segment: TraceReader.Segment): int
    requires segment.seqLens != []
  {
    TraceReader.Least(segment.seqLens) - 1
  }

  function AddSegment(c: Config, source: int, segment: TraceReader.Segment, built: Build): Result<Build, Error>
    requires segment.seqLens != [] && segment.blockTokens != 0
  {
    if |segment.samples| < c.minSamples then Ok(built)
    else
      var prefillLen := PrefillLen(segment);
      var filtered := Filtered(c, segment.blockTokens, prefillLen, segment.samples);
      match StartsOf(|filtered|, c.window, c.stride)
      case Err(e) => Err(e)
      case Ok(starts) =>
        var step := |built.steps|;
        Ok(Build(
          built.steps + [Step(step, source, |filtered|, prefillLen, |starts|)],
          built.windows + WindowsAt(c, step, source, filtered, starts)))
  }

  ghost function Built(c: Config, segments: seq<TraceReader.Segment>): Result<Build, Error>
    requires TraceReader.AllWellFormed(segments)
  {
    if segments == [] then Ok(Build([], []))
    else
      assert TraceReader.WellFormed(segments[|segments| - 1]);
      match Built(c, segments[..|segments| - 1])
      case Err(e) => Err(e)
      case Ok(built) => AddSegment(c, |segments| - 1, segments[|segments| - 1], built)
  }

  lemma {:induction false} ErrorStays(c: Config, segments: seq<TraceReader.Segment>, i: nat)
    requires TraceReader.AllWellFormed(segments) && i <= |segments| && Built(c, segments[..i]).Err?
    ensures Built(c, segments) == Built(c, segments[..i])
  {
    var n := |segments|;
    if i < n {
      assert segments[..n - 1][..i] == segments[..i];
      ErrorStays(c, segments[..n - 1], i);
    } else {
      assert segments[..i] == segments;
    }
  }

  lemma BuiltStep(c: Config, segments: seq<TraceReader.Segment>, i: nat)
    requires TraceReader.AllWellFormed(segments) && i < |segments| && Built(c, segments[..i]).Ok?
    ensures TraceReader.WellFormed(segments[i])
    ensures Built(c, segments[..i + 1]) == AddSegment(c, i, segments[i], Built(c, segments[..i]).value)
  {
    assert segments[..i + 1][..i] == segments[..i];
  }

  method BuildWindows(c: Config, segments: seq<TraceReader.Segment>) returns (r: Result<Build, Error>)
    requires TraceReader.AllWellFormed(segments)
    ensures r == Built(c, segments)
  {
    var built := Build([], []);
    for i := 0 to |segments|
      invariant Built(c, segments[..i]) == Ok(built)
    {
      BuiltStep(c, segments, i);
      var segment := segments[i];
      if |segment.samples| < c.minSamples {
        continue;
      }
      var prefillLen := PrefillLen(segment);
      var filtered := Filtered(c, segment.blockTokens, prefillLen, segment.samples);
      var starts := WindowStarts(|filtered|, c.window, c.stride);
      if starts.Err? {
        ErrorStays(c, segments, i + 1);
        return Err(starts.error);
      }
      var step := |built.steps|;
      var windows := CutWindows(c, step, i, filtered, starts.value, built.windows);
      built := Build(built.steps + [Step(step, i, |filtered|, prefillLen, |starts.value|)], windows);
    }
    assert segments[..|segments|] == segments;
    r := Ok(built);
  }

  lemma WindowsStep(c: Config, step: int, source: int, filtered: seq<Dist>, starts: seq<int>, k: nat)
    requires k < |starts|
    ensures WindowsAt(c, step, source, filtered, starts[..k + 1])
         == WindowsAt(c, step, source, filtered, starts[..k]) + [WindowAt(c, step, source, filtered, starts[k])]
  {
    assert starts[..k + 1][..k] == starts[..k];
  }

  /** The loop over the starts of one segment. */
  method CutWindows(c: Config, step: int, source: int, filtered: seq<Dist>, starts: seq<int>, before: seq<Window>)
    returns (windows: seq<Window>)
    ensures windows == before + WindowsAt(c, step, source, filtered, starts)
  {
    windows := before;
    for k := 0 to |starts|
      invariant windows == before + WindowsAt(c, step, source, filtered, starts[..k])
    {
      var start := starts[k];
      var end := if |filtered| < start + c.window then |filtered| else start + c.window;
      var dist := MeanDist(Slice(filtered, start, end));
      WindowsStep(c, step, source, filtered, starts, k);
      Regroup(before, WindowsAt(c, step, source, filtered, starts[..k]), WindowAt(c, step, source, filtered, start));
      windows := windows + [Window(step, source, start, end, dist)];
    }
    TakeAll(starts);
  }

  predicate Fails(c: Config, segment: TraceReader.Segment) {
    |segment.samples| >= c.minSamples && |segment.samples| > c.window && c.stride <= 0
  }

  /** Building fails exactly when some kept segment is longer than a window and the
      stride is not positive. */
  lemma {:induction false} BuiltFails(c: Config, segments: seq<TraceReader.Segment>)
    requires TraceReader.AllWellFormed(segments)
    ensures Built(c, segments).Err? <==> exists k :: 0 <= k < |segments| && Fails(c, segments[k])
  {
    if segments != [] {
      var n := |segments| - 1;
      BuiltFails(c, segments[..n]);
      assert forall k :: 0 <= k < n ==> segments[..n][k] == segments[k];
      if Built(c, segments[..n]).Ok? {
        AddFails(c, n, segments[n], Built(c, segments[..n]).value);
      } else {
        var k :| 0 <= k < n && Fails(c, segments[..n][k]);
        assert Fails(c, segments[k]);
      }
    }
  }

  lemma AddFails(c: Config, source: int, segment: TraceReader.Segment, built: Build)
    requires TraceReader.WellFormed(segment)
    ensures AddSegment(c, source, segment, built).Err? <==> Fails(c, segment)
  {
  }

  // ------------------------------------------------- windows and their steps

  /** Step numbers start at 0 and never skip one. */
  ghost predicate Climbs(windows: seq<Window>) {
    && (windows != [] ==> windows[0].step == 0)
    && (forall j, k :: 0 <= j < k < |windows| && k == j + 1 ==> windows[k].step == windows[j].step || windows[k].step == windows[j].step + 1)
  }

  ghost predicate EndsAt(windows: seq<Window>, last: int) {
    if windows == [] then last == -1 else windows[|windows| - 1].step == last
  }

  lemma {:induction false} WindowsAtShape(c: Config, step: int, source: int, filtered: seq<Dist>, starts: seq<int>)
    ensures var w := WindowsAt(c, step, source, filtered, starts);
      |w| == |starts| && (forall k :: 0 <= k < |w| ==> w[k].step == step)
  {
    if starts != [] {
      WindowsAtShape(c, step, source, filtered, starts[..|starts| - 1]);
    }
  }

  lemma {:induction false} ClimbsFurther(windows: seq<Window>, more: seq<Window>, step: nat)
    requires Climbs(windows) && EndsAt(windows, step - 1) && more != []
    requires forall k :: 0 <= k < |more| ==> more[k].step == step
    ensures Climbs(windows + more) && EndsAt(windows + more, step)
  {
    var all, n := windows + more, |windows|;
    forall j, k | 0 <= j < k < |all| && k == j + 1
      ensures all[k].step == all[j].step || all[k].step == all[j].step + 1
    {
      assert j >= n ==> all[j] == more[j - n];
      assert k >= n ==> all[k] == more[k - n];
    }
  }

  lemma SomeStart(n: int, window: int, stride: int)
    requires n > 0 && StartsOf(n, window, stride).Ok?
    ensures StartsOf(n, window, stride).value != []
  {
  }

  /** Every kept step has a window, so the steps of the windows climb by one. */
  lemma {:induction false} BuiltClimbs(c: Config, segments: seq<TraceReader.Segment>)
    requires TraceReader.AllWellFormed(segments) && Built(c, segments).Ok?
    ensures Climbs(Built(c, segments).value.windows)
    ensures EndsAt(Built(c, segments).value.windows, |Built(c, segments).value.steps| - 1)
  {
    if segments != [] {
      var n := |segments| - 1;
      BuiltClimbs(c, segments[..n]);
      AddClimbs(c, n, segments[n], Built(c, segments[..n]).value);
    }
  }

  lemma AddClimbs(c: Config, source: int, segment: TraceReader.Segment, built: Build)
    requires TraceReader.WellFormed(segment) && AddSegment(c, source, segment, built).Ok?
    requires Climbs(built.windows) && EndsAt(built.windows, |built.steps| - 1)
    ensures var after := AddSegment(c, source, segment, built).value;
      Climbs(after.windows) && EndsAt(after.windows, |after.steps| - 1)
  {
    if |segment.samples| >= c.minSamples {
      var filtered := Filtered(c, segment.blockTokens, PrefillLen(segment), segment.samples);
      var starts := StartsOf(|filtered|, c.window, c.stride).value;
      SomeStart(|filtered|, c.window, c.stride);
      WindowsAtShape(c, |built.steps|, source, filtered, starts);
      ClimbsFurther(built.windows, WindowsAt(c, |built.steps|, source, filtered, starts), |built.steps|);
    }
  }

  /** Transition `i` leads from window `i` to the next; a boundary changes step. */
  function BoundaryFlags(windows: seq<Window>): seq<bool> {
    if |windows| < 2 then []
    else seq(|windows| - 1, i requires 0 <= i < |windows| - 1 => windows[i].step != windows[i + 1].step)
  }

  lemma {:induction false} StepCountsBoundaries(windows: seq<Window>, i: nat)
    requires Climbs(windows) && i < |windows|
    ensures i <= |BoundaryFlags(windows)|
    ensures windows[i].step == |StepLabels.Boundaries(BoundaryFlags(windows)[..i])|
  {
    if i > 0 {
      StepCountsBoundaries(windows, i - 1);
      var flags := BoundaryFlags(windows);
      assert flags[..i][..i - 1] == flags[..i - 1];
    }
  }

  /** The boundaries before `i` are the first boundaries of all. */
  lemma {:induction false} BoundariesSplit(flags: seq<bool>, i: nat)
    requires i <= |flags|
    ensures var bs, m := StepLabels.Boundaries(flags), |StepLabels.Boundaries(flags[..i])|;
      && m <= |bs|
      && (forall k :: 0 <= k < m ==> bs[k] < i)
      && (forall k :: m <= k < |bs| ==> bs[k] >= i)
  {
    var n := |flags|;
    if i < n {
      assert flags[..n - 1][..i] == flags[..i];
      BoundariesSplit(flags[..n - 1], i);
    } else {
      assert flags[..i] == flags;
      StepLabels.BoundariesProperties(flags);
    }
  }

  /** The range drawn as step `k` holds exactly the transitions between two windows
      of step `k`. */
  lemma RangeNamesStep(windows: seq<Window>, k: nat, i: int)
    requires Climbs(windows)
    requires k < |StepLabels.RangesOf(StepLabels.Boundaries(BoundaryFlags(windows)), |BoundaryFlags(windows)|)|
    ensures var r := StepLabels.RangesOf(StepLabels.Boundaries(BoundaryFlags(windows)), |BoundaryFlags(windows)|)[k];
      && r.step == k
      && (StepLabels.InRange(r, i)
          <==> 0 <= i < |windows| - 1 && windows[i].step == k && windows[i + 1].step == k)
  {
    var flags := BoundaryFlags(windows);
    RangeInside(flags, k, i);
    if 0 <= i < |flags| {
      StepCountsBoundaries(windows, i);
      RangeAround(flags, k, i, windows[i].step);
    }
  }

  lemma RangeInside(flags: seq<bool>, k: nat, i: int)
    requires k < |StepLabels.RangesOf(StepLabels.Boundaries(flags), |flags|)|
    ensures var r := StepLabels.RangesOf(StepLabels.Boundaries(flags), |flags|)[k];
      r.step == k && (StepLabels.InRange(r, i) ==> 0 <= i < |flags|)
  {
    StepLabels.BoundariesProperties(flags);
    StepLabels.RangeAt(StepLabels.Boundaries(flags), |flags|, k);
  }

  lemma RangeAround(flags: seq<bool>, k: nat, i: nat, m: int)
    requires i < |flags| && m == |StepLabels.Boundaries(flags[..i])|
    requires k < |StepLabels.RangesOf(StepLabels.Boundaries(flags), |flags|)|
    ensures StepLabels.InRange(StepLabels.RangesOf(StepLabels.Boundaries(flags), |flags|)[k], i) <==> k == m && !flags[i]
  {
    var bs := StepLabels.Boundaries(flags);
    BoundariesSplit(flags, i);
    StepLabels.BoundariesMembers(flags, i);
    if k < m {
      assert bs[k] < i;
    } else if k > m {
      assert bs[k - 1] >= i;
    } else if flags[i] {
      BoundaryIsNext(flags, i, m);
    } else if k < |bs| {
      assert bs[k] in bs;
    }
  }

  lemma BoundaryIsNext(flags: seq<bool>, i: nat, m: int)
    requires i < |flags| && flags[i] && m == |StepLabels.Boundaries(flags[..i])|
    ensures m < |StepLabels.Boundaries(flags)| && StepLabels.Boundaries(flags)[m] == i
  {
    assert flags[..i + 1][..i] == flags[..i];
    BoundariesSplit(flags, i);
    BoundariesSplit(flags, i + 1);
  }

  ghost function BuiltFrom(c: Config, files: seq<seq<TraceReader.Line>>): Result<Build, Error> {
    TraceReader.TraceWellFormed(files);
    Built(c, TraceReader.TraceOf(files))
  }

  /** On any trace the transition ranges of the plot are the kept steps. */
  lemma TraceStepsNamed(c: Config, files: seq<seq<TraceReader.Line>>, k: nat, i: int)
    requires BuiltFrom(c, files).Ok?
    requires var flags := BoundaryFlags(BuiltFrom(c, files).value.windows);
      k < |StepLabels.RangesOf(StepLabels.Boundaries(flags), |flags|)|
    ensures var windows := BuiltFrom(c, files).value.windows;
      var flags := BoundaryFlags(windows);
      StepLabels.InRange(StepLabels.RangesOf(StepLabels.Boundaries(flags), |flags|)[k], i)
      <==> 0 <= i < |windows| - 1 && windows[i].step == k && windows[i + 1].step == k
  {
    TraceReader.TraceWellFormed(files);
    BuiltClimbs(c, TraceReader.TraceOf(files));
    RangeNamesStep(BuiltFrom(c, files).value.windows, k, i);
  }

  /** A window of the list holds sample `i`. */
  ghost predicate Holds(windows: seq<Window>, i: int) {
    exists k :: 0 <= k < |windows| && windows[k].start <= i < windows[k].end
  }

  ghost predicate HoldsAll(windows: seq<Window>, n: nat) {
    forall i :: 0 <= i < n ==> Holds(windows, i)
  }

  lemma {:induction false} HoldsCovered(c: Config, step: int, source: int, filtered: seq<Dist>, starts: seq<int>, i: int)
    ensures Holds(WindowsAt(c, step, source, filtered, starts), i) <==> Covered(starts, |filtered|, c.window, i)
  {
    if starts != [] {
      var front, start := Front(starts), Last(starts);
      HoldsCovered(c, step, source, filtered, front, i);
      HoldsSnoc(WindowsAt(c, step, source, filtered, front), WindowAt(c, step, source, filtered, start), i);
      Rejoin(starts);
      CoveredSnoc(front, start, |filtered|, c.window, i);
    }
  }

  lemma HoldsSnoc(windows: seq<Window>, w: Window, i: int)
    ensures Holds(windows + [w], i) <==> Holds(windows, i) || w.start <= i < w.end
  {
    var all := windows + [w];
    assert all[|windows|] == w;
    assert forall k :: 0 <= k < |windows| ==> all[k] == windows[k];
  }

  lemma CoveredSnoc(starts: seq<int>, start: int, n: int, window: int, i: int)
    ensures Covered(starts + [start], n, window, i) <==> Covered(starts, n, window, i) || InWindow(n, window, start, i)
  {
    var all := starts + [start];
    assert all[|starts|] == start;
    assert forall k :: 0 <= k < |starts| ==> all[k] == starts[k];
  }

  /** The windows of a kept segment hold all its samples exactly when the stride
      does not exceed the window or two windows are as long as the segment. */
  lemma SegmentCovered(c: Config, step: int, source: int, filtered: seq<Dist>)
    requires c.stride > 0
    ensures StartsOf(|filtered|, c.window, c.stride).Ok?
    ensures HoldsAll(WindowsAt(c, step, source, filtered, StartsOf(|filtered|, c.window, c.stride).value), |filtered|)
        <==> filtered == [] || c.stride <= c.window || |filtered| <= 2 * c.window
  {
    CoversAll(|filtered|, c.window, c.stride);
    var starts := StartsOf(|filtered|, c.window, c.stride).value;
    var windows := WindowsAt(c, step, source, filtered, starts);
    forall i | 0 <= i < |filtered|
      ensures Holds(windows, i) <==> Covered(starts, |filtered|, c.window, i)
    {
      HoldsCovered(c, step, source, filtered, starts, i);
    }
    if HoldsAll(windows, |filtered|) {
      forall i | 0 <= i < |filtered|
        ensures Covered(starts, |filtered|, c.window, i)
      {
        assert Holds(windows, i);
      }
    }
  }

  ghost predicate Distributions(windows: seq<Window>) {
    forall k :: 0 <= k < |windows| ==> windows[k].dist == map[] || IsDistribution(windows[k].dist)
  }

  /** Every window's mean is empty or sums to one. */
  lemma {:induction false} WindowsAreDistributions(c: Config, segments: seq<TraceReader.Segment>)
    requires TraceReader.AllWellFormed(segments) && Built(c, segments).Ok?
    ensures Distributions(Built(c, segments).value.windows)
  {
    if segments != [] {
      var n := |segments| - 1;
      WindowsAreDistributions(c, segments[..n]);
      var built := Built(c, segments[..n]).value;
      if |segments[n].samples| >= c.minSamples {
        var filtered := Filtered(c, segments[n].blockTokens, PrefillLen(segments[n]), segments[n].samples);
        var starts := StartsOf(|filtered|, c.window, c.stride).value;
        CutDistributions(c, |built.steps|, n, filtered, starts);
        var more := WindowsAt(c, |built.steps|, n, filtered, starts);
        assert Built(c, segments).value.windows == built.windows + more;
      }
    }
  }

  lemma {:induction false} CutDistributions(c: Config, step: int, source: int, filtered: seq<Dist>, starts: seq<int>)
    ensures Distributions(WindowsAt(c, step, source, filtered, starts))
  {
    if starts != [] {
      var n := |starts| - 1;
      CutDistributions(c, step, source, filtered, starts[..n]);
      var w := WindowAt(c, step, source, filtered, starts[n]);
      MeanIsDistribution(Slice(filtered, w.start, w.end));
    }
  }

  /** On any trace, the divergence drawn for a transition is not negative exactly if
      its first window holds something or neither of the two does. */
  lemma TransitionSign(c: Config, files: seq<seq<TraceReader.Line>>, i: nat, eps: real, lg: real -> real, k: real)
    requires BuiltFrom(c, files).Ok? && i + 1 < |BuiltFrom(c, files).value.windows|
    requires eps > 0.0 && Divergence.IsStrictLog(lg, k)
    ensures var prev, cur := BuiltFrom(c, files).value.windows[i].dist, BuiltFrom(c, files).value.windows[i + 1].dist;
      Divergence.Kl(prev, cur, eps, lg) >= 0.0 <==> prev != map[] || cur == map[]
  {
    TraceReader.TraceWellFormed(files);
    WindowsAreDistributions(c, TraceReader.TraceOf(files));
    var windows := BuiltFrom(c, files).value.windows;
    Divergence.KlSign(windows[i].dist, windows[i + 1].dist, eps, lg, k);
  }
}
