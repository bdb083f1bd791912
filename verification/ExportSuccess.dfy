/** When an arm's log can be exported, in terms of the lines of the log alone. */
module ExportSuccess {
  import opened Wrappers
  import opened Lists
  import opened MaintenanceLog

  // ------------------------------------------------- stretches between TTFT lines

  /** The lines from `p` up to the TTFT line `t`, with none in between. */
  ghost predicate Stretch(log: seq<Line>, p: int, t: int) {
    && Open(log, p, t) && t < |log| && log[t].Ttft?
  }

  /** The lines from `p` up to `t`: no TTFT line, but one right before them. */
  ghost predicate Open(log: seq<Line>, p: int, t: int) {
    && 0 <= p <= t <= |log| && (p > 0 ==> log[p - 1].Ttft?)
    && forall i :: p <= i < t ==> !log[i].Ttft?
  }

  ghost predicate EventIn(log: seq<Line>, p: int, t: int)
    requires 0 <= p <= t <= |log|
  {
    exists i :: p <= i < t && log[i].Event?
  }

  /** Line `a` is the last accounting line before `t`. */
  ghost predicate AccountingAt(log: seq<Line>, p: int, t: int, a: int)
    requires 0 <= p <= t <= |log|
  {
    p <= a < t && log[a].Accounting? && forall j :: a < j < t ==> !log[j].Accounting?
  }

  ghost predicate GenerationAt(log: seq<Line>, p: int, t: int, g: int)
    requires 0 <= p <= t <= |log|
  {
    p <= g < t && log[g].Generation? && forall j :: g < j < t ==> !log[j].Generation?
  }

  ghost predicate Accounted(log: seq<Line>, p: int, t: int)
    requires 0 <= p <= t <= |log|
  {
    exists a :: AccountingAt(log, p, t, a) && log[a].fields != map[]
  }

  ghost predicate Generated(log: seq<Line>, p: int, t: int)
    requires 0 <= p <= t <= |log|
  {
    exists g :: GenerationAt(log, p, t, g) && log[g].fields != map[]
  }

  /** A selection or a replay. */
  predicate Refresh(l: Line) {
    l.Event? && (l.kind == Selection || l.kind == QueryReplay || l.replayed)
  }

  ghost predicate Refreshed(log: seq<Line>, p: int, t: int)
    requires 0 <= p <= t <= |log|
  {
    exists i :: p <= i < t && Refresh(log[i])
  }

  /** Every stretch with an event ends with accounting and generation in force, and
      holds a selection or a replay. */
  ghost predicate Complete(log: seq<Line>) {
    forall p, t :: Stretch(log, p, t) && EventIn(log, p, t) ==> Accounted(log, p, t) && Generated(log, p, t) && Refreshed(log, p, t)
  }

  /** No event is left over behind the last TTFT line. */
  ghost predicate AllClosed(log: seq<Line>) {
    forall i :: 0 <= i < |log| && log[i].Event? ==> exists t :: i < t < |log| && log[t].Ttft?
  }

  ghost function SelectionsIn(log: seq<Line>): set<int> {
    set i | 0 <= i < |log| && log[i].Event? && log[i].kind == Selection
  }

  /** The mid-decode count in force at `t`: the last one given since the last TTFT line. */
  function MiddecodeAt(log: seq<Line>, t: nat): int
    requires t <= |log|
  {
    if t == 0 || log[t - 1].Ttft? then 0
    else if log[t - 1].Generation? then log[t - 1].middecode
    else MiddecodeAt(log, t - 1)
  }

  predicate EventBefore(log: seq<Line>, t: nat)
    requires t <= |log|
  {
    t > 0 && !log[t - 1].Ttft? && (log[t - 1].Event? || EventBefore(log, t - 1))
  }

  /** The counts in force at the TTFT lines that end a stretch with an event. */
  function MiddecodeSum(log: seq<Line>, n: nat): int
    requires n <= |log|
  {
    if n == 0 then 0
    else MiddecodeSum(log, n - 1) + (if log[n - 1].Ttft? && EventBefore(log, n - 1) then MiddecodeAt(log, n - 1) else 0)
  }

  // ------------------------------------------------------ what the rows look at

  /** The lines not yet closed by a TTFT line. */
  lemma {:induction false} OpenLines(log: seq<Line>) returns (p: nat)
    ensures var open := SplitLog(Numbered(log)).open;
      LinesFrom(log, p, open) && p + |open| == |log| && Open(log, p, |log|)
  {
    p := OpenSlice(log);
    SplitIsExact(Numbered(log));
    QuietLines(log, p, SplitLog(Numbered(log)).open);
  }

  lemma {:induction false} OpenSlice(log: seq<Line>) returns (p: nat)
    ensures var open := SplitLog(Numbered(log)).open;
      LinesFrom(log, p, open) && p + |open| == |log| && (p > 0 ==> log[p - 1].Ttft?)
  {
    SliceLines(log, 0, |log|);
    p := OpenStart(Numbered(log));
    SliceLines(log, p, |log|);
    OpenTail(Numbered(log));
    if p > 0 {
      NumberedAt(log, p - 1);
    }
  }

  lemma {:induction false} OpenTail(entries: seq<Entry>)
    ensures var p := OpenStart(entries);
      SplitLog(entries).open == entries[p..|entries|] && (p > 0 ==> entries[p - 1].line.Ttft?)
  {
    OpenIsSlice(entries);
  }

  lemma {:induction false} NumberedAt(log: seq<Line>, i: nat)
    requires i < |log|
    ensures |Numbered(log)| == |log| && Numbered(log)[i] == Entry(i + 1, log[i])
  {
    NumberedLength(log);
  }

  lemma {:induction false} QuietLines(log: seq<Line>, p: nat, slice: seq<Entry>)
    requires LinesFrom(log, p, slice) && Quiet(slice)
    ensures forall i :: p <= i < p + |slice| ==> !log[i].Ttft?
  {
    forall i | p <= i < p + |slice|
      ensures !log[i].Ttft?
    {
      SliceQuiet(log, p, slice, i);
    }
  }

  lemma OpenUnique(log: seq<Line>, p: int, q: int, t: int)
    requires Open(log, p, t) && Open(log, q, t)
    ensures p == q
  {
  }

  lemma {:induction false} EventsMean(log: seq<Line>, p: nat, slice: seq<Entry>)
    requires LinesFrom(log, p, slice)
    ensures Events(slice) != [] <==> EventIn(log, p, p + |slice|)
  {
    if slice != [] {
      LinesFront(log, p, slice);
      EventsMean(log, p, Front(slice));
    }
  }

  lemma LinesFront(log: seq<Line>, p: nat, slice: seq<Entry>)
    requires LinesFrom(log, p, slice) && slice != []
    ensures LinesFrom(log, p, Front(slice)) && Last(slice).line == log[p + |slice| - 1]
  {
  }

  lemma {:induction false} AccountingMeans(log: seq<Line>, p: nat, slice: seq<Entry>)
    requires LinesFrom(log, p, slice)
    ensures AccountingOf(slice) != map[] <==> Accounted(log, p, p + |slice|)
  {
    if slice != [] {
      var t := p + |slice|;
      LinesFront(log, p, slice);
      AccountingMeans(log, p, Front(slice));
      if log[t - 1].Accounting? {
        assert AccountingAt(log, p, t, t - 1);
      } else {
        forall a
          ensures AccountingAt(log, p, t, a) <==> AccountingAt(log, p, t - 1, a)
        {
        }
      }
    }
  }

  lemma {:induction false} GenerationMeans(log: seq<Line>, p: nat, slice: seq<Entry>)
    requires LinesFrom(log, p, slice)
    ensures GenerationOf(slice).0 != map[] <==> Generated(log, p, p + |slice|)
  {
    if slice != [] {
      var t := p + |slice|;
      LinesFront(log, p, slice);
      GenerationMeans(log, p, Front(slice));
      if log[t - 1].Generation? {
        assert GenerationAt(log, p, t, t - 1);
      } else {
        forall g
          ensures GenerationAt(log, p, t, g) <==> GenerationAt(log, p, t - 1, g)
        {
        }
      }
    }
  }

  lemma {:induction false} RefreshMeans(log: seq<Line>, p: nat, slice: seq<Entry>)
    requires LinesFrom(log, p, slice)
    ensures Selections(slice) > 0 || Replays(slice) != [] <==> Refreshed(log, p, p + |slice|)
  {
    if slice != [] {
      LinesFront(log, p, slice);
      RefreshMeans(log, p, Front(slice));
      assert Refresh(log[p + |slice| - 1]) <==> IsSelection(Last(slice).line) || IsReplay(Last(slice).line);
    }
  }

  lemma {:induction false} MiddecodeMeans(log: seq<Line>, p: nat, slice: seq<Entry>)
    requires LinesFrom(log, p, slice) && Open(log, p, p + |slice|)
    ensures GenerationOf(slice).1 == MiddecodeAt(log, p + |slice|)
    ensures EventBefore(log, p + |slice|) <==> EventIn(log, p, p + |slice|)
  {
    if slice != [] {
      LinesFront(log, p, slice);
      MiddecodeMeans(log, p, Front(slice));
    }
  }

  /** One more TTFT line: the stretch it ends makes a row, nothing, or an error. */
  lemma RowMeans(log: seq<Line>, ttft: Entry) returns (p: nat)
    requires ttft.line.Ttft?
    ensures Open(log, p, |log|)
    ensures var row := RowFor(SplitLog(Numbered(log)).open, ttft);
      && (row.Ok? <==> (EventIn(log, p, |log|) ==> Accounted(log, p, |log|) && Generated(log, p, |log|) && Refreshed(log, p, |log|)))
      && (row.Ok? ==> TotalMiddecode(row.value) == if EventBefore(log, |log|) then MiddecodeAt(log, |log|) else 0)
  {
    var open := SplitLog(Numbered(log)).open;
    p := OpenLines(log);
    EventsMean(log, p, open);
    AccountingMeans(log, p, open);
    GenerationMeans(log, p, open);
    RefreshMeans(log, p, open);
    MiddecodeMeans(log, p, open);
    if Events(open) != [] {
      OneRow(NewRow(open, ttft));
    }
  }

  lemma OneRow(row: Row)
    ensures TotalMiddecode([row]) == row.middecode
  {
    assert Front([row]) == [];
  }

  // -------------------------------------------------------------- all the rows

  lemma StretchFront(log: seq<Line>, p: int, t: int)
    requires log != []
    ensures Stretch(log, p, t) && t < |log| - 1 <==> Stretch(log[..|log| - 1], p, t)
  {
    var front := log[..|log| - 1];
    assert forall i :: 0 <= i < |front| ==> front[i] == log[i];
  }

  lemma {:induction false} SameLines(log: seq<Line>, n: nat, p: int, t: int)
    requires 0 <= p <= t <= n <= |log|
    ensures EventIn(log[..n], p, t) <==> EventIn(log, p, t)
    ensures Accounted(log[..n], p, t) <==> Accounted(log, p, t)
    ensures Generated(log[..n], p, t) <==> Generated(log, p, t)
    ensures Refreshed(log[..n], p, t) <==> Refreshed(log, p, t)
    ensures Open(log[..n], p, t) <==> Open(log, p, t)
  {
    var front := log[..n];
    assert forall i :: 0 <= i < n ==> front[i] == log[i];
    forall a
      ensures AccountingAt(front, p, t, a) <==> AccountingAt(log, p, t, a)
      ensures GenerationAt(front, p, t, a) <==> GenerationAt(log, p, t, a)
    {
    }
  }

  lemma {:induction false} SameSums(log: seq<Line>, n: nat, t: nat)
    requires t <= n <= |log|
    ensures MiddecodeAt(log[..n], t) == MiddecodeAt(log, t) && EventBefore(log[..n], t) == EventBefore(log, t)
    ensures MiddecodeSum(log[..n], t) == MiddecodeSum(log, t)
  {
    if t > 0 {
      SameSums(log, n, t - 1);
    }
  }

  /** What must hold of the stretch from `p` to `t`. */
  ghost predicate Sound(log: seq<Line>, p: int, t: int)
    requires 0 <= p <= t <= |log|
  {
    EventIn(log, p, t) ==> Accounted(log, p, t) && Generated(log, p, t) && Refreshed(log, p, t)
  }

  lemma {:induction false} CompleteStep(log: seq<Line>, p: int)
    requires log != [] && Open(log[..|log| - 1], p, |log| - 1)
    ensures var n := |log| - 1;
      0 <= p <= n && (Complete(log) <==> Complete(log[..n]) && (log[n].Ttft? ==> Sound(log[..n], p, n)))
  {
    var n := |log| - 1;
    var front := log[..n];
    SameLines(log, n, p, n);
    forall q, t
      ensures Stretch(log, q, t) <==> Stretch(front, q, t) || (log[n].Ttft? && q == p && t == n)
    {
      StretchFront(log, q, t);
      if Stretch(log, q, t) && t == n {
        OpenUnique(log, p, q, n);
      }
    }
    forall q, t | Stretch(front, q, t)
      ensures Sound(front, q, t) <==> Sound(log, q, t)
    {
      SameLines(log, n, q, t);
    }
    CompleteMeans(log);
    CompleteMeans(front);
  }

  lemma {:induction false} CompleteMeans(log: seq<Line>)
    ensures Complete(log) <==> forall p, t :: Stretch(log, p, t) ==> Sound(log, p, t)
  {
  }

  lemma {:induction false} TotalJoin(a: seq<Row>, b: seq<Row>)
    requires |b| <= 1
    ensures TotalMiddecode(a + b) == TotalMiddecode(a) + TotalMiddecode(b)
  {
    if b == [] {
      assert a + b == a;
    } else {
      assert b == [b[0]];
      OneRow(b[0]);
      Snoc(a, b[0]);
    }
  }

  lemma {:induction false} RowsMean(log: seq<Line>)
    ensures RowsSoFar(log).Ok? <==> Complete(log)
    ensures RowsSoFar(log).Ok? ==> TotalMiddecode(RowsSoFar(log).value) == MiddecodeSum(log, |log|)
  {
    if log != [] {
      var n := |log| - 1;
      var front := log[..n];
      TakeAll(log);
      RowsMean(front);
      var p := RowMeans(front, Entry(n + 1, Ttft(map[])));
      CompleteStep(log, p);
      if RowsSoFar(front).Err? {
        SoFarError(log, n);
      } else {
        SoFarStep(log, n);
        SameSums(log, n, n);
        if log[n].Ttft? {
          var p' := RowMeans(front, Entry(n + 1, log[n]));
          OpenUnique(front, p, p', n);
          RowsTotal(front, Entry(n + 1, log[n]));
        }
      }
    }
  }

  /** The mid-decode counts of the rows so far and of the next. */
  lemma {:induction false} RowsTotal(log: seq<Line>, ttft: Entry)
    requires ttft.line.Ttft? && RowsSoFar(log).Ok?
    ensures var row := RowFor(SplitLog(Numbered(log)).open, ttft);
      row.Ok? ==> TotalMiddecode(RowsSoFar(log).value + row.value) == TotalMiddecode(RowsSoFar(log).value) + TotalMiddecode(row.value)
  {
    var row := RowFor(SplitLog(Numbered(log)).open, ttft);
    if row.Ok? {
      TotalJoin(RowsSoFar(log).value, row.value);
    }
  }

  // ------------------------------------------------------------- the selections

  lemma {:induction false} SelectionsAre(log: seq<Line>)
    ensures SelectionLines(log) == |SelectionsIn(log)|
  {
    if log == [] {
      assert SelectionsIn(log) == {};
    } else {
      SelectionsAre(Front(log));
      SelectionsGrow(Front(log), Last(log));
      Rejoin(log);
    }
  }

  lemma SelectionsGrow(log: seq<Line>, l: Line)
    ensures |SelectionsIn(log + [l])| == |SelectionsIn(log)| + (if IsSelection(l) then 1 else 0)
  {
    var all, n := log + [l], |log|;
    assert forall i :: 0 <= i < n ==> all[i] == log[i];
    if IsSelection(l) {
      assert SelectionsIn(all) == SelectionsIn(log) + {n};
    } else {
      assert SelectionsIn(all) == SelectionsIn(log);
    }
  }

  lemma {:induction false} SelectionsTotal(log: seq<Line>)
    requires RowsSoFar(log).Ok? && Events(SplitLog(Numbered(log)).open) == []
    ensures TotalSelections(RowsSoFar(log).value) == |SelectionsIn(log)|
  {
    var s := SplitLog(Numbered(log));
    SplitIsExact(Numbered(log));
    SpansCounted(s.closed);
    NoEventsNoCounts(s.open);
    CountsJoin(Flatten(s.closed), s.open);
    CountsOfLog(log);
    SelectionsAre(log);
  }

  lemma {:induction false} ClosedMeans(log: seq<Line>)
    ensures Events(SplitLog(Numbered(log)).open) == [] <==> AllClosed(log)
  {
    var p := OpenLines(log);
    EventsMean(log, p, SplitLog(Numbered(log)).open);
    OpenMeans(log, p);
  }

  lemma OpenMeans(log: seq<Line>, p: nat)
    requires Open(log, p, |log|)
    ensures EventIn(log, p, |log|) <==> !AllClosed(log)
  {
    if AllClosed(log) {
      forall i | p <= i < |log|
        ensures !log[i].Event?
      {
      }
    } else {
      var i :| 0 <= i < |log| && log[i].Event? && forall t :: i < t < |log| ==> !log[t].Ttft?;
      assert p > 0 ==> log[p - 1].Ttft?;
      assert i >= p;
    }
  }

  /** The export of an arm succeeds exactly if every stretch with an event is complete,
      no event is left over, and both totals are those of the arm. */
  lemma {:induction false} ExportExactly(log: seq<Line>, arm: Arm)
    ensures Export(log, arm).Ok?
        <==> Complete(log) && AllClosed(log) && |SelectionsIn(log)| == arm.semanticReselections
             && MiddecodeSum(log, |log|) == arm.middecodeRefreshes
  {
    RowsMean(log);
    ClosedMeans(log);
    if RowsSoFar(log).Ok? && AllClosed(log) {
      SelectionsTotal(log);
    }
  }

  // ---------------------------------------------------------- what a row lists

  /** What is listed of some lines is listed of their parts, in order. */
  lemma {:induction false} ListsDivide(a: seq<Line>, b: seq<Line>)
    ensures QueryFields(a + b) == QueryFields(a) + QueryFields(b)
    ensures ReplayFields(a + b) == ReplayFields(a) + ReplayFields(b)
  {
    if b == [] {
      assert a + b == a;
    } else {
      ListsDivide(a, Front(b));
      AppendRejoin(a, b);
      Snoc(a + Front(b), Last(b));
    }
  }

  /** Of one line: the fields of a guided query or of a replay, by its kind or its text. */
  lemma ListsOne(l: Line)
    ensures QueryFields([l])
         == if l.Event? && (l.kind == GuidedQuery || l.kind == MiddecodeReselect || l.guided) then [l.fields] else []
    ensures ReplayFields([l]) == if l.Event? && (l.kind == QueryReplay || l.replayed) then [l.fields] else []
  {
    assert Front([l]) == [];
  }
}
