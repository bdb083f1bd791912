/** Attributing the maintenance events of a server log to its requests. */
module MaintenanceLog {
  import opened Wrappers
  import opened Lists

  type Fields = map<string, string>

  datatype Kind = GuidedQuery | MiddecodeReselect | Selection | QueryReplay

  /** A log line, classified by its prefix; `guided` and `replayed` say whether the
      text of an event mentions those words outside its query. */
  datatype Line =
    | Event(kind: Kind, guided: bool, replayed: bool, fields: Fields)
    | Accounting(fields: Fields)
    | Generation(fields: Fields, middecode: int)
    | Ttft(fields: Fields)
    | Other

  /** A line with its number, counted from 1. */
  datatype Entry = Entry(number: nat, line: Line)

  datatype Row = Row(
    timing: Fields,
    accounting: Fields,
    generation: Fields,
    middecode: int,
    semanticRefreshes: nat,
    queries: seq<Fields>,
    replays: seq<Fields>,
    eventLines: seq<nat>,
    ttftLine: nat)

  datatype Error =
    | MissingAccounting(line: nat)
    | QueryWithoutRefresh(line: nat)
    | IncompleteRequest
    | SelectionCount
    | MiddecodeCount

  datatype Arm = Arm(semanticReselections: int, middecodeRefreshes: int)

  predicate IsSelection(l: Line) {
    l.Event? && l.kind == Selection
  }

  predicate IsReplay(l: Line) {
    l.Event? && (l.kind == QueryReplay || l.replayed)
  }

  predicate IsQuery(l: Line) {
    l.Event? && (l.kind == GuidedQuery || l.kind == MiddecodeReselect || l.guided)
  }

  // ------------------------------------------------------------- a plain split

  function Numbered(log: seq<Line>): seq<Entry> {
    if log == [] then [] else Numbered(Front(log)) + [Entry(|log|, Last(log))]
  }

  /** The finished requests of a log, and the entries after the last of them. */
  datatype Split = Split(closed: seq<seq<Entry>>, open: seq<Entry>)

  function AddEntry(s: Split, e: Entry): Split {
    if e.line.Ttft? then Split(s.closed + [s.open + [e]], [])
    else Split(s.closed, s.open + [e])
  }

  /** Cut after every TTFT line. */
  function SplitLog(entries: seq<Entry>): Split {
    if entries == [] then Split([], []) else AddEntry(SplitLog(Front(entries)), Last(entries))
  }

  predicate Quiet(entries: seq<Entry>) {
    entries == [] || (Quiet(Front(entries)) && !Last(entries).line.Ttft?)
  }

  /** A finished request: quiet up to its last entry, which is its TTFT line. */
  predicate Finished(span: seq<Entry>) {
    span != [] && Quiet(Front(span)) && Last(span).line.Ttft?
  }

  predicate AllFinished(spans: seq<seq<Entry>>) {
    spans == [] || (AllFinished(Front(spans)) && Finished(Last(spans)))
  }

  lemma AddKeeps(s: Split, e: Entry)
    requires AllFinished(s.closed) && Quiet(s.open)
    ensures AllFinished(AddEntry(s, e).closed) && Quiet(AddEntry(s, e).open)
    ensures Flatten(AddEntry(s, e).closed) + AddEntry(s, e).open == (Flatten(s.closed) + s.open) + [e]
  {
    Snoc(s.open, e);
    Snoc(s.closed, s.open + [e]);
    Regroup(Flatten(s.closed), s.open, e);
  }

  lemma {:induction false} SplitIsExact(entries: seq<Entry>)
    ensures var s := SplitLog(entries);
      AllFinished(s.closed) && Quiet(s.open) && Flatten(s.closed) + s.open == entries
  {
    if entries != [] {
      SplitIsExact(Front(entries));
      AddKeeps(SplitLog(Front(entries)), Last(entries));
      Rejoin(entries);
    }
  }

  lemma {:induction false} SplitOfQuiet(entries: seq<Entry>, more: seq<Entry>)
    requires Quiet(more)
    ensures SplitLog(entries + more)
         == Split(SplitLog(entries).closed, SplitLog(entries).open + more)
  {
    if more == [] {
      assert entries + more == entries;
    } else {
      SplitOfQuiet(entries, Front(more));
      AppendRejoin(entries, more);
      Snoc(entries + Front(more), Last(more));
      Regroup(SplitLog(entries).open, Front(more), Last(more));
      Rejoin(more);
    }
  }

  lemma {:induction false} SplitOfFinished(spans: seq<seq<Entry>>)
    requires AllFinished(spans)
    ensures SplitLog(Flatten(spans)) == Split(spans, [])
  {
    if spans != [] {
      var front, span := Front(spans), Last(spans);
      SplitOfFinished(front);
      SplitOneMore(Flatten(front), span);
      Rejoin(spans);
    }
  }

  lemma SplitOneMore(entries: seq<Entry>, span: seq<Entry>)
    requires SplitLog(entries).open == [] && Finished(span)
    ensures SplitLog(entries + span) == Split(SplitLog(entries).closed + [span], [])
  {
    var body, ttft := Front(span), Last(span);
    Rejoin(span);
    SplitOfQuiet(entries, body);
    Regroup(entries, body, ttft);
    Snoc(entries + body, ttft);
    assert [] + body == body;
  }

  /** The split is the only way to divide a log into finished requests and a rest
      without a TTFT line. */
  lemma SplitUnique(entries: seq<Entry>, s: Split)
    ensures s == SplitLog(entries)
        <==> AllFinished(s.closed) && Quiet(s.open) && Flatten(s.closed) + s.open == entries
  {
    SplitIsExact(entries);
    if AllFinished(s.closed) && Quiet(s.open) && Flatten(s.closed) + s.open == entries {
      SplitOfFinished(s.closed);
      SplitOfQuiet(Flatten(s.closed), s.open);
      assert [] + s.open == s.open;
    }
  }

  // --------------------------------------------------------- one request's row

  function Events(entries: seq<Entry>): seq<Entry> {
    if entries == [] then []
    else if Last(entries).line.Event? then Events(Front(entries)) + [Last(entries)]
    else Events(Front(entries))
  }

  function NumbersOf(events: seq<Entry>): seq<nat> {
    if events == [] then [] else NumbersOf(Front(events)) + [Last(events).number]
  }

  function Selections(entries: seq<Entry>): nat {
    if entries == [] then 0
    else if IsSelection(Last(entries).line) then Selections(Front(entries)) + 1
    else Selections(Front(entries))
  }

  function Replays(entries: seq<Entry>): seq<Fields> {
    if entries == [] then []
    else if IsReplay(Last(entries).line) then Replays(Front(entries)) + [Last(entries).line.fields]
    else Replays(Front(entries))
  }

  function Queries(entries: seq<Entry>): seq<Fields> {
    if entries == [] then []
    else if IsQuery(Last(entries).line) then Queries(Front(entries)) + [Last(entries).line.fields]
    else Queries(Front(entries))
  }

  function AccountingOf(entries: seq<Entry>): Fields {
    if entries == [] then map[]
    else if Last(entries).line.Accounting? then Last(entries).line.fields
    else AccountingOf(Front(entries))
  }

  /** The last generation line and its mid-decode count. */
  function GenerationOf(entries: seq<Entry>): (Fields, int) {
    if entries == [] then (map[], 0)
    else if Last(entries).line.Generation? then (Last(entries).line.fields, Last(entries).line.middecode)
    else GenerationOf(Front(entries))
  }

  /** What the exporter does at a TTFT line with the entries since the last one. */
  function RowFor(before: seq<Entry>, ttft: Entry): Result<seq<Row>, Error>
    requires ttft.line.Ttft?
  {
    if Events(before) == [] then Ok([])
    else if AccountingOf(before) == map[] || GenerationOf(before).0 == map[] then Err(MissingAccounting(ttft.number))
    else if Selections(before) == 0 && Replays(before) == [] then Err(QueryWithoutRefresh(ttft.number))
    else Ok([NewRow(before, ttft)])
  }

  function NewRow(before: seq<Entry>, ttft: Entry): Row
    requires ttft.line.Ttft?
  {
    Row(ttft.line.fields, AccountingOf(before), GenerationOf(before).0, GenerationOf(before).1,
        Selections(before), Queries(before), Replays(before), NumbersOf(Events(before)), ttft.number)
  }

  function RowsOf(spans: seq<seq<Entry>>): Result<seq<Row>, Error>
    requires AllFinished(spans)
  {
    if spans == [] then Ok([])
    else
      match RowsOf(Front(spans))
      case Err(e) => Err(e)
      case Ok(rows) =>
        match RowFor(Front(Last(spans)), Last(Last(spans)))
        case Err(e) => Err(e)
        case Ok(more) => Ok(rows + more)
  }

  function TotalSelections(rows: seq<Row>): nat {
    if rows == [] then 0 else TotalSelections(Front(rows)) + Last(rows).semanticRefreshes
  }

  function TotalMiddecode(rows: seq<Row>): int {
    if rows == [] then 0 else TotalMiddecode(Front(rows)) + Last(rows).middecode
  }

  /** Split at the TTFT lines, keep the requests with a maintenance event, and
      check the totals. */
  function Export(log: seq<Line>, arm: Arm): Result<seq<Row>, Error> {
    SplitIsExact(Numbered(log));
    var s := SplitLog(Numbered(log));
    match RowsOf(s.closed)
    case Err(e) => Err(e)
    case Ok(rows) =>
      if Events(s.open) != [] then Err(IncompleteRequest)
      else if TotalSelections(rows) != arm.semanticReselections then Err(SelectionCount)
      else if TotalMiddecode(rows) != arm.middecodeRefreshes then Err(MiddecodeCount)
      else Ok(rows)
  }

  // --------------------------------------------------------------- the exporter

  /** What the exporter remembers while it reads. */
  ghost predicate Remembers(open: seq<Entry>, pending: seq<Entry>, accounting: Fields, generation: Fields, middecode: int) {
    && pending == Events(open) && accounting == AccountingOf(open)
    && generation == GenerationOf(open).0 && middecode == GenerationOf(open).1
  }

  lemma RemembersMore(open: seq<Entry>, e: Entry)
    ensures Events(open + [e]) == if e.line.Event? then Events(open) + [e] else Events(open)
    ensures AccountingOf(open + [e]) == if e.line.Accounting? then e.line.fields else AccountingOf(open)
    ensures GenerationOf(open + [e])
         == if e.line.Generation? then (e.line.fields, e.line.middecode) else GenerationOf(open)
  {
    Snoc(open, e);
  }

  /** The counts taken over the pending events are those of the whole request. */
  lemma {:induction false} EventsSuffice(entries: seq<Entry>)
    ensures Selections(Events(entries)) == Selections(entries)
    ensures Replays(Events(entries)) == Replays(entries)
    ensures Queries(Events(entries)) == Queries(entries)
  {
    if entries != [] {
      EventsSuffice(Front(entries));
      if Last(entries).line.Event? {
        Snoc(Events(Front(entries)), Last(entries));
      }
    }
  }

  lemma NumberedStep(log: seq<Line>, i: nat)
    requires i < |log|
    ensures Numbered(log[..i + 1]) == Numbered(log[..i]) + [Entry(i + 1, log[i])]
    ensures SplitLog(Numbered(log[..i + 1])) == AddEntry(SplitLog(Numbered(log[..i])), Entry(i + 1, log[i]))
  {
    Prefix(log, i);
    Snoc(log[..i], log[i]);
    Snoc(Numbered(log[..i]), Entry(i + 1, log[i]));
  }

  lemma RowsStep(spans: seq<seq<Entry>>, before: seq<Entry>, ttft: Entry)
    requires AllFinished(spans) && Quiet(before) && ttft.line.Ttft? && RowsOf(spans).Ok?
    ensures AllFinished(spans + [before + [ttft]])
    ensures RowsOf(spans + [before + [ttft]])
         == match RowFor(before, ttft)
            case Err(e) => Err(e)
            case Ok(more) => Ok(RowsOf(spans).value + more)
  {
    Snoc(before, ttft);
    Snoc(spans, before + [ttft]);
  }

  ghost function RowsSoFar(log: seq<Line>): Result<seq<Row>, Error> {
    SplitIsExact(Numbered(log));
    RowsOf(SplitLog(Numbered(log)).closed)
  }

  lemma SoFarStep(log: seq<Line>, i: nat)
    requires i < |log| && RowsSoFar(log[..i]).Ok?
    ensures log[i].Ttft? ==>
      RowsSoFar(log[..i + 1])
      == match RowFor(SplitLog(Numbered(log[..i])).open, Entry(i + 1, log[i]))
         case Err(e) => Err(e)
         case Ok(more) => Ok(RowsSoFar(log[..i]).value + more)
    ensures !log[i].Ttft? ==> RowsSoFar(log[..i + 1]) == RowsSoFar(log[..i])
  {
    NumberedStep(log, i);
    SplitIsExact(Numbered(log[..i]));
    if log[i].Ttft? {
      RowsStep(SplitLog(Numbered(log[..i])).closed, SplitLog(Numbered(log[..i])).open, Entry(i + 1, log[i]));
    }
  }

  lemma {:induction false} SoFarError(log: seq<Line>, i: nat)
    requires i <= |log| && RowsSoFar(log[..i]).Err?
    ensures RowsSoFar(log) == RowsSoFar(log[..i])
  {
    var n := |log|;
    if i == n {
      TakeAll(log);
    } else {
      assert log[..n - 1][..i] == log[..i];
      SoFarError(log[..n - 1], i);
      OneMoreError(log);
    }
  }

  lemma OneMoreError(log: seq<Line>)
    requires log != [] && RowsSoFar(log[..|log| - 1]).Err?
    ensures RowsSoFar(log) == RowsSoFar(log[..|log| - 1])
  {
    var n := |log| - 1;
    NumberedStep(log, n);
    TakeAll(log);
    SplitIsExact(Numbered(log[..n]));
    ErrorStays(SplitLog(Numbered(log[..n])), Entry(n + 1, log[n]));
  }

  lemma ErrorStays(s: Split, e: Entry)
    requires AllFinished(s.closed) && Quiet(s.open) && RowsOf(s.closed).Err?
    ensures AllFinished(AddEntry(s, e).closed) && RowsOf(AddEntry(s, e).closed) == RowsOf(s.closed)
  {
    AddKeeps(s, e);
    Snoc(s.closed, s.open + [e]);
  }

  method ExportArm(log: seq<Line>, arm: Arm) returns (r: Result<seq<Row>, Error>)
    ensures r == Export(log, arm)
  {
    var rows, pending: seq<Entry> := [], [];
    var accounting, generation, middecode := map[], map[], 0;
    for i := 0 to |log|
      invariant RowsSoFar(log[..i]) == Ok(rows)
      invariant Remembers(SplitLog(Numbered(log[..i])).open, pending, accounting, generation, middecode)
    {
      ghost var open := SplitLog(Numbered(log[..i])).open;
      var e := Entry(i + 1, log[i]);
      NumberedStep(log, i);
      SoFarStep(log, i);
      RemembersMore(open, e);
      match log[i]
      case Event(_, _, _, _) =>
        pending := pending + [e];
      case Accounting(f) =>
        accounting := f;
      case Generation(f, m) =>
        generation, middecode := f, m;
      case Other =>
      case Ttft(timing) =>
        assert rows + [] == rows;
        if pending != [] {
          EventsSuffice(open);
          if accounting == map[] || generation == map[] {
            SoFarError(log, i + 1);
            return Err(MissingAccounting(i + 1));
          }
          var selections, replays, queries := Selections(pending), Replays(pending), Queries(pending);
          if selections == 0 && replays == [] {
            SoFarError(log, i + 1);
            return Err(QueryWithoutRefresh(i + 1));
          }
          rows := rows + [Row(
            timing, accounting, generation, middecode, selections, queries, replays, NumbersOf(pending), i + 1)];
        }
        pending, accounting, generation, middecode := [], map[], map[], 0;
    }
    TakeAll(log);
    if pending != [] {
      return Err(IncompleteRequest);
    }
    if TotalSelections(rows) != arm.semanticReselections {
      return Err(SelectionCount);
    }
    if TotalMiddecode(rows) != arm.middecodeRefreshes {
      return Err(MiddecodeCount);
    }
    return Ok(rows);
  }

  // ------------------------------------------------------ nothing lost or twice

  /** The line numbers of all events of a log, in order. */
  function EventLines(log: seq<Line>): seq<nat> {
    if log == [] then []
    else if Last(log).Event? then EventLines(Front(log)) + [|log|]
    else EventLines(Front(log))
  }

  function SelectionLines(log: seq<Line>): nat {
    if log == [] then 0
    else if IsSelection(Last(log)) then SelectionLines(Front(log)) + 1
    else SelectionLines(Front(log))
  }

  function ExportedLines(rows: seq<Row>): seq<nat> {
    if rows == [] then [] else ExportedLines(Front(rows)) + Last(rows).eventLines
  }

  function EventNumbers(entries: seq<Entry>): seq<nat> {
    NumbersOf(Events(entries))
  }

  lemma EventNumbersSnoc(entries: seq<Entry>, e: Entry)
    ensures EventNumbers(entries + [e])
         == if e.line.Event? then EventNumbers(entries) + [e.number] else EventNumbers(entries)
    ensures Selections(entries + [e]) == Selections(entries) + (if IsSelection(e.line) then 1 else 0)
  {
    Snoc(entries, e);
    Snoc(Events(entries), e);
  }

  lemma {:induction false} CountsJoin(a: seq<Entry>, b: seq<Entry>)
    ensures EventNumbers(a + b) == EventNumbers(a) + EventNumbers(b)
    ensures Selections(a + b) == Selections(a) + Selections(b)
  {
    if b == [] {
      assert a + b == a;
      assert EventNumbers(a) + [] == EventNumbers(a);
    } else {
      var front, e := Front(b), Last(b);
      CountsJoin(a, front);
      Rejoin(b);
      Regroup(a, front, e);
      EventNumbersSnoc(front, e);
      EventNumbersSnoc(a + front, e);
      Regroup(EventNumbers(a), EventNumbers(front), e.number);
    }
  }

  lemma {:induction false} CountsOfLog(log: seq<Line>)
    ensures EventNumbers(Numbered(log)) == EventLines(log)
    ensures Selections(Numbered(log)) == SelectionLines(log)
  {
    if log != [] {
      CountsOfLog(Front(log));
      EventNumbersSnoc(Numbered(Front(log)), Entry(|log|, Last(log)));
    }
  }

  lemma {:induction false} NoEventsNoCounts(entries: seq<Entry>)
    requires Events(entries) == []
    ensures EventNumbers(entries) == [] && Selections(entries) == 0
  {
    if entries != [] {
      NoEventsNoCounts(Front(entries));
    }
  }

  lemma RowCounts(before: seq<Entry>, ttft: Entry)
    requires ttft.line.Ttft? && RowFor(before, ttft).Ok?
    ensures ExportedLines(RowFor(before, ttft).value) == EventNumbers(before + [ttft])
    ensures TotalSelections(RowFor(before, ttft).value) == Selections(before + [ttft])
  {
    EventNumbersSnoc(before, ttft);
    var rows := RowFor(before, ttft).value;
    if rows == [] {
      NoEventsNoCounts(before);
    } else {
      assert Front(rows) == [];
      assert [] + rows[0].eventLines == rows[0].eventLines;
    }
  }

  lemma {:induction false} ExportedJoin(a: seq<Row>, b: seq<Row>)
    requires |b| <= 1
    ensures ExportedLines(a + b) == ExportedLines(a) + ExportedLines(b)
    ensures TotalSelections(a + b) == TotalSelections(a) + TotalSelections(b)
  {
    if b == [] {
      assert a + b == a;
      assert ExportedLines(a) + [] == ExportedLines(a);
    } else {
      assert b == [b[0]] && Front(b) == [];
      assert [] + b[0].eventLines == b[0].eventLines;
      Snoc(a, b[0]);
    }
  }

  lemma {:induction false} SpansCounted(spans: seq<seq<Entry>>)
    requires AllFinished(spans) && RowsOf(spans).Ok?
    ensures ExportedLines(RowsOf(spans).value) == EventNumbers(Flatten(spans))
    ensures TotalSelections(RowsOf(spans).value) == Selections(Flatten(spans))
  {
    if spans != [] {
      var front, span := Front(spans), Last(spans);
      SpansCounted(front);
      RowCounts(Front(span), Last(span));
      Rejoin(span);
      CountsJoin(Flatten(front), span);
      ExportedJoin(RowsOf(front).value, RowFor(Front(span), Last(span)).value);
    }
  }

  /** A successful export attributes every event line of the log, once and in
      order, and its selection counts add up to the selections in the log. */
  lemma EventsAttributedOnce(log: seq<Line>, arm: Arm)
    requires Export(log, arm).Ok?
    ensures ExportedLines(Export(log, arm).value) == EventLines(log)
    ensures TotalSelections(Export(log, arm).value) == SelectionLines(log) == arm.semanticReselections
  {
    var s := SplitLog(Numbered(log));
    SplitIsExact(Numbered(log));
    SpansCounted(s.closed);
    NoEventsNoCounts(s.open);
    CountsJoin(Flatten(s.closed), s.open);
    CountsOfLog(log);
    assert EventNumbers(Flatten(s.closed)) + [] == EventNumbers(Flatten(s.closed));
  }

  // ------------------------------------------------- a row's own part of the log

  function OpenStart(entries: seq<Entry>): (p: nat)
    ensures p <= |entries|
  {
    if entries == [] then 0
    else if Last(entries).line.Ttft? then |entries|
    else OpenStart(Front(entries))
  }

  lemma {:induction false} OpenIsSlice(entries: seq<Entry>)
    ensures var p := OpenStart(entries);
      SplitLog(entries).open == entries[p..] && (p > 0 ==> entries[p - 1].line.Ttft?)
  {
    if entries != [] {
      OpenIsSlice(Front(entries));
      var p := OpenStart(Front(entries));
      if !Last(entries).line.Ttft? {
        assert Front(entries)[p..] + [Last(entries)] == entries[p..];
      }
    }
  }

  /** The row is made from the lines after `p`, where the previous request ended or
      the log begins, up to the row's own TTFT line; no request ends in between. */
  ghost predicate OwnSlice(entries: seq<Entry>, p: nat, row: Row) {
    && p < row.ttftLine <= |entries|
    && (p > 0 ==> entries[p - 1].line.Ttft?)
    && entries[row.ttftLine - 1].line.Ttft?
    && Quiet(entries[p..row.ttftLine - 1])
    && row == NewRow(entries[p..row.ttftLine - 1], entries[row.ttftLine - 1])
    && row.accounting != map[] && row.generation != map[]
  }

  ghost predicate HasSlice(entries: seq<Entry>, row: Row) {
    exists p: nat :: OwnSlice(entries, p, row)
  }

  ghost predicate Owned(entries: seq<Entry>, rows: seq<Row>) {
    forall k :: 0 <= k < |rows| ==> HasSlice(entries, rows[k])
  }

  lemma OwnedStays(entries: seq<Entry>, e: Entry, rows: seq<Row>)
    requires Owned(entries, rows)
    ensures Owned(entries + [e], rows)
  {
    forall k | 0 <= k < |rows|
      ensures HasSlice(entries + [e], rows[k])
    {
      assert HasSlice(entries, rows[k]);
      var p: nat :| OwnSlice(entries, p, rows[k]);
      SliceStays(entries, e, p, rows[k]);
    }
  }

  lemma SlicesAgree(entries: seq<Entry>, e: Entry, p: nat, t: nat)
    requires p <= t <= |entries|
    ensures (entries + [e])[p..t] == entries[p..t]
    ensures p > 0 ==> (entries + [e])[p - 1] == entries[p - 1]
  {
  }

  lemma SliceStays(entries: seq<Entry>, e: Entry, p: nat, row: Row)
    requires OwnSlice(entries, p, row)
    ensures OwnSlice(entries + [e], p, row)
  {
    var all, t := entries + [e], row.ttftLine - 1;
    SlicesAgree(entries, e, p, t);
    assert all[t] == entries[t];
  }

  lemma OwnedNew(entries: seq<Entry>, ttft: Entry, rows: seq<Row>)
    requires Owned(entries, rows) && ttft.line.Ttft? && ttft.number == |entries| + 1
    requires RowFor(SplitLog(entries).open, ttft).Ok?
    ensures Owned(entries + [ttft], rows + RowFor(SplitLog(entries).open, ttft).value)
  {
    var more := RowFor(SplitLog(entries).open, ttft).value;
    OwnedStays(entries, ttft, rows);
    if more == [] {
      assert rows + more == rows;
    } else {
      var row := NewRow(SplitLog(entries).open, ttft);
      NewSlice(entries, ttft, row);
      OwnedAlso(entries + [ttft], OpenStart(entries), rows, row);
    }
  }

  lemma NewSlice(entries: seq<Entry>, ttft: Entry, row: Row)
    requires ttft.line.Ttft? && ttft.number == |entries| + 1
    requires row == NewRow(SplitLog(entries).open, ttft) && row.accounting != map[] && row.generation != map[]
    ensures OwnSlice(entries + [ttft], OpenStart(entries), row)
  {
    var p, all := OpenStart(entries), entries + [ttft];
    OpenIsSlice(entries);
    SplitIsExact(entries);
    assert row.ttftLine == |entries| + 1;
    SlicesAgree(entries, ttft, p, |entries|);
    assert all[|entries|] == ttft;
    assert entries[p..|entries|] == entries[p..];
  }

  lemma OwnedAlso(entries: seq<Entry>, p: nat, rows: seq<Row>, row: Row)
    requires Owned(entries, rows) && OwnSlice(entries, p, row)
    ensures Owned(entries, rows + [row])
  {
    forall k | 0 <= k < |rows + [row]|
      ensures HasSlice(entries, (rows + [row])[k])
    {
      assert (rows + [row])[k] == if k < |rows| then rows[k] else row;
    }
  }

  lemma {:induction false} RowsOwned(log: seq<Line>)
    requires RowsSoFar(log).Ok?
    ensures Owned(Numbered(log), RowsSoFar(log).value)
  {
    if log != [] {
      var n := |log| - 1;
      TakeAll(log);
      if RowsSoFar(log[..n]).Err? {
        SoFarError(log, n);
      } else {
        RowsOwned(log[..n]);
        SoFarStep(log, n);
        NumberedStep(log, n);
        NumberedLength(log[..n]);
        if log[n].Ttft? {
          OwnedNew(Numbered(log[..n]), Entry(n + 1, log[n]), RowsSoFar(log[..n]).value);
        } else {
          OwnedStays(Numbered(log[..n]), Entry(n + 1, log[n]), RowsSoFar(log[..n]).value);
        }
      }
    }
  }

  lemma {:induction false} NumberedLength(log: seq<Line>)
    ensures |Numbered(log)| == |log|
    ensures forall i :: 0 <= i < |log| ==> Numbered(log)[i] == Entry(i + 1, log[i])
  {
    if log != [] {
      NumberedLength(Front(log));
    }
  }

  /** Entries numbered consecutively, beginning after `lo`. */
  ghost predicate NumberedFrom(entries: seq<Entry>, lo: nat) {
    forall i :: 0 <= i < |entries| ==> entries[i].number == lo + i + 1
  }

  lemma {:induction false} NumbersInside(entries: seq<Entry>, lo: nat, n: nat)
    requires NumberedFrom(entries, lo)
    ensures n in EventNumbers(entries) <==> lo < n <= lo + |entries| && entries[n - lo - 1].line.Event?
  {
    if entries != [] {
      var front := Front(entries);
      NumbersInside(front, lo, n);
      Rejoin(entries);
      EventNumbersSnoc(front, Last(entries));
      assert forall i :: 0 <= i < |front| ==> front[i] == entries[i];
    }
  }

  lemma {:induction false} QuietMeans(entries: seq<Entry>, i: nat)
    requires Quiet(entries) && i < |entries|
    ensures !entries[i].line.Ttft?
  {
    if i < |entries| - 1 {
      QuietMeans(Front(entries), i);
    }
  }

  /** The accounting in force at the end of some lines: the last one given. */
  lemma {:induction false} AccountingIsLast(entries: seq<Entry>)
    requires AccountingOf(entries) != map[]
    ensures exists i :: LastAccounting(entries, i) && AccountingOf(entries) == entries[i].line.fields
  {
    if Last(entries).line.Accounting? {
      assert LastAccounting(entries, |entries| - 1);
    } else {
      AccountingIsLast(Front(entries));
      var i :| LastAccounting(Front(entries), i) && AccountingOf(Front(entries)) == Front(entries)[i].line.fields;
      assert LastAccounting(entries, i);
    }
  }

  ghost predicate LastAccounting(entries: seq<Entry>, i: int) {
    && 0 <= i < |entries| && entries[i].line.Accounting?
    && forall j :: i < j < |entries| ==> !entries[j].line.Accounting?
  }

  /** `slice` holds the lines of the log from `p` on, numbered. */
  ghost predicate LinesFrom(log: seq<Line>, p: nat, slice: seq<Entry>) {
    && p + |slice| <= |log|
    && forall i :: 0 <= i < |slice| ==> slice[i] == Entry(p + i + 1, log[p + i])
  }

  lemma SliceLines(log: seq<Line>, p: nat, t: nat)
    requires p <= t <= |log|
    ensures |Numbered(log)| == |log| && LinesFrom(log, p, Numbered(log)[p..t])
  {
    NumberedLength(log);
  }

  lemma SliceEvent(log: seq<Line>, p: nat, slice: seq<Entry>, n: nat)
    requires LinesFrom(log, p, slice)
    ensures n in EventNumbers(slice) <==> p < n <= p + |slice| && log[n - 1].Event?
  {
    assert NumberedFrom(slice, p);
    NumbersInside(slice, p, n);
    assert p < n <= p + |slice| ==> slice[n - p - 1].line == log[n - 1];
  }

  lemma SliceQuiet(log: seq<Line>, p: nat, slice: seq<Entry>, i: nat)
    requires LinesFrom(log, p, slice) && Quiet(slice) && p <= i < p + |slice|
    ensures !log[i].Ttft?
  {
    QuietMeans(slice, i - p);
    assert slice[i - p].line == log[i];
  }

  lemma SliceAccounting(log: seq<Line>, p: nat, slice: seq<Entry>) returns (a: nat)
    requires LinesFrom(log, p, slice) && AccountingOf(slice) != map[]
    ensures p <= a < p + |slice| && log[a].Accounting? && AccountingOf(slice) == log[a].fields
    ensures forall j :: a < j < p + |slice| ==> !log[j].Accounting?
  {
    AccountingIsLast(slice);
    var i :| LastAccounting(slice, i) && AccountingOf(slice) == slice[i].line.fields;
    a := p + i;
    forall j | a < j < p + |slice|
      ensures !log[j].Accounting?
    {
      assert slice[j - p].line == log[j];
    }
  }

  /** The generation in force at the end of some lines: the last one given. */
  lemma {:induction false} GenerationIsLast(entries: seq<Entry>)
    requires GenerationOf(entries).0 != map[]
    ensures exists i :: LastGeneration(entries, i) && GenerationOf(entries) == (entries[i].line.fields, entries[i].line.middecode)
  {
    if Last(entries).line.Generation? {
      assert LastGeneration(entries, |entries| - 1);
    } else {
      GenerationIsLast(Front(entries));
      var i :| LastGeneration(Front(entries), i)
               && GenerationOf(Front(entries)) == (Front(entries)[i].line.fields, Front(entries)[i].line.middecode);
      assert LastGeneration(entries, i);
    }
  }

  ghost predicate LastGeneration(entries: seq<Entry>, i: int) {
    && 0 <= i < |entries| && entries[i].line.Generation?
    && forall j :: i < j < |entries| ==> !entries[j].line.Generation?
  }

  lemma SliceGeneration(log: seq<Line>, p: nat, slice: seq<Entry>) returns (g: nat)
    requires LinesFrom(log, p, slice) && GenerationOf(slice).0 != map[]
    ensures p <= g < p + |slice| && log[g].Generation? && GenerationOf(slice) == (log[g].fields, log[g].middecode)
    ensures forall j :: g < j < p + |slice| ==> !log[j].Generation?
  {
    GenerationIsLast(slice);
    var i :| LastGeneration(slice, i) && GenerationOf(slice) == (slice[i].line.fields, slice[i].line.middecode);
    g := p + i;
    forall j | g < j < p + |slice|
      ensures !log[j].Generation?
    {
      assert slice[j - p].line == log[j];
    }
  }

  function QueryFields(log: seq<Line>): seq<Fields> {
    if log == [] then []
    else if IsQuery(Last(log)) then QueryFields(Front(log)) + [Last(log).fields]
    else QueryFields(Front(log))
  }

  function ReplayFields(log: seq<Line>): seq<Fields> {
    if log == [] then []
    else if IsReplay(Last(log)) then ReplayFields(Front(log)) + [Last(log).fields]
    else ReplayFields(Front(log))
  }

  /** What is counted over some entries is counted over their lines. */
  lemma {:induction false} SliceCounts(log: seq<Line>, p: nat, slice: seq<Entry>)
    requires LinesFrom(log, p, slice)
    ensures Selections(slice) == SelectionLines(log[p..p + |slice|])
    ensures Queries(slice) == QueryFields(log[p..p + |slice|])
    ensures Replays(slice) == ReplayFields(log[p..p + |slice|])
  {
    var lines := log[p..p + |slice|];
    if slice != [] {
      var front := Front(slice);
      assert forall i :: 0 <= i < |front| ==> front[i] == slice[i];
      SliceCounts(log, p, front);
      assert Front(lines) == log[p..p + |front|] && Last(lines) == Last(slice).line;
    }
  }

  lemma OwnLines(log: seq<Line>, p: nat, row: Row) returns (slice: seq<Entry>)
    requires OwnSlice(Numbered(log), p, row)
    ensures p < row.ttftLine <= |log| && log[row.ttftLine - 1].Ttft? && (p > 0 ==> log[p - 1].Ttft?)
    ensures |slice| == row.ttftLine - 1 - p && LinesFrom(log, p, slice) && Quiet(slice)
    ensures row == NewRow(slice, Entry(row.ttftLine, log[row.ttftLine - 1]))
    ensures row.accounting != map[] && row.generation != map[]
  {
    NumberedLength(log);
    slice := Numbered(log)[p..row.ttftLine - 1];
    SliceLines(log, p, row.ttftLine - 1);
  }

  /** The lines from `p` on, up to its TTFT line, are the row's own request. */
  ghost predicate OwnRequest(log: seq<Line>, p: nat, row: Row) {
    && p < row.ttftLine <= |log| && log[row.ttftLine - 1].Ttft? && (p > 0 ==> log[p - 1].Ttft?)
    && (forall i :: p <= i < row.ttftLine - 1 ==> !log[i].Ttft?)
  }

  /** Each exported row speaks only of its own request: its events are exactly those
      strictly between the previous TTFT line and its own, what it counts and lists
      is taken from them, and its accounting, generation and mid-decode count are
      the last ones given in that stretch. */
  lemma RowSpeaksOfItsRequest(log: seq<Line>, arm: Arm, k: nat) returns (p: nat, a: nat, g: nat)
    requires Export(log, arm).Ok? && k < |Export(log, arm).value|
    ensures var row := Export(log, arm).value[k];
      && OwnRequest(log, p, row) && row.timing == log[row.ttftLine - 1].fields
      && (forall n :: n in row.eventLines <==> p < n < row.ttftLine && log[n - 1].Event?)
      && p <= a < row.ttftLine - 1 && log[a].Accounting? && row.accounting == log[a].fields
      && (forall j :: a < j < row.ttftLine - 1 ==> !log[j].Accounting?)
      && p <= g < row.ttftLine - 1 && log[g].Generation?
      && row.generation == log[g].fields && row.middecode == log[g].middecode
      && (forall j :: g < j < row.ttftLine - 1 ==> !log[j].Generation?)
      && row.semanticRefreshes == SelectionLines(log[p..row.ttftLine - 1])
      && row.queries == QueryFields(log[p..row.ttftLine - 1])
      && row.replays == ReplayFields(log[p..row.ttftLine - 1])
  {
    var row := Export(log, arm).value[k];
    RowsOwned(log);
    assert HasSlice(Numbered(log), row);
    p :| OwnSlice(Numbered(log), p, row);
    var slice := OwnLines(log, p, row);
    OwnQuiet(log, p, slice, row);
    RowEvents(log, p, slice, row);
    a := SliceAccounting(log, p, slice);
    g := SliceGeneration(log, p, slice);
    SliceCounts(log, p, slice);
  }

  lemma OwnQuiet(log: seq<Line>, p: nat, slice: seq<Entry>, row: Row)
    requires LinesFrom(log, p, slice) && Quiet(slice) && |slice| == row.ttftLine - 1 - p
    requires p < row.ttftLine <= |log| && log[row.ttftLine - 1].Ttft? && (p > 0 ==> log[p - 1].Ttft?)
    ensures OwnRequest(log, p, row)
  {
    forall i | p <= i < row.ttftLine - 1
      ensures !log[i].Ttft?
    {
      SliceQuiet(log, p, slice, i);
    }
  }

  lemma RowEvents(log: seq<Line>, p: nat, slice: seq<Entry>, row: Row)
    requires LinesFrom(log, p, slice) && row.eventLines == EventNumbers(slice) && |slice| == row.ttftLine - 1 - p
    ensures forall n :: n in row.eventLines <==> p < n < row.ttftLine && log[n - 1].Event?
  {
    forall n: nat
      ensures n in row.eventLines <==> p < n < row.ttftLine && log[n - 1].Event?
    {
      SliceEvent(log, p, slice, n);
    }
  }
}
