/** When an earlier prompt, with what the model answered to it, is an exact
    prefix of a later prompt: the condition prefix reuse depends on. */
module ChatPrefix {
  import opened Text
  import opened ChatTemplate
  import opened ThinkBlocks

  // -------------------------------------------------------- histories that grow

  /** A run of tool results that continues across the join of two histories. */
  predicate Straddles(ms: seq<Message>, more: seq<Message>) {
    ToolAt(ms, |ms| - 1) && ToolAt(more, 0)
  }

  predicate AssistantAt(ms: seq<Message>, i: int) {
    0 <= i < |ms| && ms[i].Message? && ms[i].role.Assistant?
  }

  /** Some assistant turn of `ms` is printed with its think block. */
  predicate EmitsThink(ms: seq<Message>) {
    exists i :: LastQuery(ms) < i < |ms| && AssistantAt(ms, i)
  }

  /** The first assistant turn printed with its think block. */
  predicate FirstKept(ms: seq<Message>, i: int) {
    && LastQuery(ms) < i < |ms| && AssistantAt(ms, i)
    && forall j :: LastQuery(ms) < j < i ==> !AssistantAt(ms, j)
  }

  /** So it is for the first think block a history prints. */
  ghost predicate TellingHistory(ms: seq<Message>) {
    forall i :: FirstKept(ms, i) ==> Telling(Spoken(ms[i]).0, Spoken(ms[i]).1, ms[i].calls)
  }

  lemma LastQueryAppend(ms: seq<Message>, more: seq<Message>)
    ensures LastQuery(ms) <= LastQuery(ms + more)
    ensures HasQuery(ms + more) <==> HasQuery(ms) || HasQuery(more)
    ensures HasQuery(ms) && !HasQuery(more) ==> LastQuery(ms + more) == LastQuery(ms)
    ensures HasQuery(more) ==> LastQuery(ms + more) >= |ms|
  {
    var all := ms + more;
    forall i | 0 <= i < |ms|
      ensures IsQuery(all[i]) <==> IsQuery(ms[i])
    {
    }
    forall i | 0 <= i < |more|
      ensures IsQuery(all[|ms| + i]) <==> IsQuery(more[i])
    {
    }
    if i :| 0 <= i < |ms| && IsQuery(ms[i]) {
      assert IsQuery(all[i]);
    }
    if i :| 0 <= i < |more| && IsQuery(more[i]) {
      assert IsQuery(all[|ms| + i]);
    }
    if i :| 0 <= i < |all| && IsQuery(all[i]) {
      assert if i < |ms| then IsQuery(ms[i]) else IsQuery(more[i - |ms|]);
    }
  }

  /** A genuine query settles the opening system turn: nothing appended later
      can still be merged into it. */
  lemma SystemSettled(ms: seq<Message>, more: seq<Message>, setup: Setup)
    requires HasQuery(ms)
    ensures SystemPieces(ms + more, setup) == SystemPieces(ms, setup) && SystemStays(ms, more, setup)
  {
    var i :| 0 <= i < |ms| && IsQuery(ms[i]);
    assert SystemText(ms + more) == SystemText(ms);
  }

  /** A message prints the same text in two histories that agree on it, on
      whether its neighbours are tool results, and on its think block. */
  lemma SameItem(ms: seq<Message>, ms': seq<Message>, i: nat, cut: int, cut': int)
    requires i < |ms| && i < |ms'| && ms[i] == ms'[i]
    requires ToolAt(ms, i - 1) == ToolAt(ms', i - 1)
    requires ToolAt(ms, i) ==> ToolAt(ms, i + 1) == ToolAt(ms', i + 1)
    requires AssistantAt(ms, i) ==> (i > cut <==> i > cut')
    ensures ItemText(ms, i, cut) == ItemText(ms', i, cut')
  {
  }

  lemma SameNeighbours(ms: seq<Message>, ms': seq<Message>, n: nat, i: nat)
    requires i < n <= |ms| && n <= |ms'| && ms[..n] == ms'[..n]
    requires ToolAt(ms, n - 1) ==> (ToolAt(ms, n) <==> ToolAt(ms', n))
    ensures ms[i] == ms'[i] && ToolAt(ms, i - 1) == ToolAt(ms', i - 1)
    ensures ToolAt(ms, i) ==> ToolAt(ms, i + 1) == ToolAt(ms', i + 1)
  {
    assert ms[i] == ms[..n][i] == ms'[i];
    assert i > 0 ==> ms[i - 1] == ms[..n][i - 1] == ms'[i - 1];
    assert i + 1 < n ==> ms[i + 1] == ms[..n][i + 1] == ms'[i + 1];
  }

  lemma SameTexts(ms: seq<Message>, ms': seq<Message>, n: nat, cut: int, cut': int)
    requires n <= |ms| && n <= |ms'| && ms[..n] == ms'[..n]
    requires ToolAt(ms, n - 1) ==> (ToolAt(ms, n) <==> ToolAt(ms', n))
    requires forall i :: 0 <= i < n && AssistantAt(ms, i) ==> (i > cut <==> i > cut')
    ensures Texts(ms, cut)[..n] == Texts(ms', cut')[..n]
  {
    forall i | 0 <= i < n
      ensures ItemText(ms, i, cut) == ItemText(ms', i, cut')
    {
      SameNeighbours(ms, ms', n, i);
      SameItem(ms, ms', i, cut, cut');
    }
  }

  lemma {:induction false} JoinExtends(head: string, front: seq<string>, rest: seq<string>)
    ensures Join(head, front + rest) == Join(head, front) + Join("", rest)
  {
    if rest == [] {
      assert front + rest == front;
      NothingAppended(Join(head, front));
    } else {
      var n := |rest| - 1;
      JoinExtends(head, front, rest[..n]);
      assert (front + rest)[..|front| + n] == front + rest[..n];
      Associative(Join(head, front), Join("", rest[..n]), rest[n]);
    }
  }

  /** If the two cutoffs agree on the assistant turns of `ms`, appending leaves
      the printed history a prefix exactly when no tool run straddles the join. */
  lemma PrefixByCutoff(head: string, ms: seq<Message>, more: seq<Message>, cut: int, cut': int)
    requires forall i :: 0 <= i < |ms| && AssistantAt(ms, i) ==> (i > cut <==> i > cut')
    ensures var a := Join(head, Texts(ms, cut));
            var b := Join(head, Texts(ms + more, cut'));
      if Straddles(ms, more) then Diverges(a, b) else a <= b
  {
    if !Straddles(ms, more) {
      var all, n := ms + more, |ms|;
      assert all[..n] == ms[..n];
      assert ToolAt(all, n) == ToolAt(more, 0);
      SameTexts(ms, all, n, cut, cut');
      SplitTexts(Texts(all, cut'), n);
      assert Texts(ms, cut)[..n] == Texts(ms, cut);
      JoinExtends(head, Texts(ms, cut), Texts(all, cut')[n..]);
    } else {
      StraddleDiverges(head, ms, more, cut, cut');
    }
  }

  lemma SplitTexts(ts: seq<string>, n: nat)
    requires n <= |ts|
    ensures ts == ts[..n] + ts[n..]
  {
  }

  /** Inside a run of tool results the next one continues the user turn; at the
      end of the run the turn is closed instead. */
  lemma ToolTurnCloses(content: string, prevTool: bool)
    ensures Show(ToolResultPieces(content, prevTool, false)) == Show(ToolResultPieces(content, prevTool, true)) + TURN_END
  {
    ShowToolResult(content, prevTool, true);
    ShowToolResult(content, prevTool, false);
    NothingAppended(Show(ToolResultPieces(content, prevTool, true)));
  }

  lemma ToolTurnGoesOn(content: string, nextTool: bool, rest: string)
    ensures Diverges(TURN_END, Show(ToolResultPieces(content, true, nextTool)) + rest)
  {
    ShowToolResult(content, true, nextTool);
    var next := Show(ToolResultPieces(content, true, nextTool));
    assert next != "" && next[0] == '\n';
    OneCharApart(TURN_END, next, rest);
  }

  lemma JoinTwo(head: string, ts: seq<string>, n: nat) returns (rest: string)
    requires n + 1 < |ts|
    ensures Join(head, ts) == Join(head, ts[..n]) + ts[n] + ts[n + 1] + rest
  {
    JoinSnoc(head, ts, n);
    JoinSnoc(head, ts, n + 1);
    SplitTexts(ts, n + 2);
    JoinExtends(head, ts[..n + 2], ts[n + 2..]);
    rest := Join("", ts[n + 2..]);
  }

  lemma StraddleDiverges(head: string, ms: seq<Message>, more: seq<Message>, cut: int, cut': int)
    requires forall i :: 0 <= i < |ms| && AssistantAt(ms, i) ==> (i > cut <==> i > cut')
    requires Straddles(ms, more)
    ensures Diverges(Join(head, Texts(ms, cut)), Join(head, Texts(ms + more, cut')))
  {
    var all, n := ms + more, |ms| - 1;
    assert all[..n] == ms[..n];
    assert ToolAt(all, n) && ToolAt(all, n + 1) && ToolAt(ms, n - 1) == ToolAt(all, n - 1);
    SameTexts(ms, all, n, cut, cut');
    var last := Texts(ms, cut)[n];
    var open := ToolTexts(ms, all, n, cut, cut');
    var rest := JoinTwo(head, Texts(all, cut'), n);
    ToolTextGoesOn(all, n + 1, cut', rest);
    Forks(Join(head, Texts(ms, cut)[..n]), open, TURN_END, Texts(all, cut')[n + 1], rest);
  }

  /** The last tool result of `ms`, closed where the texts end and open in `all`. */
  lemma ToolTexts(ms: seq<Message>, all: seq<Message>, n: nat, cut: int, cut': int) returns (open: string)
    requires n + 1 == |ms| < |all| && ms[n] == all[n]
    requires ToolAt(all, n) && ToolAt(all, n + 1) && ToolAt(ms, n - 1) == ToolAt(all, n - 1)
    ensures Texts(ms, cut)[n] == open + TURN_END
    ensures Texts(all, cut')[n] == open
  {
    ToolTurnCloses(ContentOf(ms[n]), ToolAt(ms, n - 1));
    ToolText(ms, n, cut);
    ToolText(all, n, cut');
    open := Show(ToolResultPieces(ContentOf(ms[n]), ToolAt(ms, n - 1), true));
  }

  lemma ToolText(ms: seq<Message>, i: nat, cut: int)
    requires i < |ms| && ToolAt(ms, i)
    ensures Texts(ms, cut)[i] == Show(ToolResultPieces(ContentOf(ms[i]), ToolAt(ms, i - 1), ToolAt(ms, i + 1)))
  {
  }

  lemma ToolTextGoesOn(ms: seq<Message>, i: nat, cut: int, rest: string)
    requires ToolAt(ms, i) && ToolAt(ms, i - 1)
    ensures Diverges(TURN_END, Texts(ms, cut)[i] + rest)
  {
    ToolText(ms, i, cut);
    ToolTurnGoesOn(ContentOf(ms[i]), ToolAt(ms, i + 1), rest);
  }

  lemma Forks(x: string, shared: string, a: string, b: string, rest: string)
    requires Diverges(a, b + rest)
    ensures Diverges(x + (shared + a), x + shared + b + rest)
  {
    DivergesAfter(x + shared, a, b + rest);
    Associative(x, shared, a);
    Associative(x + shared, b, rest);
  }

  lemma OneCharApart(a: string, b: string, rest: string)
    requires a != "" && b != "" && a[0] != b[0]
    ensures Diverges(a, b + rest)
  {
    assert (b + rest)[0] == b[0];
  }

  // ---------------------------------------------------- think blocks that go

  lemma {:induction false} FirstAssistant(ms: seq<Message>, from: int, last: int) returns (k: int)
    requires from <= last && AssistantAt(ms, last)
    ensures from <= k <= last && AssistantAt(ms, k)
    ensures forall i :: from <= i < k ==> !AssistantAt(ms, i)
    decreases last - from
  {
    if AssistantAt(ms, from) {
      k := from;
    } else {
      k := FirstAssistant(ms, from + 1, last);
    }
  }

  lemma JoinOne(head: string, ts: seq<string>, n: nat) returns (rest: string)
    requires n < |ts|
    ensures Join(head, ts) == Join(head, ts[..n]) + ts[n] + rest
  {
    JoinSnoc(head, ts, n);
    SplitTexts(ts, n + 1);
    JoinExtends(head, ts[..n + 1], ts[n + 1..]);
    rest := Join("", ts[n + 1..]);
  }

  lemma JoinDiverges(head: string, ts: seq<string>, ts': seq<string>, n: nat)
    requires n < |ts| && n < |ts'| && ts[..n] == ts'[..n] && Diverges(ts[n], ts'[n])
    ensures Diverges(Join(head, ts), Join(head, ts'))
  {
    var rest := JoinOne(head, ts, n);
    var rest' := JoinOne(head, ts', n);
    var common := Join(head, ts[..n]);
    DivergesAfter(common, ts[n], ts'[n]);
    DivergesForever(common + ts[n], common + ts'[n], rest, rest');
  }

  /** A new genuine query drops the think blocks printed so far, and the first
      dropped one is where the two prompts part. */
  lemma DroppedThinkDiverges(head: string, ms: seq<Message>, more: seq<Message>)
    requires HasQuery(ms) && HasQuery(more) && EmitsThink(ms) && TellingHistory(ms)
    ensures Diverges(Join(head, Texts(ms, LastQuery(ms))), Join(head, Texts(ms + more, LastQuery(ms + more))))
  {
    var cut, cut' := LastQuery(ms), LastQuery(ms + more);
    LastQueryAppend(ms, more);
    var last :| cut < last < |ms| && AssistantAt(ms, last);
    var k := FirstAssistant(ms, cut + 1, last);
    assert FirstKept(ms, k);
    TextsPart(head, ms, ms + more, k, cut, cut');
  }

  /** Two histories part at an assistant turn that only the first one prints with
      its think block. */
  lemma TextsPart(head: string, ms: seq<Message>, all: seq<Message>, k: nat, cut: int, cut': int)
    requires k < |ms| && k < |all| && ms[..k + 1] == all[..k + 1] && AssistantAt(ms, k) && cut < k <= cut'
    requires forall i :: 0 <= i < k && AssistantAt(ms, i) ==> (i > cut <==> i > cut')
    requires Telling(Spoken(ms[k]).0, Spoken(ms[k]).1, ms[k].calls)
    ensures Diverges(Join(head, Texts(ms, cut)), Join(head, Texts(all, cut')))
  {
    assert ms[k] == ms[..k + 1][k] == all[k];
    assert ms[..k] == ms[..k + 1][..k] == all[..k];
    assert ToolAt(ms, k) == ToolAt(all, k);
    SameTexts(ms, all, k, cut, cut');
    AssistantDiverges(ms[k].calls, Spoken(ms[k]).0, Spoken(ms[k]).1);
    JoinDiverges(head, Texts(ms, cut), Texts(all, cut'), k);
  }

  // -------------------------------------------------------- the opening turn

  /** The opening turn is left as it is, or there is none yet to be changed. */
  predicate SystemStays(ms: seq<Message>, more: seq<Message>, setup: Setup) {
    SystemText(ms + more) == SystemText(ms) || (setup.tools == [] && SystemText(ms) == "")
  }

  /** Only an empty history, or a lone system message, has a system text that can
      still change, and then something is put behind it. */
  lemma SystemChanges(ms: seq<Message>, more: seq<Message>) returns (added: string)
    requires SystemText(ms + more) != SystemText(ms)
    ensures forall i :: 0 <= i < |ms| ==> IsSystem(ms[i])
    ensures if ms == [] then SystemText(ms) == "" && SystemText(ms + more) == added != ""
            else SystemText(ms + more) == SystemText(ms) + "\n" + added
  {
    var all := ms + more;
    if ms == [] {
      added := SystemText(all);
    } else {
      assert all[0] == ms[0] && |ms| == 1 && all[1] == more[0];
      added := ContentOf(all[1]);
    }
  }

  lemma {:induction false} SilentJoin(head: string, texts: seq<string>)
    requires forall i :: 0 <= i < |texts| ==> texts[i] == ""
    ensures Join(head, texts) == head
  {
    if texts != [] {
      SilentJoin(head, texts[..|texts| - 1]);
      NothingAppended(head);
    }
  }

  /** System messages print nothing where they stand. */
  lemma SilentTexts(head: string, ms: seq<Message>, cut: int)
    requires forall i :: 0 <= i < |ms| ==> IsSystem(ms[i])
    ensures Join(head, Texts(ms, cut)) == head
  {
    SilentJoin(head, Texts(ms, cut));
  }

  /** Where the shorter text ends its turn, the longer one goes on. */
  lemma TurnGoesOn(head: string, a: string, b: string, rest: string)
    requires b != "" && b[0] == '\n'
    ensures Diverges(head + a + TURN_END, head + (a + b) + TURN_END + rest)
  {
    var short, long := head + a + TURN_END, head + (a + b) + TURN_END + rest;
    assert short[|head + a|] == '<' && long[|head + a|] == '\n';
  }

  /** The part of the opening turn before the system text. */
  lemma SystemHead(setup: Setup) returns (head: string)
    requires setup.tools != []
    ensures forall merged :: Show(SystemTurn(merged, setup)) == head + (if merged != "" then "\n\n" + merged else "") + TURN_END
  {
    head := SYSTEM_TURN + setup.wording.intro + Show(ToolPieces(setup.tools)) + TOOLS_CLOSE + setup.wording.format
            + (if setup.forced != "" then setup.wording.forcedLead + setup.forced + setup.wording.forcedTail else "")
            + setup.wording.closing;
    forall merged: string
      ensures Show(SystemTurn(merged, setup)) == head + (if merged != "" then "\n\n" + merged else "") + TURN_END
    {
      ShowSystemTurn(merged, setup);
    }
  }

  /** An opening turn with more text in it parts from the one before. */
  lemma SystemDiverges(text: string, text': string, setup: Setup, rest: string)
    requires setup.tools != [] || text != ""
    requires (text == "" && text' != "") || (exists added :: text' == text + "\n" + added)
    ensures Diverges(Show(SystemTurn(text, setup)), Show(SystemTurn(text', setup)) + rest)
  {
    if setup.tools == [] {
      var added :| text' == text + "\n" + added;
      ShowThree(Open(SYSTEM_TURN), Say(text), Close);
      ShowThree(Open(SYSTEM_TURN), Say(text'), Close);
      Associative(text, "\n", added);
      TurnGoesOn(SYSTEM_TURN, text, "\n" + added, rest);
    } else {
      var head := SystemHead(setup);
      MoreText(head, text, text', rest);
    }
  }

  lemma MoreText(head: string, text: string, text': string, rest: string)
    requires (text == "" && text' != "") || (exists added :: text' == text + "\n" + added)
    ensures Diverges(head + (if text != "" then "\n\n" + text else "") + TURN_END,
                     head + (if text' != "" then "\n\n" + text' else "") + TURN_END + rest)
  {
    if text == "" {
      NothingAppended(head);
      assert "" + ("\n\n" + text') == "\n\n" + text';
      TurnGoesOn(head, "", "\n\n" + text', rest);
    } else {
      var added :| text' == text + "\n" + added;
      assert ("\n\n" + text) + ("\n" + added) == "\n\n" + text';
      TurnGoesOn(head, "\n\n" + text, "\n" + added, rest);
    }
  }

  /** If the two cutoffs agree on the assistant turns of `ms`, its text is a prefix
      exactly when the opening turn stays and no tool run straddles the join. */
  lemma HeadedPrefix(ms: seq<Message>, more: seq<Message>, setup: Setup, cut: int, cut': int)
    requires forall i :: 0 <= i < |ms| && AssistantAt(ms, i) ==> (i > cut <==> i > cut')
    ensures var a := Join(Show(SystemPieces(ms, setup)), Texts(ms, cut));
            var b := Join(Show(SystemPieces(ms + more, setup)), Texts(ms + more, cut'));
      if SystemStays(ms, more, setup) && !Straddles(ms, more) then a <= b else Diverges(a, b)
  {
    if SystemText(ms + more) == SystemText(ms) {
      PrefixByCutoff(Show(SystemPieces(ms, setup)), ms, more, cut, cut');
    } else {
      var added := SystemChanges(ms, more);
      SilentTexts(Show(SystemPieces(ms, setup)), ms, cut);
      assert !Straddles(ms, more);
      if !SystemStays(ms, more, setup) {
        JoinAfter(Show(SystemPieces(ms + more, setup)), Texts(ms + more, cut'));
        SystemDiverges(SystemText(ms), SystemText(ms + more), setup, Join("", Texts(ms + more, cut')));
      }
    }
  }

  lemma JoinAfter(head: string, parts: seq<string>)
    ensures Join(head, parts) == head + Join("", parts)
  {
    assert [] + parts == parts;
    JoinExtends(head, [], parts);
  }

  // -------------------------------------------------------------- any extension

  /** A new genuine query drops a think block that `ms` prints. */
  predicate Drops(ms: seq<Message>, more: seq<Message>) {
    HasQuery(more) && EmitsThink(ms)
  }

  /** The exact condition under which a rendered history stays a prefix when
      messages are appended to it: the opening turn stays, no tool run goes on
      across the join, and no think block it printed is dropped by a new genuine
      query. Otherwise the two texts differ at some position, whatever follows
      either of them; for a dropped block, if it can be told from its answer. */
  lemma AppendExact(ms: seq<Message>, more: seq<Message>, setup: Setup)
    ensures !Drops(ms, more)
            ==> if SystemStays(ms, more, setup) && !Straddles(ms, more) then Body(ms, setup) <= Body(ms + more, setup)
                else Diverges(Body(ms, setup), Body(ms + more, setup))
    ensures Drops(ms, more) && TellingHistory(ms) ==> Diverges(Body(ms, setup), Body(ms + more, setup))
    ensures !Drops(ms, more) || TellingHistory(ms)
            ==> (Body(ms, setup) <= Body(ms + more, setup)
                 <==> SystemStays(ms, more, setup) && !Straddles(ms, more) && !Drops(ms, more))
  {
    LastQueryAppend(ms, more);
    if !Drops(ms, more) {
      HeadedPrefix(ms, more, setup, LastQuery(ms), LastQuery(ms + more));
    } else if TellingHistory(ms) {
      SystemSettled(ms, more, setup);
      DroppedThinkDiverges(Show(SystemPieces(ms, setup)), ms, more);
    }
    NotBoth(Body(ms, setup), Body(ms + more, setup));
  }
}
