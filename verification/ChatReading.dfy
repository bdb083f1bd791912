/** Reading a rendered conversation: its turns, written out plainly, are what a reader
    finds who cuts the text at the end-of-turn markers. */
module ChatReading {
  import opened Wrappers
  import opened Text
  import opened ChatTemplate
  import opened ChatPrefix
  import opened ChatRuns
  import opened InlineReasoning
  import opened InlineSeam
  import Lists

  // ------------------------------------------------------------ the plain turns

  function ToolLines(tools: seq<string>): string {
    if tools == [] then "" else "\n" + tools[0] + ToolLines(tools[1..])
  }

  /** The opening turn, if there is one. */
  function OpeningTurn(ms: seq<Message>, setup: Setup): seq<string> {
    var merged := SystemText(ms);
    if setup.tools != [] then
      ["<|im_start|>system\n" + setup.wording.intro + ToolLines(setup.tools) + "\n</tools>" + setup.wording.format
       + (if setup.forced == "" then "" else setup.wording.forcedLead + setup.forced + setup.wording.forcedTail)
       + setup.wording.closing + (if merged == "" then "" else "\n\n" + merged)]
    else if merged == "" then [] else ["<|im_start|>system\n" + merged]
  }

  /** One parameter of a call after the other. */
  function ParamLines(entries: seq<(string, ArgValue)>): string {
    if entries == [] then ""
    else
      "<parameter=" + entries[0].0 + ">\n" + (match entries[0].1 case TextArg(t) => t case JsonArg(t) => t) + "\n</parameter>\n"
      + ParamLines(entries[1..])
  }

  /** A call with a name, written out; arguments that are no object count as one
      parameter, and without arguments there is none. */
  function CallLine(name: string, args: Args): string {
    "<tool_call>\n<function=" + name + ">\n"
    + (match args
       case ArgObject(entries) => ParamLines(entries)
       case ArgText(raw) => "<parameter=arguments>\n" + raw + "\n</parameter>\n"
       case NoArgs => "")
    + "</function>\n</tool_call>"
  }

  /** The calls that print anything. */
  function PrintedCalls(calls: seq<Call>): seq<string> {
    if calls == [] then []
    else (if calls[0].BadCall? || calls[0].name == "" then [] else [CallLine(calls[0].name, calls[0].args)]) + PrintedCalls(calls[1..])
  }

  function Lines(texts: seq<string>): string {
    if texts == [] then "" else if |texts| == 1 then texts[0] else texts[0] + "\n" + Lines(texts[1..])
  }

  /** What follows the answer: the calls, one to a line, set off from the answer. */
  function CallLines(answer: string, calls: seq<Call>): string {
    if PrintedCalls(calls) == [] then ""
    else (if answer == "" then "" else "\n\n") + Lines(PrintedCalls(calls))
  }

  function AssistantTurn(m: Message, showThink: bool): string
    requires m.Message?
  {
    var (reasoning, answer) := Spoken(m);
    "<|im_start|>assistant\n" + (if showThink then "<think>\n" + reasoning + "\n</think>\n\n" else "")
    + answer + CallLines(answer, m.calls)
  }

  predicate Speaks(m: Message) {
    m.Message? && (m.role.User? || m.role.Assistant?)
  }

  predicate IsTool(m: Message) {
    m.Message? && m.role.Tool?
  }

  function SpokenTurn(m: Message, showThink: bool): string
    requires Speaks(m)
  {
    if m.role.User? then "<|im_start|>user\n" + ContentOf(m) else AssistantTurn(m, showThink)
  }

  function ResultBlock(m: Message): string
    requires m.Message?
  {
    "\n<tool_response>\n" + ContentOf(m) + "\n</tool_response>"
  }

  /** The turns with one more message: a user or assistant message is a turn, a tool
      result is one too unless it goes on from another, and nothing else prints. */
  function NextTurns(before: seq<string>, m: Message, goesOn: bool, showThink: bool): seq<string> {
    if Speaks(m) then before + [SpokenTurn(m, showThink)]
    else if !IsTool(m) then before
    else if goesOn && before != [] then Lists.Front(before) + [Lists.Last(before) + ResultBlock(m)]
    else before + ["<|im_start|>user" + ResultBlock(m)]
  }

  /** The turns of the first `n` messages. */
  function TurnsUpTo(ms: seq<Message>, setup: Setup, n: nat): seq<string>
    requires n <= |ms|
  {
    if n == 0 then OpeningTurn(ms, setup)
    else NextTurns(TurnsUpTo(ms, setup, n - 1), ms[n - 1], ToolAt(ms, n - 2), n - 1 > LastQuery(ms))
  }

  function TurnsOf(ms: seq<Message>, setup: Setup): seq<string> {
    TurnsUpTo(ms, setup, |ms|)
  }

  const END := "<|im_end|>\n"

  function Closed(turns: seq<string>): string {
    if turns == [] then "" else Closed(Lists.Front(turns)) + (Lists.Last(turns) + END)
  }

  // --------------------------------------------------------- the text they make

  lemma {:induction false} ToolLinesShown(tools: seq<string>)
    ensures Show(ToolPieces(tools)) == ToolLines(tools)
  {
    if tools != [] {
      var front, last := Lists.Front(tools), Lists.Last(tools);
      ToolLinesShown(front);
      ShowSnoc(ToolPieces(front), Say("\n" + last));
      ToolLinesSnoc(front, last);
      Lists.Rejoin(tools);
    }
  }

  lemma {:induction false} ToolLinesSnoc(tools: seq<string>, t: string)
    ensures ToolLines(tools + [t]) == ToolLines(tools) + ("\n" + t)
  {
    if tools == [] {
      assert ([] + [t])[1..] == [];
      assert ToolLines([]) == "";
      NothingAppended("\n" + t);
    } else {
      ToolLinesSnoc(tools[1..], t);
      assert (tools + [t])[1..] == tools[1..] + [t];
      Associative("\n" + tools[0], ToolLines(tools[1..]), "\n" + t);
    }
  }

  lemma {:induction false} ParamsAre(entries: seq<(string, ArgValue)>)
    ensures PrintParams(PrintedArgs(ArgObject(entries))) == ParamLines(entries)
  {
    if entries != [] {
      var n := |entries| - 1;
      ParamsAre(entries[..n]);
      assert PrintedArgs(ArgObject(entries))[..n] == PrintedArgs(ArgObject(entries[..n]));
      ParamLinesSnoc(entries[..n], entries[n]);
      assert entries == entries[..n] + [entries[n]];
    }
  }

  lemma {:induction false} ParamLinesSnoc(entries: seq<(string, ArgValue)>, e: (string, ArgValue))
    ensures ParamLines(entries + [e]) == ParamLines(entries) + PrintParam((e.0, PrintedValue(e.1)))
  {
    if entries == [] {
      assert ([] + [e])[1..] == [];
      assert ParamLines([]) == "";
      NothingAppended("<parameter=" + e.0 + ">\n" + PrintedValue(e.1) + "\n</parameter>\n");
    } else {
      ParamLinesSnoc(entries[1..], e);
      assert (entries + [e])[1..] == entries[1..] + [e];
      Associative("<parameter=" + entries[0].0 + ">\n" + PrintedValue(entries[0].1) + "\n</parameter>\n",
                  ParamLines(entries[1..]), PrintParam((e.0, PrintedValue(e.1))));
    }
  }

  lemma {:induction false} CallTextIs(call: Call)
    ensures CallText(call) == if call.BadCall? || call.name == "" then "" else CallLine(call.name, call.args)
    ensures CallText(call) == "" <==> call.BadCall? || call.name == ""
  {
    if !call.BadCall? && call.name != "" {
      match call.args
      case ArgObject(entries) => ParamsAre(entries);
      case ArgText(raw) => OneParam(raw);
      case NoArgs =>
    }
  }

  lemma OneParam(raw: string)
    ensures PrintParams([("arguments", raw)]) == "<parameter=arguments>\n" + raw + "\n</parameter>\n"
  {
    assert [("arguments", raw)][..0] == [];
    assert PrintParams([]) == "";
    assert "<parameter=" + "arguments" + ">\n" == "<parameter=arguments>\n";
  }

  lemma {:induction false} CallsShownAs(calls: seq<Call>, lead: seq<Piece>)
    ensures Show(CallPieces(calls, lead)) == if PrintedCalls(calls) == [] then "" else Show(lead) + Lines(PrintedCalls(calls))
  {
    if calls != [] {
      CallTextIs(calls[0]);
      if CallText(calls[0]) == "" {
        CallsShownAs(calls[1..], lead);
        SilentCall(calls, lead);
      } else {
        CallsShownAs(calls[1..], [Say("\n")]);
        FirstCall(calls, lead, PrintedCalls(calls[1..]));
      }
    }
  }

  lemma SilentCall(calls: seq<Call>, lead: seq<Piece>)
    requires calls != [] && CallText(calls[0]) == "" && (calls[0].BadCall? || calls[0].name == "")
    ensures CallPieces(calls, lead) == CallPieces(calls[1..], lead) && PrintedCalls(calls) == PrintedCalls(calls[1..])
  {
  }

  lemma {:induction false} FirstCall(calls: seq<Call>, lead: seq<Piece>, more: seq<string>)
    requires calls != [] && CallText(calls[0]) != "" && more == PrintedCalls(calls[1..])
    requires PrintedCalls(calls) == [CallText(calls[0])] + more
    requires Show(CallPieces(calls[1..], [Say("\n")])) == if more == [] then "" else Show([Say("\n")]) + Lines(more)
    ensures Show(CallPieces(calls, lead)) == Show(lead) + Lines(PrintedCalls(calls))
  {
    ShowCallsStep(calls, lead);
    ShowOne(Say("\n"));
    LinesStep(Show(lead), CallText(calls[0]), more);
  }

  lemma LinesStep(lead: string, text: string, more: seq<string>)
    ensures lead + text + (if more == [] then "" else "\n" + Lines(more)) == lead + Lines([text] + more)
  {
    assert ([text] + more)[1..] == more;
    if more == [] {
      NothingAppended(lead + text);
    } else {
      Associative(text, "\n", Lines(more));
      Associative(lead, text, "\n" + Lines(more));
    }
  }

  lemma CallLinesShown(answer: string, calls: seq<Call>)
    ensures Show(CallPieces(calls, LeadAfter(answer))) == CallLines(answer, calls)
  {
    CallsShownAs(calls, LeadAfter(answer));
    ShowLead(answer, true);
    if answer == "" {
      assert "" + Lines(PrintedCalls(calls)) == Lines(PrintedCalls(calls));
    }
  }

  lemma AssistantShown(m: Message, showThink: bool)
    requires m.Message?
    ensures Show(AssistantPieces(m.calls, Spoken(m).0, Spoken(m).1, showThink)) == AssistantTurn(m, showThink) + END
  {
    ShowAssistant(m.calls, Spoken(m).0, Spoken(m).1, showThink);
    CallLinesShown(Spoken(m).1, m.calls);
  }

  lemma OpeningShown(ms: seq<Message>, setup: Setup)
    ensures Show(SystemPieces(ms, setup)) == Closed(OpeningTurn(ms, setup))
  {
    var merged := SystemText(ms);
    if setup.tools != [] {
      ShowSystemTurn(merged, setup);
      ToolLinesShown(setup.tools);
      ClosedOne(OpeningTurn(ms, setup)[0]);
    } else if merged != "" {
      ShowThree(Open(SYSTEM_TURN), Say(merged), Close);
      ClosedOne(OpeningTurn(ms, setup)[0]);
    }
  }

  lemma ClosedOne(t: string)
    ensures Closed([t]) == t + END
  {
    assert Lists.Front([t]) == [];
    assert "" + (t + END) == t + END;
  }

  // ------------------------------------------------------------- message by message

  /** The text of some messages: all turns closed, or, if the next message goes on from a
      tool result, all but the last. */
  ghost predicate Prints(text: string, turns: seq<string>, goesOn: bool) {
    if goesOn then turns != [] && text == Closed(Lists.Front(turns)) + Lists.Last(turns) else text == Closed(turns)
  }

  predicate GoesOn(ms: seq<Message>, n: int) {
    ToolAt(ms, n - 1) && ToolAt(ms, n)
  }

  lemma ClosedSnoc(turns: seq<string>, t: string)
    ensures Closed(turns + [t]) == Closed(turns) + (t + END)
  {
    Lists.Snoc(turns, t);
  }

  lemma NewTurn(text: string, turns: seq<string>, t: string, goesOn: bool)
    requires text == Closed(turns)
    ensures Prints(text + (if goesOn then t else t + END), turns + [t], goesOn)
  {
    ClosedSnoc(turns, t);
    Lists.Snoc(turns, t);
  }

  lemma LongerTurn(text: string, turns: seq<string>, block: string, goesOn: bool)
    requires Prints(text, turns, true)
    ensures Prints(text + (if goesOn then block else block + END), Lists.Front(turns) + [Lists.Last(turns) + block], goesOn)
  {
    var front, last := Lists.Front(turns), Lists.Last(turns);
    ClosedSnoc(front, last + block);
    Lists.Snoc(front, last + block);
    Associative(Closed(front), last, block);
    Associative(Closed(front), last, block + END);
    Associative(last, block, END);
  }

  lemma ToolShown(m: Message, prevTool: bool, nextTool: bool)
    requires m.Message?
    ensures Show(ToolResultPieces(ContentOf(m), prevTool, nextTool))
         == var t := if prevTool then ResultBlock(m) else "<|im_start|>user" + ResultBlock(m);
            if nextTool then t else t + END
  {
    ShowToolResult(ContentOf(m), prevTool, nextTool);
    RegroupResult(TOOL_TURN, TOOL_OPEN, ContentOf(m), TOOL_CLOSE, TURN_END);
  }

  lemma RegroupResult(t: string, o: string, c: string, d: string, e: string)
    ensures "" + o + c + d + "" == o + c + d && "" + o + c + d + e == (o + c + d) + e
    ensures t + o + c + d + "" == t + (o + c + d) && t + o + c + d + e == (t + (o + c + d)) + e
  {
  }

  lemma {:induction false} ToolPrints(m: Message, prevTool: bool, nextTool: bool, showThink: bool, text: string, turns: seq<string>)
    requires IsTool(m) && Prints(text, turns, prevTool)
    ensures Prints(text + Show(MessagePieces(m, prevTool, nextTool, showThink)), NextTurns(turns, m, prevTool, showThink), nextTool)
  {
    ToolShown(m, prevTool, nextTool);
    if prevTool {
      LongerTurn(text, turns, ResultBlock(m), nextTool);
    } else {
      NewTurn(text, turns, "<|im_start|>user" + ResultBlock(m), nextTool);
    }
  }

  /** The text of one message, and the turns with it. */
  lemma {:induction false} MessagePrints(m: Message, prevTool: bool, nextTool: bool, showThink: bool, text: string, turns: seq<string>)
    requires Prints(text, turns, prevTool && IsTool(m))
    ensures Prints(text + Show(MessagePieces(m, prevTool, nextTool, showThink)), NextTurns(turns, m, prevTool, showThink),
                   nextTool && IsTool(m))
  {
    if Speaks(m) {
      SpeakerShown(m, prevTool, nextTool, showThink);
      NewTurn(text, turns, SpokenTurn(m, showThink), false);
    } else if IsTool(m) {
      ToolPrints(m, prevTool, nextTool, showThink, text, turns);
    } else {
      SilentShown(m, prevTool, nextTool, showThink);
      NothingAppended(text);
    }
  }

  lemma {:induction false} SpeakerShown(m: Message, prevTool: bool, nextTool: bool, showThink: bool)
    requires Speaks(m)
    ensures Show(MessagePieces(m, prevTool, nextTool, showThink)) == SpokenTurn(m, showThink) + END
  {
    if m.role.User? {
      ShowThree(Open(USER_TURN), Say(ContentOf(m)), Close);
    } else {
      AssistantShown(m, showThink);
    }
  }

  lemma {:induction false} SilentShown(m: Message, prevTool: bool, nextTool: bool, showThink: bool)
    requires !Speaks(m) && !IsTool(m)
    ensures Show(MessagePieces(m, prevTool, nextTool, showThink)) == ""
  {
  }

  /** The text of the first `n` messages. */
  function HeadText(ms: seq<Message>, setup: Setup, n: nat): string
    requires n <= |ms|
  {
    if n == 0 then Show(SystemPieces(ms, setup)) else HeadText(ms, setup, n - 1) + ItemText(ms, n - 1, LastQuery(ms))
  }

  lemma {:induction false} HeadTextIs(ms: seq<Message>, setup: Setup, n: nat)
    requires n <= |ms|
    ensures HeadText(ms, setup, n) == Join(Show(SystemPieces(ms, setup)), Texts(ms, LastQuery(ms))[..n])
  {
    if n > 0 {
      HeadTextIs(ms, setup, n - 1);
      JoinSnoc(Show(SystemPieces(ms, setup)), Texts(ms, LastQuery(ms)), n - 1);
    }
  }

  lemma {:induction false} HeadTextStep(ms: seq<Message>, setup: Setup, n: nat)
    requires n < |ms|
    ensures HeadText(ms, setup, n + 1)
         == HeadText(ms, setup, n) + Show(MessagePieces(ms[n], ToolAt(ms, n - 1), ToolAt(ms, n + 1), n > LastQuery(ms)))
  {
  }

  lemma {:induction false} TurnsStep(ms: seq<Message>, setup: Setup, k: nat)
    requires k < |ms|
    ensures TurnsUpTo(ms, setup, k + 1) == NextTurns(TurnsUpTo(ms, setup, k), ms[k], ToolAt(ms, k - 1), k > LastQuery(ms))
    ensures GoesOn(ms, k) == (ToolAt(ms, k - 1) && IsTool(ms[k])) && GoesOn(ms, k + 1) == (ToolAt(ms, k + 1) && IsTool(ms[k]))
  {
  }

  lemma {:induction false} PrintsOn(m: Message, prevTool: bool, nextTool: bool, showThink: bool, text: string, turns: seq<string>,
                                    goesOn: bool, text': string, turns': seq<string>, goesOn': bool)
    requires Prints(text, turns, goesOn) && goesOn == (prevTool && IsTool(m)) && goesOn' == (nextTool && IsTool(m))
    requires text' == text + Show(MessagePieces(m, prevTool, nextTool, showThink))
    requires turns' == NextTurns(turns, m, prevTool, showThink)
    ensures Prints(text', turns', goesOn')
  {
    MessagePrints(m, prevTool, nextTool, showThink, text, turns);
  }

  /** A text of the first `n` messages, and their turns. */
  ghost predicate Rendered(ms: seq<Message>, setup: Setup, n: nat, text: string, turns: seq<string>, goesOn: bool)
    requires n <= |ms|
  {
    text == HeadText(ms, setup, n) && turns == TurnsUpTo(ms, setup, n) && goesOn == GoesOn(ms, n)
  }

  lemma {:induction false} PrintsNothing(ms: seq<Message>, setup: Setup) returns (text: string, turns: seq<string>, goesOn: bool)
    ensures Rendered(ms, setup, 0, text, turns, goesOn) && Prints(text, turns, goesOn)
  {
    OpeningShown(ms, setup);
    text, turns, goesOn := Show(SystemPieces(ms, setup)), OpeningTurn(ms, setup), false;
  }

  lemma {:induction false} PrintsNext(ms: seq<Message>, setup: Setup, k: nat, text: string, turns: seq<string>, goesOn: bool)
    returns (text': string, turns': seq<string>, goesOn': bool)
    requires k < |ms| && Rendered(ms, setup, k, text, turns, goesOn) && Prints(text, turns, goesOn)
    ensures Rendered(ms, setup, k + 1, text', turns', goesOn') && Prints(text', turns', goesOn')
  {
    HeadTextStep(ms, setup, k);
    TurnsStep(ms, setup, k);
    text', turns', goesOn' := HeadText(ms, setup, k + 1), TurnsUpTo(ms, setup, k + 1), GoesOn(ms, k + 1);
    PrintsOn(ms[k], ToolAt(ms, k - 1), ToolAt(ms, k + 1), k > LastQuery(ms), text, turns, goesOn, text', turns', goesOn');
  }

  lemma {:induction false} TextPrints(ms: seq<Message>, setup: Setup, n: nat) returns (text: string, turns: seq<string>, goesOn: bool)
    requires n <= |ms|
    ensures Rendered(ms, setup, n, text, turns, goesOn) && Prints(text, turns, goesOn)
  {
    if n == 0 {
      text, turns, goesOn := PrintsNothing(ms, setup);
    } else {
      text, turns, goesOn := TextPrints(ms, setup, n - 1);
      text, turns, goesOn := PrintsNext(ms, setup, n - 1, text, turns, goesOn);
    }
  }

  /** A rendered conversation is its turns, each closed by the end-of-turn marker. */
  lemma BodyIsTurns(ms: seq<Message>, setup: Setup)
    ensures Body(ms, setup) == Closed(TurnsOf(ms, setup))
  {
    var text, turns, goesOn := TextPrints(ms, setup, |ms|);
    HeadTextIs(ms, setup, |ms|);
    Lists.TakeAll(Texts(ms, LastQuery(ms)));
  }

  // ------------------------------------------------------------------ the reader

  /** Cut a text behind every end-of-turn marker. */
  function ReadTurns(text: string): seq<string>
    decreases |text|
  {
    var e := Find(text, END, 0);
    if e < 0 then [] else [text[..e]] + ReadTurns(text[e + |END|..])
  }

  ghost predicate Unmarked(turns: seq<string>) {
    forall t :: t in turns ==> !Has(t, END)
  }

  /** A tag whose first character occurs nowhere else in it overlaps nothing: behind a
      text without it, it is found where it is. */
  lemma FreshBehindText(t: string, tag: string)
    requires tag != "" && (forall k :: 0 < k < |tag| ==> tag[k] != tag[0]) && !Has(t, tag)
    ensures Fresh(t, tag)
  {
    var s := t + tag;
    forall i | 0 <= i < |t|
      ensures !OccursAt(s, tag, i)
    {
      assert !OccursAt(t, tag, i);
      if i + |tag| <= |t| {
        assert s[i..i + |tag|] == t[i..i + |tag|];
      } else {
        assert s[i..i + |tag|][|t| - i] == s[|t|] == tag[0];
      }
    }
    assert s[|t|..|t| + |tag|] == tag;
    assert OccursAt(s, tag, |t|);
    FirstAt(s, tag, |t|);
  }

  lemma EndMarks()
    ensures END != "" && forall k :: 0 < k < |END| ==> END[k] != END[0]
  {
  }

  function ClosedFrom(turns: seq<string>): string {
    if turns == [] then "" else turns[0] + END + ClosedFrom(turns[1..])
  }

  lemma {:induction false} ClosedIsFrom(turns: seq<string>)
    ensures Closed(turns) == ClosedFrom(turns)
  {
    if turns != [] {
      ClosedIsFrom(Lists.Front(turns));
      ClosedFromSnoc(Lists.Front(turns), Lists.Last(turns));
      Lists.Rejoin(turns);
    }
  }

  lemma {:induction false} ClosedFromSnoc(turns: seq<string>, t: string)
    ensures ClosedFrom(turns + [t]) == ClosedFrom(turns) + (t + END)
  {
    if turns == [] {
      assert ([] + [t])[1..] == [] && ([] + [t])[0] == t;
      assert ClosedFrom([]) == "";
      NothingAppended(t + END);
    } else {
      ClosedFromSnoc(turns[1..], t);
      assert (turns + [t])[1..] == turns[1..] + [t];
      Associative(turns[0] + END, ClosedFrom(turns[1..]), t + END);
    }
  }

  lemma {:induction false} ReadClosed(turns: seq<string>)
    requires Unmarked(turns)
    ensures ReadTurns(ClosedFrom(turns)) == turns
  {
    if turns != [] {
      var rest := ClosedFrom(turns[1..]);
      EndMarks();
      FreshBehindText(turns[0], END);
      FreshAnyway(turns[0], END, rest);
      ReadClosed(turns[1..]);
      ReadOne(turns[0], END, rest);
      assert turns == [turns[0]] + turns[1..];
    }
  }

  lemma ReadOne(t: string, tag: string, rest: string)
    ensures (t + tag + rest)[..|t|] == t && (t + tag + rest)[|t| + |tag|..] == rest
  {
  }

  lemma {:induction false} ReadUnmarked(text: string)
    ensures Unmarked(ReadTurns(text))
    decreases |text|
  {
    var e := Find(text, END, 0);
    if e >= 0 {
      BeforeFound(text, END, 0, e);
      assert text[0..e] == text[..e];
      ReadUnmarked(text[e + |END|..]);
    }
  }

  /** The turns of a rendered conversation can be read off its text, whatever is in the
      messages, exactly if no turn holds the end-of-turn marker. */
  lemma TurnsReadBack(ms: seq<Message>, setup: Setup)
    ensures ReadTurns(Body(ms, setup)) == TurnsOf(ms, setup) <==> Unmarked(TurnsOf(ms, setup))
  {
    var turns := TurnsOf(ms, setup);
    BodyIsTurns(ms, setup);
    ClosedIsFrom(turns);
    if Unmarked(turns) {
      ReadClosed(turns);
    }
    ReadUnmarked(Body(ms, setup));
  }

  /** So conversations without the marker that print alike have the same turns. */
  lemma SamePromptSameTurns(ms: seq<Message>, ms': seq<Message>, setup: Setup, setup': Setup)
    requires Unmarked(TurnsOf(ms, setup)) && Unmarked(TurnsOf(ms', setup'))
    ensures Body(ms, setup) == Body(ms', setup') <==> TurnsOf(ms, setup) == TurnsOf(ms', setup')
  {
    TurnsReadBack(ms, setup);
    TurnsReadBack(ms', setup');
    BodyIsTurns(ms, setup);
    BodyIsTurns(ms', setup');
  }
}
