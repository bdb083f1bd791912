/** The chat-template renderer: a message list becomes one prompt string.
    The functions give the meaning; the methods are the source's loops, each
    proved to compute that meaning. */
module ChatTemplate {
  import opened Wrappers
  import opened Text

  // ---------------------------------------------------------------- messages

  datatype Role = System | Developer | User | Assistant | Tool | OtherRole

  datatype Part = TextPart(text: string) | IgnoredPart

  /** What a message's "content" can be. A value that is neither text, null nor
      a list is carried as its JSON dump. */
  datatype Content = Plain(text: string) | Null | Parts(parts: seq<Part>) | OtherJson(dump: string)

  datatype ArgValue = TextArg(text: string) | JsonArg(dump: string)

  /** Arguments as an object (ordered, as a dict is), as text that is not the
      JSON of an object, or neither. */
  datatype Args = ArgObject(entries: seq<(string, ArgValue)>) | ArgText(raw: string) | NoArgs

  /** A tool call whose function has a text name, or anything else. */
  datatype Call = Call(name: string, args: Args) | BadCall

  /** `reasoning` is Some exactly when "reasoning_content" is text; `calls` is
      empty when "tool_calls" is not a list. */
  datatype Message =
    | Message(role: Role, content: Content, reasoning: Option<string>, calls: seq<Call>)
    | BadMessage

  function JoinParts(parts: seq<Part>): string {
    if parts == [] then ""
    else (if parts[0].TextPart? then parts[0].text else "") + JoinParts(parts[1..])
  }

  function RenderContent(c: Content): string {
    match c
    case Plain(text) => text
    case Null => ""
    case Parts(parts) => JoinParts(parts)
    case OtherJson(dump) => dump
  }

  lemma {:induction false} JoinAppend(a: seq<Part>, b: seq<Part>)
    ensures JoinParts(a + b) == JoinParts(a) + JoinParts(b)
  {
    if a == [] {
      assert a + b == b;
    } else {
      JoinAppend(a[1..], b);
      assert (a + b)[1..] == a[1..] + b;
      Associative(if a[0].TextPart? then a[0].text else "", JoinParts(a[1..]), JoinParts(b));
    }
  }

  lemma PartAlone(p: Part)
    ensures JoinParts([p]) == if p.TextPart? then p.text else ""
  {
    assert [p][1..] == [];
    assert JoinParts([]) == "";
  }

  /** The loop over the items of a content list. */
  method RenderParts(parts: seq<Part>) returns (out: string)
    ensures out == JoinParts(parts)
  {
    out := "";
    for i := 0 to |parts|
      invariant out == JoinParts(parts[..i])
    {
      assert parts[..i + 1] == parts[..i] + [parts[i]];
      JoinAppend(parts[..i], [parts[i]]);
      PartAlone(parts[i]);
      if parts[i].TextPart? {
        out := out + parts[i].text;
      }
    }
    assert parts[..|parts|] == parts;
  }

  method ReadContent(c: Content) returns (text: string)
    ensures text == RenderContent(c)
  {
    match c
    case Plain(t) => text := t;
    case Null => text := "";
    case Parts(parts) => text := RenderParts(parts);
    case OtherJson(dump) => text := dump;
  }

  function ContentOf(m: Message): string
    requires m.Message?
  {
    Trim(RenderContent(m.content))
  }

  // --------------------------------------------------------------- tool calls

  function PrintedValue(v: ArgValue): string {
    match v
    case TextArg(text) => text
    case JsonArg(dump) => dump
  }

  /** The (key, printed value) pairs a call prints, in order. */
  function PrintedArgs(args: Args): seq<(string, string)> {
    match args
    case ArgObject(entries) =>
      seq(|entries|, i requires 0 <= i < |entries| => (entries[i].0, PrintedValue(entries[i].1)))
    case ArgText(raw) => [("arguments", raw)]
    case NoArgs => []
  }

  function PrintParam(p: (string, string)): string {
    ("<parameter=" + p.0 + ">\n") + p.1 + "\n</parameter>\n"
  }

  function PrintParams(ps: seq<(string, string)>): string {
    if ps == [] then "" else PrintParams(ps[..|ps| - 1]) + PrintParam(ps[|ps| - 1])
  }

  function CallHead(name: string): string {
    "<tool_call>\n<function=" + name + ">\n"
  }

  const CALL_TAIL := "</function>\n</tool_call>"

  function CallText(call: Call): string {
    if call.BadCall? || call.name == "" then ""
    else CallHead(call.name) + PrintParams(PrintedArgs(call.args)) + CALL_TAIL
  }

  method RenderToolCall(call: Call) returns (out: string)
    ensures out == CallText(call)
  {
    if call.BadCall? || call.name == "" {
      return "";
    }
    var args := PrintedArgs(call.args);
    out := "<tool_call>\n<function=" + call.name + ">\n";
    for i := 0 to |args|
      invariant out == CallHead(call.name) + PrintParams(args[..i])
    {
      assert args[..i + 1][..i] == args[..i];
      var tag := "<parameter=" + args[i].0 + ">\n";
      Regroup(CallHead(call.name), PrintParams(args[..i]), tag, args[i].1, "\n</parameter>\n");
      out := out + tag;
      out := out + args[i].1;
      out := out + "\n</parameter>\n";
    }
    assert args[..|args|] == args;
    out := out + CALL_TAIL;
  }

  lemma Regroup(h: string, p: string, a: string, b: string, c: string)
    ensures h + p + a + b + c == h + (p + (a + b + c))
  {
  }

  // ---------------------------------------------------------------- reasoning

  const OPEN_TAG := "<think>"
  const CLOSE_TAG := "</think>"
  const NEWLINES: set<char> := {'\n', '\r'}

  predicate StartsWithChar(s: string, c: char) {
    s != "" && s[0] == c
  }

  predicate EndsWithChar(s: string, c: char) {
    s != "" && s[|s| - 1] == c
  }

  function DropLeadingNewline(s: string): string {
    if StartsWithChar(s, '\n') then s[1..] else s
  }

  function DropTrailingNewline(s: string): string {
    if EndsWithChar(s, '\n') then s[..|s| - 1] else s
  }

  /** (reasoning, answer) of an answer that may print its reasoning inline. */
  function Split(text: string): (string, string) {
    SplitBy(text, OPEN_TAG, CLOSE_TAG)
  }

  function SplitBy(text: string, open: string, close: string): (string, string) {
    var start := Find(text, open, 0);
    if start < 0 then ("", text) else SplitAfter(text, start + |open|, close)
  }

  function SplitAfter(text: string, from: nat, close: string): (string, string)
    requires from <= |text|
  {
    var end := Find(text, close, from);
    if end < 0 then (DropLeadingNewline(text[from..]), "") else Around(text, from, end, end + |close|)
  }

  /** What stands between two tags, and what stands after the second. */
  function Around(text: string, from: nat, end: nat, after: nat): (string, string)
    requires from <= end <= after <= |text|
  {
    (DropTrailingNewline(DropLeadingNewline(text[from..end])), StripLeft(text[after..], NEWLINES))
  }

  lemma NoneFound(text: string, from: nat, close: string)
    requires from <= |text| && Find(text, close, from) < 0
    ensures SplitAfter(text, from, close) == (DropLeadingNewline(text[from..]), "")
  {
  }

  lemma AfterFound(text: string, from: nat, close: string, end: nat)
    requires from <= |text| && Find(text, close, from) == end
    ensures from <= end && end + |close| <= |text|
    ensures SplitAfter(text, from, close) == Around(text, from, end, end + |close|)
  {
  }

  method SplitReasoning(text: string) returns (reasoning: string, content: string)
    ensures (reasoning, content) == Split(text)
  {
    var start := Find(text, OPEN_TAG, 0);
    if start < 0 {
      return "", text;
    }
    var reasoningStart := start + |OPEN_TAG|;
    assert Split(text) == SplitAfter(text, reasoningStart, CLOSE_TAG);
    var end := Find(text, CLOSE_TAG, reasoningStart);
    if end < 0 {
      NoneFound(text, reasoningStart, CLOSE_TAG);
      reasoning := text[reasoningStart..];
      if StartsWithChar(reasoning, '\n') {
        reasoning := reasoning[1..];
      }
      return reasoning, "";
    }
    AfterFound(text, reasoningStart, CLOSE_TAG, end);
    reasoning := text[reasoningStart..end];
    content := text[end + |CLOSE_TAG|..];
    if StartsWithChar(reasoning, '\n') {
      reasoning := reasoning[1..];
    }
    if EndsWithChar(reasoning, '\n') {
      reasoning := reasoning[..|reasoning| - 1];
    }
    content := DropNewlines(content);
  }

  /** The source's closing loop: drop newlines one at a time from the front. */
  method DropNewlines(s: string) returns (content: string)
    ensures content == StripLeft(s, NEWLINES)
  {
    content := s;
    while StartsWithChar(content, '\n') || StartsWithChar(content, '\r')
      invariant StripLeft(content, NEWLINES) == StripLeft(s, NEWLINES)
      decreases |content|
    {
      content := content[1..];
    }
  }

  /** The (reasoning, answer) pair an assistant message is printed with. */
  function Spoken(m: Message): (string, string)
    requires m.Message?
  {
    if m.reasoning.Some? then (Trim(m.reasoning.value), ContentOf(m))
    else
      var s := Split(ContentOf(m));
      if s.0 != "" || s.1 != ContentOf(m) then (Trim(s.0), s.1) else ("", ContentOf(m))
  }

  // --------------------------------------------------------------- last query

  predicate IsToolResponse(content: string) {
    var t := Trim(content);
    StartsWith(t, "<tool_response>") && EndsWith(t, "</tool_response>")
  }

  /** A user message that is not a wrapped tool result. */
  predicate IsQuery(m: Message) {
    m.Message? && m.role.User? && !IsToolResponse(ContentOf(m))
  }

  predicate HasQuery(ms: seq<Message>) {
    exists i :: 0 <= i < |ms| && IsQuery(ms[i])
  }

  /** Index of the last genuine user query; without one, of the last message
      (0 for no messages at all). */
  function LastQuery(ms: seq<Message>): (q: nat)
    ensures HasQuery(ms) ==> q < |ms| && IsQuery(ms[q]) && forall i :: q < i < |ms| ==> !IsQuery(ms[i])
    ensures !HasQuery(ms) ==> q == if ms == [] then 0 else |ms| - 1
  {
    var q := LastSuch(ms, IsQuery);
    if q >= 0 then q else if ms == [] then 0 else |ms| - 1
  }

  method LastQueryIndex(ms: seq<Message>) returns (last: nat)
    ensures last == LastQuery(ms)
  {
    if ms == [] {
      return 0;
    }
    var multiStepTool := true;
    last := |ms| - 1;
    var i := |ms| - 1;
    while i >= 0
      invariant -1 <= i < |ms|
      invariant multiStepTool ==> last == |ms| - 1 && forall j :: i < j < |ms| ==> !IsQuery(ms[j])
      invariant !multiStepTool ==> last < |ms| && IsQuery(ms[last]) && forall j :: last < j < |ms| ==> !IsQuery(ms[j])
    {
      if multiStepTool && IsQuery(ms[i]) {
        multiStepTool := false;
        last := i;
      }
      i := i - 1;
    }
    assert !multiStepTool ==> HasQuery(ms);
  }

  // ---------------------------------------------------------- the system turn

  /** The fixed wording of the tool instructions; nothing depends on it. */
  datatype Wording = Wording(intro: string, format: string, forcedLead: string, forcedTail: string, closing: string)

  /** What a request fixes besides its messages: the dumped tools (none when
      "tools" is not a non-empty list) and the forced tool name ("" for none). */
  datatype Setup = Setup(tools: seq<string>, forced: string, wording: Wording)

  predicate IsSystem(m: Message) {
    m.Message? && (m.role.System? || m.role.Developer?)
  }

  function SystemText(ms: seq<Message>): string {
    if ms == [] || !IsSystem(ms[0]) then ""
    else if |ms| == 1 || !IsSystem(ms[1]) then ContentOf(ms[0])
    else ContentOf(ms[0]) + "\n" + ContentOf(ms[1])
  }

  // ------------------------------------------------------------------- pieces

  /** The prompt as the template writes it: turn markers, the text between
      them, and the think blocks it chooses to emit. */
  datatype Piece = Open(marker: string) | Say(text: string) | Think(reasoning: string) | Close

  const THINK_OPEN := "<think>\n"
  const THINK_CLOSE := "\n</think>\n\n"
  const TURN_END := "<|im_end|>\n"
  const SYSTEM_TURN := "<|im_start|>system\n"
  const USER_TURN := "<|im_start|>user\n"
  const TOOL_TURN := "<|im_start|>user"
  const TOOLS_CLOSE := "\n</tools>"
  const TOOL_OPEN := "\n<tool_response>\n"
  const TOOL_CLOSE := "\n</tool_response>"
  const ASSISTANT_TURN := "<|im_start|>assistant\n"

  function ShowPiece(p: Piece): string {
    match p
    case Open(marker) => marker
    case Say(text) => text
    case Think(reasoning) => THINK_OPEN + reasoning + THINK_CLOSE
    case Close => TURN_END
  }

  function Show(ps: seq<Piece>): string {
    if ps == [] then "" else Show(ps[..|ps| - 1]) + ShowPiece(ps[|ps| - 1])
  }

  lemma ShowSnoc(ps: seq<Piece>, p: Piece)
    ensures Show(ps + [p]) == Show(ps) + ShowPiece(p)
  {
    assert (ps + [p])[..|ps|] == ps;
  }

  lemma {:induction false} ShowConcat(a: seq<Piece>, b: seq<Piece>)
    ensures Show(a + b) == Show(a) + Show(b)
  {
    if b == [] {
      assert a + b == a;
    } else {
      var front, last := b[..|b| - 1], b[|b| - 1];
      ShowConcat(a, front);
      ShowSnoc(a + front, last);
      RegroupLast(a, b);
      Associative(Show(a), Show(front), ShowPiece(last));
    }
  }

  lemma RegroupLast(a: seq<Piece>, b: seq<Piece>)
    requires b != []
    ensures a + b == a + b[..|b| - 1] + [b[|b| - 1]]
  {
  }

  lemma Associative(a: string, b: string, c: string)
    ensures a + b + c == a + (b + c)
  {
  }

  function ToolPieces(tools: seq<string>): seq<Piece> {
    if tools == [] then [] else ToolPieces(tools[..|tools| - 1]) + [Say("\n" + tools[|tools| - 1])]
  }

  /** The opening system turn: tool instructions, merged system text, or both. */
  function SystemTurn(merged: string, setup: Setup): seq<Piece> {
    if setup.tools != [] then
      [Open(SYSTEM_TURN)] + [Say(setup.wording.intro)] + ToolPieces(setup.tools)
      + [Say(TOOLS_CLOSE)] + [Say(setup.wording.format)] + ForcedPieces(setup)
      + [Say(setup.wording.closing)]
      + (if merged != "" then [Say("\n\n" + merged)] else []) + [Close]
    else if merged != "" then [Open(SYSTEM_TURN)] + [Say(merged)] + [Close]
    else []
  }

  function ForcedPieces(setup: Setup): seq<Piece> {
    if setup.forced != "" then [Say(setup.wording.forcedLead + setup.forced + setup.wording.forcedTail)] else []
  }

  function SystemPieces(ms: seq<Message>, setup: Setup): seq<Piece> {
    SystemTurn(SystemText(ms), setup)
  }

  /** The tool calls of one assistant turn from some point on: `lead` precedes
      the next call that prints anything, a newline each later one. */
  function CallPieces(calls: seq<Call>, lead: seq<Piece>): seq<Piece> {
    if calls == [] then []
    else if CallText(calls[0]) == "" then CallPieces(calls[1..], lead)
    else lead + [Say(CallText(calls[0]))] + CallPieces(calls[1..], [Say("\n")])
  }

  function LeadAfter(content: string): seq<Piece> {
    if content != "" then [Say("\n\n")] else []
  }

  /** An assistant turn: marker, optional think block, answer text, then the
      calls, set off by a blank line if there is text. */
  function AssistantPieces(calls: seq<Call>, reasoning: string, content: string, showThink: bool): seq<Piece> {
    [Open(ASSISTANT_TURN)] + (if showThink then [Think(reasoning)] else [])
    + [Say(content)] + CallPieces(calls, LeadAfter(content)) + [Close]
  }

  /** A tool result; a run of them shares one user turn. */
  function ToolResultPieces(content: string, prevTool: bool, nextTool: bool): seq<Piece> {
    (if prevTool then [] else [Open(TOOL_TURN)])
    + [Say(TOOL_OPEN)] + [Say(content)] + [Say(TOOL_CLOSE)]
    + (if nextTool then [] else [Close])
  }

  /** What one message prints, given whether its neighbours are tool results
      and whether an assistant turn keeps its think block here. */
  function MessagePieces(m: Message, prevTool: bool, nextTool: bool, showThink: bool): seq<Piece> {
    if m.BadMessage? then []
    else match m.role
      case User => [Open(USER_TURN)] + [Say(ContentOf(m))] + [Close]
      case Assistant => AssistantPieces(m.calls, Spoken(m).0, Spoken(m).1, showThink)
      case Tool => ToolResultPieces(ContentOf(m), prevTool, nextTool)
      case _ => []
  }

  predicate ToolAt(ms: seq<Message>, i: int) {
    0 <= i < |ms| && ms[i].Message? && ms[i].role.Tool?
  }

  /** The pieces each message contributes when assistant turns after `cutoff`
      keep their think blocks. */
  function ItemPieces(ms: seq<Message>, cutoff: int): seq<seq<Piece>> {
    seq(|ms|, i requires 0 <= i < |ms| => PiecesAt(ms, i, cutoff))
  }

  function PiecesAt(ms: seq<Message>, i: nat, cutoff: int): seq<Piece>
    requires i < |ms|
  {
    MessagePieces(ms[i], ToolAt(ms, i - 1), ToolAt(ms, i + 1), i > cutoff)
  }

  function Flat(pss: seq<seq<Piece>>): seq<Piece> {
    if pss == [] then [] else Flat(pss[..|pss| - 1]) + pss[|pss| - 1]
  }

  function BodyPieces(ms: seq<Message>, setup: Setup): seq<Piece> {
    SystemPieces(ms, setup) + Flat(ItemPieces(ms, LastQuery(ms)))
  }

  /** The text message `i` contributes. */
  function ItemText(ms: seq<Message>, i: nat, cutoff: int): string
    requires i < |ms|
  {
    Show(PiecesAt(ms, i, cutoff))
  }

  function Texts(ms: seq<Message>, cutoff: int): seq<string> {
    seq(|ms|, i requires 0 <= i < |ms| => ItemText(ms, i, cutoff))
  }

  function Join(head: string, texts: seq<string>): string {
    if texts == [] then head else Join(head, texts[..|texts| - 1]) + texts[|texts| - 1]
  }

  /** The rendered history, without the generation suffix. */
  function Body(ms: seq<Message>, setup: Setup): string {
    Join(Show(SystemPieces(ms, setup)), Texts(ms, LastQuery(ms)))
  }

  lemma JoinSnoc(head: string, texts: seq<string>, n: nat)
    requires n < |texts|
    ensures Join(head, texts[..n + 1]) == Join(head, texts[..n]) + texts[n]
  {
    assert texts[..n + 1][..n] == texts[..n];
  }

  lemma {:induction false} JoinedIsShown(head: seq<Piece>, pss: seq<seq<Piece>>, texts: seq<string>)
    requires |pss| == |texts| && forall i :: 0 <= i < |pss| ==> texts[i] == Show(pss[i])
    ensures Join(Show(head), texts) == Show(head + Flat(pss))
  {
    if pss == [] {
      assert head + Flat(pss) == head;
    } else {
      var n := |pss| - 1;
      JoinedIsShown(head, pss[..n], texts[..n]);
      ShowStep(head, Flat(pss[..n]), pss[n]);
    }
  }

  lemma ShowStep(a: seq<Piece>, b: seq<Piece>, c: seq<Piece>)
    ensures Show(a + (b + c)) == Show(a + b) + Show(c)
  {
    ShowConcat(a + b, c);
    AssociativePieces(a, b, c);
  }

  lemma BodyIsShown(ms: seq<Message>, setup: Setup)
    ensures Body(ms, setup) == Show(BodyPieces(ms, setup))
  {
    TextsAreShown(ms, LastQuery(ms));
    JoinedIsShown(SystemPieces(ms, setup), ItemPieces(ms, LastQuery(ms)), Texts(ms, LastQuery(ms)));
  }

  lemma TextsAreShown(ms: seq<Message>, cutoff: int)
    ensures forall i :: 0 <= i < |ms| ==> Texts(ms, cutoff)[i] == Show(ItemPieces(ms, cutoff)[i])
  {
  }

  lemma AssociativePieces(a: seq<Piece>, b: seq<Piece>, c: seq<Piece>)
    ensures a + b + c == a + (b + c)
  {
  }

  function Suffix(thinking: bool): string {
    ASSISTANT_TURN + (if thinking then THINK_OPEN else THINK_OPEN + THINK_CLOSE)
  }

  function Prompt(ms: seq<Message>, setup: Setup, thinking: bool): string {
    Body(ms, setup) + Suffix(thinking)
  }

  // ------------------------------------------------------ the rendering loops

  method RenderToolLines(tools: seq<string>) returns (prompt: string)
    ensures prompt == Show(ToolPieces(tools))
  {
    prompt := "";
    for i := 0 to |tools|
      invariant prompt == Show(ToolPieces(tools[..i]))
    {
      assert tools[..i + 1][..i] == tools[..i];
      ShowSnoc(ToolPieces(tools[..i]), Say("\n" + tools[i]));
      prompt := prompt + ("\n" + tools[i]);
    }
    assert tools[..|tools|] == tools;
  }

  method RenderSystem(merged: string, setup: Setup) returns (prompt: string)
    ensures prompt == Show(SystemTurn(merged, setup))
  {
    if setup.tools != [] {
      prompt := RenderToolTurn(merged, setup);
    } else if merged != "" {
      prompt := SYSTEM_TURN + merged + TURN_END;
      ShowThree(Open(SYSTEM_TURN), Say(merged), Close);
    } else {
      prompt := "";
    }
  }

  method RenderToolTurn(merged: string, setup: Setup) returns (prompt: string)
    requires setup.tools != []
    ensures prompt == Show(SystemTurn(merged, setup))
  {
    ShowSystemTurn(merged, setup);
    prompt := SYSTEM_TURN + setup.wording.intro;
    var lines := RenderToolLines(setup.tools);
    prompt := prompt + lines;
    prompt := prompt + TOOLS_CLOSE;
    prompt := prompt + setup.wording.format;
    NothingAppended(prompt);
    if setup.forced != "" {
      prompt := prompt + (setup.wording.forcedLead + setup.forced + setup.wording.forcedTail);
    }
    prompt := prompt + setup.wording.closing;
    NothingAppended(prompt);
    if merged != "" {
      prompt := prompt + ("\n\n" + merged);
    }
    prompt := prompt + TURN_END;
  }

  lemma NothingAppended(s: string)
    ensures s + "" == s
  {
  }

  lemma ShowThree(a: Piece, b: Piece, c: Piece)
    ensures Show([a] + [b] + [c]) == ShowPiece(a) + ShowPiece(b) + ShowPiece(c)
  {
    ShowSnoc([a] + [b], c);
    ShowSnoc([a], b);
    ShowOne(a);
  }

  lemma ShowSystemTurn(merged: string, setup: Setup)
    requires setup.tools != []
    ensures Show(SystemTurn(merged, setup))
         == SYSTEM_TURN + setup.wording.intro + Show(ToolPieces(setup.tools)) + TOOLS_CLOSE
            + setup.wording.format
            + (if setup.forced != "" then setup.wording.forcedLead + setup.forced + setup.wording.forcedTail else "")
            + setup.wording.closing
            + (if merged != "" then "\n\n" + merged else "") + TURN_END
  {
    ShowNine(Open(SYSTEM_TURN), Say(setup.wording.intro), ToolPieces(setup.tools), Say(TOOLS_CLOSE),
             Say(setup.wording.format), ForcedPieces(setup), Say(setup.wording.closing),
             if merged != "" then [Say("\n\n" + merged)] else [], Close);
    ShowOne(Say(setup.wording.forcedLead + setup.forced + setup.wording.forcedTail));
    ShowOne(Say("\n\n" + merged));
  }

  lemma ShowOne(p: Piece)
    ensures Show([p]) == ShowPiece(p)
  {
    ShowSnoc([], p);
    assert [] + [p] == [p];
  }

  lemma ShowThen(a: seq<Piece>, b: seq<Piece>, c: seq<Piece>, d: seq<Piece>)
    ensures Show(a + b + c + d) == Show(a) + Show(b) + Show(c) + Show(d)
  {
    ShowConcat(a + b + c, d);
    ShowConcat(a + b, c);
    ShowConcat(a, b);
  }

  lemma ShowNine(a: Piece, b: Piece, c: seq<Piece>, d: Piece, e: Piece, f: seq<Piece>, g: Piece, h: seq<Piece>, i: Piece)
    ensures Show([a] + [b] + c + [d] + [e] + f + [g] + h + [i])
         == ShowPiece(a) + ShowPiece(b) + Show(c) + ShowPiece(d) + ShowPiece(e) + Show(f) + ShowPiece(g) + Show(h) + ShowPiece(i)
  {
    ShowThen([a], [b], c, [d]);
    ShowThen([a] + [b] + c + [d], [e], f, [g]);
    ShowConcat([a] + [b] + c + [d] + [e] + f + [g] + h, [i]);
    ShowConcat([a] + [b] + c + [d] + [e] + f + [g], h);
    ShowOne(a); ShowOne(b); ShowOne(d); ShowOne(e); ShowOne(g); ShowOne(i);
  }

  lemma ShowCallsStep(calls: seq<Call>, lead: seq<Piece>)
    requires calls != [] && CallText(calls[0]) != ""
    ensures Show(CallPieces(calls, lead))
         == Show(lead) + CallText(calls[0]) + Show(CallPieces(calls[1..], [Say("\n")]))
  {
    ShowConcat(lead + [Say(CallText(calls[0]))], CallPieces(calls[1..], [Say("\n")]));
    ShowConcat(lead, [Say(CallText(calls[0]))]);
    ShowOne(Say(CallText(calls[0])));
  }

  lemma ShowLead(content: string, first: bool)
    ensures Show(LeadAfter(content)) == if content != "" then "\n\n" else ""
    ensures Show([Say("\n")]) == "\n"
  {
    ShowOne(Say("\n\n"));
    ShowOne(Say("\n"));
  }

  /** The nested loop over a turn's tool calls. */
  method RenderCalls(calls: seq<Call>, content: string) returns (out: string)
    ensures out == Show(CallPieces(calls, LeadAfter(content)))
  {
    out := "";
    var first := true;
    ghost var lead := LeadAfter(content);
    ghost var goal := Show(CallPieces(calls, lead));
    for i := 0 to |calls|
      invariant lead == if first then LeadAfter(content) else [Say("\n")]
      invariant out + Show(CallPieces(calls[i..], lead)) == goal
    {
      assert calls[i..][1..] == calls[i + 1..];
      var rendered := RenderToolCall(calls[i]);
      if rendered != "" {
        ShowCallsStep(calls[i..], lead);
        ShowLead(content, first);
        AppendThree(out, Show(lead), rendered, Show(CallPieces(calls[i + 1..], [Say("\n")])));
        if first {
          if content != "" {
            out := out + "\n\n";
          }
        } else {
          out := out + "\n";
        }
        out := out + rendered;
        first, lead := false, [Say("\n")];
      }
    }
  }

  lemma AppendThree(out: string, a: string, b: string, c: string)
    ensures out + a + b + c == out + (a + b + c)
    ensures a == "" ==> out + a == out
  {
  }

  /** One iteration of the main loop: the text a message adds to the prompt. */
  method RenderMessage(m: Message, prevTool: bool, nextTool: bool, showThink: bool) returns (out: string)
    requires m.Message?
    ensures out == Show(MessagePieces(m, prevTool, nextTool, showThink))
  {
    out := "";
    var rendered := ReadContent(m.content);
    var content := Trim(rendered);
    match m.role
    case User =>
      out := USER_TURN + content + TURN_END;
      ShowThree(Open(USER_TURN), Say(content), Close);
    case Assistant =>
      var assistantContent, reasoningContent := content, "";
      if m.reasoning.Some? {
        reasoningContent := Trim(m.reasoning.value);
      } else {
        var splitReason, splitContent := SplitReasoning(assistantContent);
        if splitReason != "" || splitContent != assistantContent {
          reasoningContent := Trim(splitReason);
          assistantContent := splitContent;
        }
      }
      out := RenderAssistant(m.calls, reasoningContent, assistantContent, showThink);
    case Tool =>
      out := RenderTool(content, prevTool, nextTool);
    case _ =>
  }

  method RenderAssistant(calls: seq<Call>, reasoning: string, content: string, showThink: bool) returns (out: string)
    ensures out == Show(AssistantPieces(calls, reasoning, content, showThink))
  {
    ghost var think := Show(if showThink then [Think(reasoning)] else []);
    out := ASSISTANT_TURN;
    if showThink {
      out := out + (THINK_OPEN + reasoning + THINK_CLOSE);
    }
    assert out == ASSISTANT_TURN + think by {
      ShowAssistant(calls, reasoning, content, showThink);
    }
    out := out + content;
    var rendered := RenderCalls(calls, content);
    out := out + rendered + TURN_END;
    ShowAssistant(calls, reasoning, content, showThink);
  }

  lemma ShowAssistant(calls: seq<Call>, reasoning: string, content: string, showThink: bool)
    ensures Show(AssistantPieces(calls, reasoning, content, showThink))
         == ASSISTANT_TURN + Show(if showThink then [Think(reasoning)] else []) + content
            + Show(CallPieces(calls, LeadAfter(content))) + TURN_END
    ensures Show(if showThink then [Think(reasoning)] else [])
         == if showThink then THINK_OPEN + reasoning + THINK_CLOSE else ""
  {
    var think := if showThink then [Think(reasoning)] else [];
    var calling := CallPieces(calls, LeadAfter(content));
    ShowParts(Open(ASSISTANT_TURN), think, Say(content), calling, Close);
    ShowBlock(reasoning, showThink);
  }

  lemma ShowBlock(reasoning: string, showThink: bool)
    ensures Show(if showThink then [Think(reasoning)] else [])
         == if showThink then THINK_OPEN + reasoning + THINK_CLOSE else ""
  {
    ShowOne(Think(reasoning));
  }

  lemma ShowParts(a: Piece, b: seq<Piece>, c: Piece, d: seq<Piece>, e: Piece)
    ensures Show([a] + b + [c] + d + [e]) == ShowPiece(a) + Show(b) + ShowPiece(c) + Show(d) + ShowPiece(e)
  {
    ShowThen([a], b, [c], d);
    ShowConcat([a] + b + [c] + d, [e]);
    ShowOne(a);
    ShowOne(c);
    ShowOne(e);
  }

  method RenderTool(content: string, prevTool: bool, nextTool: bool) returns (out: string)
    ensures out == Show(ToolResultPieces(content, prevTool, nextTool))
  {
    out := "";
    if !prevTool {
      out := TOOL_TURN;
    }
    out := out + TOOL_OPEN + content + TOOL_CLOSE;
    NothingAppended(out);
    if !nextTool {
      out := out + TURN_END;
    }
    ShowToolResult(content, prevTool, nextTool);
  }

  lemma ShowToolResult(content: string, prevTool: bool, nextTool: bool)
    ensures Show(ToolResultPieces(content, prevTool, nextTool))
         == (if prevTool then "" else TOOL_TURN) + TOOL_OPEN + content + TOOL_CLOSE
            + (if nextTool then "" else TURN_END)
  {
    var open := if prevTool then [] else [Open(TOOL_TURN)];
    var close := if nextTool then [] else [Close];
    ShowThen(open, [Say(TOOL_OPEN)], [Say(content)], [Say(TOOL_CLOSE)]);
    ShowConcat(open + [Say(TOOL_OPEN)] + [Say(content)] + [Say(TOOL_CLOSE)], close);
    ShowOne(Open(TOOL_TURN));
    ShowOne(Say(TOOL_OPEN));
    ShowOne(Say(content));
    ShowOne(Say(TOOL_CLOSE));
    ShowOne(Close);
  }

  /** How many leading messages make up the system text: at most two. */
  function SystemCount(ms: seq<Message>): (n: nat)
    ensures n <= |ms| && forall i :: 0 <= i < n ==> IsSystem(ms[i])
    ensures n < |ms| && n < 2 ==> !IsSystem(ms[n])
  {
    if ms == [] || !IsSystem(ms[0]) then 0 else if |ms| == 1 || !IsSystem(ms[1]) then 1 else 2
  }

  /** Up to two leading system messages become one text. */
  method MergeSystem(ms: seq<Message>) returns (merged: string, numSys: nat)
    ensures merged == SystemText(ms)
    ensures numSys == SystemCount(ms)
  {
    numSys := 0;
    merged := "";
    if ms != [] && IsSystem(ms[0]) {
      merged := ReadContent(ms[0].content);
      merged := Trim(merged);
      numSys := 1;
      if |ms| > 1 && IsSystem(ms[1]) {
        var second := ReadContent(ms[1].content);
        merged := merged + "\n" + Trim(second);
        numSys := 2;
      }
    }
  }

  method RenderMessages(ms: seq<Message>, setup: Setup, enableThinking: bool) returns (prompt: string)
    ensures prompt == Prompt(ms, setup, enableThinking)
  {
    var merged, numSys := MergeSystem(ms);
    prompt := RenderSystem(merged, setup);
    ghost var head := prompt;
    var lastQueryIndex := LastQueryIndex(ms);
    for i := 0 to |ms|
      invariant prompt == Join(head, Texts(ms, lastQueryIndex)[..i])
    {
      JoinSnoc(head, Texts(ms, lastQueryIndex), i);
      var text := RenderItem(ms, i, numSys, i > lastQueryIndex);
      prompt := prompt + text;
    }
    assert Texts(ms, lastQueryIndex)[..|ms|] == Texts(ms, lastQueryIndex);
    prompt := prompt + Suffix(enableThinking);
  }

  /** One iteration of the main loop: leading system messages, and others that
      print nothing, contribute the empty text. */
  method RenderItem(ms: seq<Message>, i: nat, numSys: nat, showThink: bool) returns (text: string)
    requires i < |ms| && forall j :: 0 <= j < |ms| && j < numSys ==> IsSystem(ms[j])
    ensures text == Show(MessagePieces(ms[i], ToolAt(ms, i - 1), ToolAt(ms, i + 1), showThink))
  {
    text := "";
    if ms[i].Message? && i >= numSys && !IsSystem(ms[i]) {
      var prevTool := i > 0 && ms[i - 1].Message? && ms[i - 1].role.Tool?;
      var nextTool := i + 1 < |ms| && ms[i + 1].Message? && ms[i + 1].role.Tool?;
      text := RenderMessage(ms[i], prevTool, nextTool, showThink);
    }
  }
}
