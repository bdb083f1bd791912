/** The shape of every rendered prompt: balanced turns, and what is left of it
    once the think blocks are taken out. */
module ChatShape {
  import opened Wrappers
  import opened Text
  import opened ChatTemplate
  import opened ChatPrefix
  import Lists

  // ---------------------------------------------------------- balanced turns

  /** The reader of turn markers: is a turn open, and how many were opened? */
  datatype Reader = Reader(open: bool, turns: nat) | Unbalanced

  function Read1(st: Reader, p: Piece): Reader {
    match st
    case Unbalanced => Unbalanced
    case Reader(open, turns) =>
      match p
      case Open(_) => if open then Unbalanced else Reader(true, turns + 1)
      case Close => if open then Reader(false, turns) else Unbalanced
      case Say(_) => if open then st else Unbalanced
      case Think(_) => if open then st else Unbalanced
  }

  function Read(st: Reader, ps: seq<Piece>): Reader {
    if ps == [] then st else Read1(Read(st, ps[..|ps| - 1]), ps[|ps| - 1])
  }

  lemma {:induction false} ReadConcat(st: Reader, a: seq<Piece>, b: seq<Piece>)
    ensures Read(st, a + b) == Read(Read(st, a), b)
  {
    if b == [] {
      assert a + b == a;
    } else {
      assert (a + b)[..|a + b| - 1] == a + b[..|b| - 1];
      ReadConcat(st, a, b[..|b| - 1]);
    }
  }

  predicate AllText(ps: seq<Piece>) {
    forall i :: 0 <= i < |ps| ==> ps[i].Say? || ps[i].Think?
  }

  lemma {:induction false} ReadText(st: Reader, ps: seq<Piece>)
    requires st.Reader? && st.open && AllText(ps)
    ensures Read(st, ps) == st
  {
    if ps != [] {
      ReadText(st, ps[..|ps| - 1]);
    }
  }

  lemma {:induction false} CallPiecesText(calls: seq<Call>, lead: seq<Piece>)
    requires AllText(lead)
    ensures AllText(CallPieces(calls, lead))
  {
    if calls != [] {
      CallPiecesText(calls[1..], lead);
      CallPiecesText(calls[1..], [Say("\n")]);
    }
  }

  lemma ReadOne(st: Reader, p: Piece)
    ensures Read(st, [p]) == Read1(st, p)
  {
    assert [p][..0] == [];
  }

  /** A turn of any content: opened if it is not yet open, closed unless it goes on. */
  lemma ReadTurn(turns: nat, opening: bool, marker: string, inner: seq<Piece>, closing: bool)
    requires AllText(inner)
    ensures Read(Reader(!opening, turns), (if opening then [Open(marker)] else []) + inner + (if closing then [Close] else []))
         == Reader(!closing, if opening then turns + 1 else turns)
  {
    var st := Reader(!opening, turns);
    var first := if opening then [Open(marker)] else [];
    var last := if closing then [Close] else [];
    ReadConcat(st, first + inner, last);
    ReadConcat(st, first, inner);
    ReadOne(st, Open(marker));
    ReadText(Read(st, first), inner);
    ReadOne(Read(st, first), Close);
  }

  lemma ReadAssistant(calls: seq<Call>, reasoning: string, content: string, showThink: bool, turns: nat)
    ensures Read(Reader(false, turns), AssistantPieces(calls, reasoning, content, showThink)) == Reader(false, turns + 1)
  {
    var think := if showThink then [Think(reasoning)] else [];
    var calling := CallPieces(calls, LeadAfter(content));
    CallPiecesText(calls, LeadAfter(content));
    ReadTurn(turns, true, ASSISTANT_TURN, think + [Say(content)] + calling, true);
    RegroupTurn([Open(ASSISTANT_TURN)], think, [Say(content)], calling, [Close]);
  }

  lemma ReadTool(content: string, prevTool: bool, nextTool: bool, turns: nat)
    ensures Read(Reader(prevTool, turns), ToolResultPieces(content, prevTool, nextTool))
         == Reader(nextTool, if prevTool then turns else turns + 1)
  {
    var inner := [Say(TOOL_OPEN)] + [Say(content)] + [Say(TOOL_CLOSE)];
    ReadTurn(turns, !prevTool, TOOL_TURN, inner, !nextTool);
    RegroupTurn(if prevTool then [] else [Open(TOOL_TURN)], [Say(TOOL_OPEN)], [Say(content)],
                [Say(TOOL_CLOSE)], if nextTool then [] else [Close]);
  }

  lemma ReadMessage(m: Message, prevTool: bool, nextTool: bool, showThink: bool, turns: nat)
    ensures var tool := m.Message? && m.role.Tool?;
      Read(Reader(tool && prevTool, turns), MessagePieces(m, prevTool, nextTool, showThink))
      == Reader(tool && nextTool, turns + OwnTurns(m, prevTool))
  {
    if m.Message? {
      match m.role
      case User =>
        ReadTurn(turns, true, USER_TURN, [Say(ContentOf(m))], true);
      case Assistant =>
        ReadAssistant(m.calls, Spoken(m).0, Spoken(m).1, showThink, turns);
      case Tool =>
        ReadTool(ContentOf(m), prevTool, nextTool, turns);
      case _ =>
    }
  }

  lemma RegroupTurn(a: seq<Piece>, b: seq<Piece>, c: seq<Piece>, d: seq<Piece>, e: seq<Piece>)
    ensures a + b + c + d + e == a + (b + c + d) + e
  {
  }

  /** Turns a message opens: one for a user or assistant message, one for the
      first tool result of a run. */
  function OwnTurns(m: Message, prevTool: bool): nat {
    if m.BadMessage? then 0
    else if m.role.User? || m.role.Assistant? then 1
    else if m.role.Tool? && !prevTool then 1
    else 0
  }

  function CountRole(ms: seq<Message>, role: Role): nat {
    if ms == [] then 0
    else CountRole(ms[..|ms| - 1], role) + (if ms[|ms| - 1].Message? && ms[|ms| - 1].role == role then 1 else 0)
  }

  /** Maximal runs of consecutive tool messages, counted at their ends. */
  function ToolRuns(ms: seq<Message>): nat {
    if ms == [] then 0
    else
      ToolRuns(ms[..|ms| - 1])
      + (if ToolAt(ms, |ms| - 1) && !ToolAt(ms, |ms| - 2) then 1 else 0)
  }

  /** Turns opened by the first `n` messages. */
  function TurnsOf(ms: seq<Message>, n: nat): nat
    requires n <= |ms|
  {
    CountRole(ms[..n], User) + CountRole(ms[..n], Assistant) + ToolRuns(ms[..n])
  }

  lemma TurnsStep(ms: seq<Message>, n: nat)
    requires 0 < n <= |ms|
    ensures TurnsOf(ms, n) == TurnsOf(ms, n - 1) + OwnTurns(ms[n - 1], ToolAt(ms, n - 2))
  {
    Lists.TakeTake(ms, n);
    assert ToolAt(ms[..n], n - 1) == ToolAt(ms, n - 1) && ToolAt(ms[..n], n - 2) == ToolAt(ms, n - 2);
  }

  lemma ReadItem(ms: seq<Message>, i: nat, cutoff: int, turns: nat)
    requires i < |ms|
    ensures Read(Reader(ToolAt(ms, i - 1) && ToolAt(ms, i), turns), ItemPieces(ms, cutoff)[i])
         == Reader(ToolAt(ms, i) && ToolAt(ms, i + 1), turns + OwnTurns(ms[i], ToolAt(ms, i - 1)))
  {
    ReadMessage(ms[i], ToolAt(ms, i - 1), ToolAt(ms, i + 1), i > cutoff, turns);
  }

  lemma {:induction false} ReadFlat(items: seq<seq<Piece>>, states: seq<Reader>)
    requires |states| == |items| + 1
    requires forall i :: 0 <= i < |items| ==> Read(states[i], items[i]) == states[i + 1]
    ensures Read(states[0], Flat(items)) == states[|items|]
  {
    if items != [] {
      var n := |items| - 1;
      ReadFlat(items[..n], states[..n + 1]);
      ReadConcat(states[0], Flat(items[..n]), items[n]);
    }
  }

  /** The reader's state before message `i`. */
  function StateAt(ms: seq<Message>, base: nat, i: nat): Reader
    requires i <= |ms|
  {
    Reader(ToolAt(ms, i - 1) && ToolAt(ms, i), base + TurnsOf(ms, i))
  }

  lemma ReadHistory(ms: seq<Message>, base: nat, cutoff: int)
    ensures Read(Reader(false, base), Flat(ItemPieces(ms, cutoff))) == Reader(false, base + TurnsOf(ms, |ms|))
  {
    var items := ItemPieces(ms, cutoff);
    var states := seq(|ms| + 1, i requires 0 <= i <= |ms| => StateAt(ms, base, i));
    forall i | 0 <= i < |ms|
      ensures Read(states[i], items[i]) == states[i + 1]
    {
      ReadItem(ms, i, cutoff, base + TurnsOf(ms, i));
      TurnsStep(ms, i + 1);
    }
    ReadFlat(items, states);
    assert states[0] == Reader(false, base);
  }

  lemma {:induction false} ToolPiecesText(tools: seq<string>)
    ensures AllText(ToolPieces(tools))
  {
    if tools != [] {
      ToolPiecesText(tools[..|tools| - 1]);
    }
  }

  lemma RegroupSystem(a: seq<Piece>, b: seq<Piece>, c: seq<Piece>, d: seq<Piece>, e: seq<Piece>,
                      f: seq<Piece>, g: seq<Piece>, h: seq<Piece>, i: seq<Piece>)
    ensures a + b + c + d + e + f + g + h + i == a + (b + c + d + e + f + g + h) + i
  {
  }

  lemma ReadSystem(merged: string, setup: Setup)
    ensures Read(Reader(false, 0), SystemTurn(merged, setup))
         == Reader(false, if setup.tools != [] || merged != "" then 1 else 0)
  {
    if setup.tools != [] {
      ToolPiecesText(setup.tools);
      var inner := [Say(setup.wording.intro)] + ToolPieces(setup.tools)
        + [Say(TOOLS_CLOSE)] + [Say(setup.wording.format)] + ForcedPieces(setup)
        + [Say(setup.wording.closing)]
        + (if merged != "" then [Say("\n\n" + merged)] else []);
      ReadTurn(0, true, SYSTEM_TURN, inner, true);
      RegroupSystem([Open(SYSTEM_TURN)], [Say(setup.wording.intro)], ToolPieces(setup.tools), [Say(TOOLS_CLOSE)],
                    [Say(setup.wording.format)], ForcedPieces(setup), [Say(setup.wording.closing)],
                    if merged != "" then [Say("\n\n" + merged)] else [], [Close]);
    } else if merged != "" {
      ReadTurn(0, true, SYSTEM_TURN, [Say(merged)], true);
    }
  }

  /** Turn bracketing: in every rendered history the start and end markers
      alternate, all text lies inside a turn, no turn is left open, and there is
      one turn for the system text, each user message, each assistant message
      and each maximal run of tool results. */
  lemma TurnsBalanced(ms: seq<Message>, setup: Setup)
    ensures Body(ms, setup) == Show(BodyPieces(ms, setup))
    ensures Read(Reader(false, 0), BodyPieces(ms, setup))
         == Reader(false, (if setup.tools != [] || SystemText(ms) != "" then 1 else 0)
                          + CountRole(ms, User) + CountRole(ms, Assistant) + ToolRuns(ms))
  {
    BodyIsShown(ms, setup);
    Lists.TakeAll(ms);
    ReadSystem(SystemText(ms), setup);
    ReadConcat(Reader(false, 0), SystemPieces(ms, setup), Flat(ItemPieces(ms, LastQuery(ms))));
    ReadHistory(ms, Read(Reader(false, 0), SystemPieces(ms, setup)).turns, LastQuery(ms));
  }

  // ------------------------------------------------------ without think blocks

  function Erase(ps: seq<Piece>): seq<Piece> {
    if ps == [] then []
    else Erase(ps[..|ps| - 1]) + (if ps[|ps| - 1].Think? then [] else [ps[|ps| - 1]])
  }

  /** The rendered history with the think blocks the template emitted removed. */
  function ErasedBody(ms: seq<Message>, setup: Setup): string {
    Show(Erase(BodyPieces(ms, setup)))
  }

  lemma {:induction false} EraseConcat(a: seq<Piece>, b: seq<Piece>)
    ensures Erase(a + b) == Erase(a) + Erase(b)
  {
    if b == [] {
      assert a + b == a;
    } else {
      assert (a + b)[..|a + b| - 1] == a + b[..|b| - 1];
      EraseConcat(a, b[..|b| - 1]);
    }
  }

  predicate NoThink(ps: seq<Piece>) {
    forall i :: 0 <= i < |ps| ==> !ps[i].Think?
  }

  lemma {:induction false} EraseNothing(ps: seq<Piece>)
    requires NoThink(ps)
    ensures Erase(ps) == ps
  {
    if ps != [] {
      EraseNothing(ps[..|ps| - 1]);
    }
  }

  lemma {:induction false} CallPiecesNoThink(calls: seq<Call>, lead: seq<Piece>)
    requires NoThink(lead)
    ensures NoThink(CallPieces(calls, lead))
  {
    if calls != [] {
      CallPiecesNoThink(calls[1..], lead);
      CallPiecesNoThink(calls[1..], [Say("\n")]);
    }
  }

  lemma {:induction false} ToolPiecesNoThink(tools: seq<string>)
    ensures NoThink(ToolPieces(tools))
  {
    if tools != [] {
      ToolPiecesNoThink(tools[..|tools| - 1]);
    }
  }

  lemma EraseAssistant(calls: seq<Call>, reasoning: string, content: string, showThink: bool)
    ensures Erase(AssistantPieces(calls, reasoning, content, showThink)) == AssistantPieces(calls, reasoning, content, false)
  {
    var first := [Open(ASSISTANT_TURN)];
    var think := if showThink then [Think(reasoning)] else [];
    var inner := CallPieces(calls, LeadAfter(content));
    CallPiecesNoThink(calls, LeadAfter(content));
    var rest := [Say(content)] + inner + [Close];
    EraseConcat(first + think, rest);
    EraseConcat(first, think);
    EraseNothing(first);
    EraseNothing(rest);
    assert Erase([Think(reasoning)]) == [];
    RegroupErased(first, think, [Say(content)], inner, [Close]);
    RegroupErased(first, [], [Say(content)], inner, [Close]);
  }

  lemma RegroupErased(a: seq<Piece>, b: seq<Piece>, c: seq<Piece>, d: seq<Piece>, e: seq<Piece>)
    ensures a + b + c + d + e == a + b + (c + d + e)
  {
  }

  lemma EraseMessage(m: Message, prevTool: bool, nextTool: bool, showThink: bool)
    ensures Erase(MessagePieces(m, prevTool, nextTool, showThink)) == MessagePieces(m, prevTool, nextTool, false)
  {
    if m.Message? && m.role.Assistant? {
      EraseAssistant(m.calls, Spoken(m).0, Spoken(m).1, showThink);
    } else {
      EraseNothing(MessagePieces(m, prevTool, nextTool, showThink));
    }
  }

  lemma ItemAt(ms: seq<Message>, i: nat, cut: int)
    requires i < |ms|
    ensures ItemPieces(ms, cut)[i] == MessagePieces(ms[i], ToolAt(ms, i - 1), ToolAt(ms, i + 1), i > cut)
    ensures |ms| <= cut ==> ItemPieces(ms, cut)[i] == MessagePieces(ms[i], ToolAt(ms, i - 1), ToolAt(ms, i + 1), false)
  {
  }

  lemma EraseItem(ms: seq<Message>, i: nat, cut: int, cut': int)
    requires i < |ms| <= cut'
    ensures Erase(ItemPieces(ms, cut)[i]) == ItemPieces(ms, cut')[i]
  {
    ItemAt(ms, i, cut);
    ItemAt(ms, i, cut');
    EraseMessage(ms[i], ToolAt(ms, i - 1), ToolAt(ms, i + 1), i > cut);
  }

  lemma {:induction false} EraseFlat(a: seq<seq<Piece>>, b: seq<seq<Piece>>)
    requires |a| == |b| && forall i :: 0 <= i < |a| ==> Erase(a[i]) == b[i]
    ensures Erase(Flat(a)) == Flat(b)
  {
    if a != [] {
      var n := |a| - 1;
      EraseFlat(a[..n], b[..n]);
      EraseConcat(Flat(a[..n]), a[n]);
    }
  }

  lemma EraseSystem(merged: string, setup: Setup)
    ensures Erase(SystemTurn(merged, setup)) == SystemTurn(merged, setup)
  {
    ToolPiecesNoThink(setup.tools);
    NoThinkSystem(merged, setup);
    EraseNothing(SystemTurn(merged, setup));
  }

  lemma NoThinkConcat(a: seq<Piece>, b: seq<Piece>)
    requires NoThink(a) && NoThink(b)
    ensures NoThink(a + b)
  {
  }

  lemma NoThinkSystem(merged: string, setup: Setup)
    requires NoThink(ToolPieces(setup.tools))
    ensures NoThink(SystemTurn(merged, setup))
  {
    if setup.tools != [] {
      var p := [Open(SYSTEM_TURN)] + [Say(setup.wording.intro)];
      NoThinkConcat(p, ToolPieces(setup.tools));
      var q := p + ToolPieces(setup.tools);
      NoThinkConcat(q, [Say(TOOLS_CLOSE)]);
      NoThinkConcat(q + [Say(TOOLS_CLOSE)], [Say(setup.wording.format)]);
      var r := q + [Say(TOOLS_CLOSE)] + [Say(setup.wording.format)];
      NoThinkConcat(r, ForcedPieces(setup));
      NoThinkConcat(r + ForcedPieces(setup), [Say(setup.wording.closing)]);
    }
  }

  /** Erased text does not depend on the cutoff. */
  lemma ErasedIsUncut(ms: seq<Message>, setup: Setup, cut: nat)
    requires |ms| <= cut
    ensures ErasedBody(ms, setup) == Join(Show(SystemPieces(ms, setup)), Texts(ms, cut))
  {
    var a, b := ItemPieces(ms, LastQuery(ms)), ItemPieces(ms, cut);
    forall i | 0 <= i < |ms|
      ensures Erase(a[i]) == b[i]
    {
      EraseItem(ms, i, LastQuery(ms), cut);
    }
    EraseFlat(a, b);
    EraseSystem(SystemText(ms), setup);
    TextsAreShown(ms, cut);
    ErasedJoins(SystemPieces(ms, setup), Flat(a), b, Texts(ms, cut));
  }

  lemma ErasedJoins(head: seq<Piece>, flat: seq<Piece>, pss: seq<seq<Piece>>, texts: seq<string>)
    requires Erase(head) == head && Erase(flat) == Flat(pss)
    requires |pss| == |texts| && forall i :: 0 <= i < |pss| ==> texts[i] == Show(pss[i])
    ensures Show(Erase(head + flat)) == Join(Show(head), texts)
  {
    EraseConcat(head, flat);
    JoinedIsShown(head, pss, texts);
  }

  /** With the think blocks erased, a history stays a prefix of any extension
      exactly when the opening turn stays and no tool run straddles the join;
      otherwise the two texts differ at a shared position. */
  lemma ErasedAppend(ms: seq<Message>, more: seq<Message>, setup: Setup)
    ensures if SystemStays(ms, more, setup) && !Straddles(ms, more)
            then ErasedBody(ms, setup) <= ErasedBody(ms + more, setup)
            else Diverges(ErasedBody(ms, setup), ErasedBody(ms + more, setup))
  {
    var cut := |ms + more|;
    ErasedIsUncut(ms, setup, cut);
    ErasedIsUncut(ms + more, setup, cut);
    HeadedPrefix(ms, more, setup, cut, cut);
  }

  /** Nothing appended can still be merged into the opening system text. */
  predicate Settled(ms: seq<Message>) {
    |ms| >= 2 || (|ms| == 1 && !IsSystem(ms[0]))
  }

  /** The opening turn stays whatever is appended exactly if the history is settled,
      or if it has printed nothing so far. */
  lemma SettledExactly(ms: seq<Message>, setup: Setup)
    ensures (forall more :: SystemStays(ms, more, setup)) <==> Settled(ms) || (setup.tools == [] && SystemText(ms) == "")
  {
    if Settled(ms) {
      forall more: seq<Message>
        ensures SystemStays(ms, more, setup)
      {
        assert SystemText(ms + more) == SystemText(ms);
      }
    } else if setup.tools != [] || SystemText(ms) != "" {
      Unsettled(ms, setup);
    }
  }

  function SystemMessage(text: string): Message {
    Message(System, Plain(text), None, [])
  }

  lemma Unsettled(ms: seq<Message>, setup: Setup)
    requires !Settled(ms) && (setup.tools != [] || SystemText(ms) != "")
    ensures !SystemStays(ms, [SystemMessage("a")], setup)
  {
    var m := SystemMessage("a");
    TrimProperties("a");
    assert ContentOf(m) == "a";
    var all := ms + [m];
    if ms == [] {
      assert all == [m];
    } else {
      assert all[0] == ms[0] && all[1] == m;
      assert SystemText(all) == SystemText(ms) + "\n" + "a";
    }
  }

  /** A genuine query settles a history. */
  lemma QuerySettles(ms: seq<Message>)
    requires HasQuery(ms)
    ensures Settled(ms)
  {
    var i :| 0 <= i < |ms| && IsQuery(ms[i]);
    assert |ms| == 1 ==> i == 0;
  }

  /** A lone system message is merged with the one appended after it, and a history
      without messages, if there are tools, with any first system message. */
  lemma UnsettledSystem(setup: Setup, a: string)
    requires Trimmed(a) && a != ""
    ensures Diverges(ErasedBody([SystemMessage(a)], setup), ErasedBody([SystemMessage(a)] + [SystemMessage(a)], setup))
    ensures setup.tools != [] ==> Diverges(ErasedBody([], setup), ErasedBody([] + [SystemMessage(a)], setup))
  {
    var m := SystemMessage(a);
    TrimProperties(a);
    assert SystemText([m]) == a && SystemText([m] + [m]) == a + "\n" + a;
    assert [] + [m] == [m];
    ErasedAppend([m], [m], setup);
    ErasedAppend([], [m], setup);
  }
}
