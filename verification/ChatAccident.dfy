/** Conversations whose texts agree although a think block was dropped. */
module ChatAccident {
  import opened Wrappers
  import opened Text
  import opened ChatTemplate
  import opened ChatPrefix

  function UserMessage(text: string): Message {
    Message(User, Plain(text), None, [])
  }

  /** What the condition on the answer and its reasoning is for: when the answer
      begins with the tag and the reasoning spells out the end of the turn, a
      dropped think block and an ill-chosen query can print the same text. */
  lemma AgreesByAccident(q: string, x: string, y: string, setup: Setup)
    requires Trimmed(x) && x != "" && Trimmed(y) && y != ""
    requires IsQuery(UserMessage(q)) && IsQuery(UserMessage(y + THINK_CLOSE + (THINK_OPEN + x)))
    ensures var answer := THINK_OPEN + x;
            var ms := Answered(q, x + TURN_END + USER_TURN + y, answer);
            var more := [UserMessage(y + THINK_CLOSE + answer)];
      HasQuery(ms) && HasQuery(more) && EmitsThink(ms) && Body(ms, setup) == Body(ms + more, setup)
  {
    var answer, reasoning := THINK_OPEN + x, x + TURN_END + USER_TURN + y;
    var query := y + THINK_CLOSE + answer;
    TrimEnds(THINK_OPEN, x);
    TrimEnds(x + TURN_END + USER_TURN, y);
    TrimEnds(y + THINK_CLOSE + THINK_OPEN, x);
    Associative(y + THINK_CLOSE, THINK_OPEN, x);
    PrintsTwo(q, reasoning, answer, setup);
    PrintsThree(q, reasoning, answer, query, setup);
    var head := Show(SystemPieces([UserMessage(q)], setup)) + ItemText([UserMessage(q)], 0, 0);
    SamePrint(head, ASSISTANT_TURN, THINK_OPEN, x, TURN_END, USER_TURN, y, THINK_CLOSE);
  }

  function Answered(q: string, reasoning: string, answer: string): seq<Message> {
    [UserMessage(q), Message(Assistant, Plain(answer), Some(reasoning), [])]
  }

  lemma AnswerText(ms: seq<Message>, i: nat, cut: int, reasoning: string, answer: string)
    requires i < |ms| && ms[i] == Message(Assistant, Plain(answer), Some(reasoning), [])
    requires Trimmed(reasoning) && Trimmed(answer)
    ensures ItemText(ms, i, cut)
         == ASSISTANT_TURN + (if i > cut then THINK_OPEN + reasoning + THINK_CLOSE else "") + answer + "" + TURN_END
  {
    TrimProperties(answer);
    TrimProperties(reasoning);
    ShowAssistant([], reasoning, answer, i > cut);
  }

  lemma UserText(ms: seq<Message>, i: nat, cut: int, text: string)
    requires i < |ms| && ms[i] == UserMessage(text) && Trimmed(text)
    ensures ItemText(ms, i, cut) == USER_TURN + text + TURN_END
  {
    TrimProperties(text);
    ShowThree(Open(USER_TURN), Say(text), Close);
  }

  lemma PrintsTwo(q: string, reasoning: string, answer: string, setup: Setup)
    requires IsQuery(UserMessage(q)) && Trimmed(reasoning) && Trimmed(answer)
    ensures var ms := Answered(q, reasoning, answer);
      && HasQuery(ms) && LastQuery(ms) == 0 && EmitsThink(ms)
      && Body(ms, setup) == Show(SystemPieces([UserMessage(q)], setup)) + ItemText([UserMessage(q)], 0, 0)
                            + (ASSISTANT_TURN + (THINK_OPEN + reasoning + THINK_CLOSE) + answer + "" + TURN_END)
  {
    var ms := Answered(q, reasoning, answer);
    assert IsQuery(ms[0]) && AssistantAt(ms, 1);
    AnswerText(ms, 1, 0, reasoning, answer);
    JoinTexts(Show(SystemPieces(ms, setup)), Texts(ms, 0));
    FirstTurn(q, ms, setup, 0);
  }

  /** The opening query prints the same whatever follows it. */
  lemma FirstTurn(q: string, ms: seq<Message>, setup: Setup, cut: int)
    requires IsQuery(UserMessage(q)) && ms != [] && ms[0] == UserMessage(q)
    ensures SystemPieces(ms, setup) == SystemPieces([UserMessage(q)], setup)
    ensures ItemText(ms, 0, cut) == ItemText([UserMessage(q)], 0, 0)
  {
    assert IsQuery([ms[0]][0]);
    SystemSettled([ms[0]], ms[1..], setup);
    assert [ms[0]] + ms[1..] == ms;
    SameItem([ms[0]], ms, 0, 0, cut);
  }

  lemma LastOfThree(q: string, reasoning: string, answer: string, u: string)
    requires IsQuery(UserMessage(u))
    ensures LastQuery(Answered(q, reasoning, answer) + [UserMessage(u)]) == 2
  {
    assert IsQuery((Answered(q, reasoning, answer) + [UserMessage(u)])[2]);
  }

  lemma PrintsThree(q: string, reasoning: string, answer: string, u: string, setup: Setup)
    requires IsQuery(UserMessage(q)) && IsQuery(UserMessage(u))
    requires Trimmed(reasoning) && Trimmed(answer) && Trimmed(u)
    ensures var ms := Answered(q, reasoning, answer) + [UserMessage(u)];
      Body(ms, setup) == Show(SystemPieces([UserMessage(q)], setup)) + ItemText([UserMessage(q)], 0, 0)
                         + (ASSISTANT_TURN + "" + answer + "" + TURN_END) + (USER_TURN + u + TURN_END)
  {
    var ms := Answered(q, reasoning, answer) + [UserMessage(u)];
    LastOfThree(q, reasoning, answer, u);
    AnswerText(ms, 1, 2, reasoning, answer);
    UserText(ms, 2, 2, u);
    JoinTexts(Show(SystemPieces(ms, setup)), Texts(ms, 2));
    FirstTurn(q, ms, setup, 2);
  }

  lemma JoinTexts(head: string, ts: seq<string>)
    requires 2 <= |ts| <= 3
    ensures Join(head, ts) == if |ts| == 2 then head + ts[0] + ts[1] else head + ts[0] + ts[1] + ts[2]
  {
    JoinSnoc(head, ts, 0);
    JoinSnoc(head, ts, 1);
    assert ts[..0] == [];
    if |ts| == 2 {
      assert ts[..2] == ts;
    } else {
      JoinSnoc(head, ts, 2);
      assert ts[..3] == ts;
    }
  }

  lemma SamePrint(h: string, a: string, o: string, x: string, e: string, u: string, y: string, c: string)
    ensures h + (a + (o + (x + e + u + y) + c) + (o + x) + "" + e) == h + (a + "" + (o + x) + "" + e) + (u + (y + c + (o + x)) + e)
  {
  }
}
