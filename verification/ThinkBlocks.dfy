/** One assistant turn with its think block, and the same turn without it. */
module ThinkBlocks {
  import opened Text
  import opened ChatTemplate

  const TURN_MARK := "<|im_end|>"
  const CALL_MARK := "<tool_call>"

  /** A text that contains neither marker that can follow an answer. */
  ghost predicate Clean(text: string) {
    !Has(text, TURN_MARK) && !Has(text, CALL_MARK)
  }

  /** The answer is printed with the beginning of a think block: the tag and a line
      end, its own or the one in front of a call. */
  predicate Fakes(answer: string, calls: seq<Call>) {
    THINK_OPEN <= answer || (answer == OPEN_TAG && Show(CallPieces(calls, LeadAfter(answer))) != "")
  }

  /** Where the think block stood, its answer prints something else: the answer
      does not begin like one, or the reasoning holds no marker. */
  ghost predicate Telling(reasoning: string, answer: string, calls: seq<Call>) {
    !Fakes(answer, calls) || Clean(reasoning)
  }

  lemma TagBroken(tag: string, rest: string, content: string, tail: string)
    requires !(tag <= content)
    requires |content| < |tag| ==> tail != "" && tail[0] != tag[|content|]
    ensures Diverges(tag + rest, content + tail)
  {
    var k :| 0 <= k < |tag| && k <= |content| && (k < |content| ==> content[k] != tag[k]);
    assert (tag + rest)[k] == tag[k];
    assert (content + tail)[k] == if k < |content| then content[k] else tail[0];
  }

  lemma TagCharacters()
    ensures |OPEN_TAG| == 7 && OPEN_TAG[1] == 't' && OPEN_TAG[2] == 'h'
    ensures forall k :: 1 <= k < 7 ==> OPEN_TAG[k] != '<' && OPEN_TAG[k] != '\n'
  {
  }

  /** Where the think block was, an answer that does not itself begin with the
      think marker prints something else within seven characters. */
  lemma AnswerDiverges(content: string, calls: seq<Call>, rest: string)
    requires !(OPEN_TAG <= content)
    ensures Diverges(OPEN_TAG + rest, content + (Show(CallPieces(calls, LeadAfter(content))) + TURN_END))
  {
    var tail := Show(CallPieces(calls, LeadAfter(content)));
    CallsBegin(calls, LeadAfter(content));
    ShowLead(content, true);
    TagCharacters();
    AfterAnswer(content, tail);
    if content == "" {
      assert content + (tail + TURN_END) == tail + TURN_END;
      assert (OPEN_TAG + rest)[1] == 't' && (OPEN_TAG + rest)[2] == 'h';
    } else {
      TagBroken(OPEN_TAG, rest, content, tail + TURN_END);
    }
  }

  ghost predicate BeginsWithCall(t: string, lead: string) {
    && lead <= t && |t| > |lead| + 2
    && t[|lead|] == '<' && t[|lead| + 2] == 'o'
  }

  lemma AfterAnswer(content: string, tail: string)
    requires tail == "" || BeginsWithCall(tail, if content != "" then "\n\n" else "")
    ensures var t := tail + TURN_END;
      && |t| > 3
      && (content != "" ==> t[0] == '\n' || t[0] == '<')
      && (content == "" ==> t[1] == '|' || t[2] == 'o')
  {
  }

  lemma {:induction false} CallsBegin(calls: seq<Call>, lead: seq<Piece>)
    ensures var t := Show(CallPieces(calls, lead)); t == "" || BeginsWithCall(t, Show(lead))
  {
    if calls != [] {
      if CallText(calls[0]) == "" {
        CallsBegin(calls[1..], lead);
      } else {
        ShowCallsStep(calls, lead);
        CallTextBegins(calls[0]);
      }
    }
  }

  lemma CallTextBegins(call: Call)
    requires CallText(call) != ""
    ensures var t := CallText(call); |t| > 2 && t[0] == '<' && t[2] == 'o'
  {
    CallHeadBegins(call.name);
  }

  lemma CallHeadBegins(name: string)
    ensures var h := CallHead(name); |h| > 2 && h[0] == '<' && h[2] == 'o'
  {
  }

  /** What an answer is followed by: the end of the turn or its first call. */
  lemma TailMark(content: string, calls: seq<Call>) returns (m: string)
    requires content != ""
    ensures m <= Show(CallPieces(calls, LeadAfter(content))) + TURN_END
    ensures m == TURN_MARK || m == "\n\n" + CALL_MARK
  {
    var tail := Show(CallPieces(calls, LeadAfter(content)));
    CallsMark(calls, LeadAfter(content));
    ShowLead(content, true);
    if tail == "" {
      m := TURN_MARK;
      assert tail + TURN_END == TURN_MARK + "\n";
    } else {
      m := "\n\n" + CALL_MARK;
      PrefixStays(m, tail, TURN_END);
    }
  }

  lemma PrefixStays(m: string, a: string, b: string)
    requires m <= a
    ensures m <= a + b
  {
  }

  lemma {:induction false} CallsMark(calls: seq<Call>, lead: seq<Piece>)
    ensures var t := Show(CallPieces(calls, lead)); t == "" || Show(lead) + CALL_MARK <= t
  {
    if calls != [] {
      if CallText(calls[0]) == "" {
        CallsMark(calls[1..], lead);
      } else {
        ShowCallsStep(calls, lead);
        CallTextMark(calls[0]);
        MarkAfter(Show(lead), CALL_MARK, CallText(calls[0]), Show(CallPieces(calls[1..], [Say("\n")])));
      }
    }
  }

  lemma MarkAfter(lead: string, m: string, text: string, rest: string)
    requires m <= text
    ensures lead + m <= lead + text + rest
  {
  }

  lemma CallTextMark(call: Call)
    requires CallText(call) != ""
    ensures CALL_MARK <= CallText(call)
  {
    CallHeadMark(call.name);
    PrefixStays(CALL_MARK, CallHead(call.name), PrintParams(PrintedArgs(call.args)));
    PrefixStays(CALL_MARK, CallHead(call.name) + PrintParams(PrintedArgs(call.args)), CALL_TAIL);
  }

  lemma CallHeadMark(name: string)
    ensures CALL_MARK <= CallHead(name)
  {
    assert "<tool_call>\n<function=" == CALL_MARK + "\n<function=";
  }

  /** What is printed from inside a think block up to the tag its answer begins
      with, `w` being white space in front of the answer. */
  function Fence(r: string, close: string, w: string, open: string): string {
    "" + ['\n'] + r + ['\n'] + close + ['\n'] + "" + ['\n'] + (w + open)
  }

  lemma FenceClean(r: string, close: string, w: string, open: string, m: string)
    requires m != "" && '\n' !in m && m[0] !in ASCII_SPACE && |close| < |m| && |open| < |m|
    requires Blank(w) && !Has(r, m)
    ensures !Has(Fence(r, close, w, open) + Fence(r, close, w, open), m)
  {
    var f := Fence(r, close, w, open);
    BlankThenShort(w, open, m);
    NoAcross("", '\n', r, m);
    AppendFence("" + ['\n'] + r, close, w + open, m);
    NoAcross(f, '\n', r, m);
    AppendFence(f + ['\n'] + r, close, w + open, m);
    Twice(r, close, w + open);
  }

  lemma Twice(r: string, close: string, t: string)
    ensures var f := "" + ['\n'] + r + ['\n'] + close + ['\n'] + "" + ['\n'] + t;
      f + f == f + ['\n'] + r + ['\n'] + close + ['\n'] + "" + ['\n'] + t
  {
  }

  lemma AppendFence(s: string, close: string, t: string, m: string)
    requires m != "" && '\n' !in m && |close| < |m| && !Has(s, m) && !Has(t, m)
    ensures !Has(s + ['\n'] + close + ['\n'] + "" + ['\n'] + t, m)
  {
    NoAcross(s, '\n', close, m);
    NoAcross(s + ['\n'] + close, '\n', "", m);
    NoAcross(s + ['\n'] + close + ['\n'] + "", '\n', t, m);
  }

  lemma BlankThenShort(w: string, open: string, m: string)
    requires Blank(w) && m != "" && m[0] !in ASCII_SPACE && |open| < |m|
    ensures !Has(w + open, m)
  {
    var s := w + open;
    forall i
      ensures !OccursAt(s, m, i)
    {
      if 0 <= i && i + |m| <= |s| {
        assert s[i..i + |m|][0] == s[i] == w[i];
      }
    }
  }

  lemma MarkFacts()
    ensures |OPEN_TAG| == 7 && |CLOSE_TAG| == 8
    ensures |TURN_MARK| == 10 && '\n' !in TURN_MARK && TURN_MARK[0] !in ASCII_SPACE
    ensures |CALL_MARK| == 11 && '\n' !in CALL_MARK && CALL_MARK[0] !in ASCII_SPACE
  {
  }

  /** A think block and the answer it belongs to, against that answer alone. */
  lemma BlockDiverges(r: string, w: string, content: string, x: string, calls: seq<Call>)
    requires Blank(w) && Telling(r, content, calls)
    ensures Diverges(THINK_OPEN + r + THINK_CLOSE + (w + content + x),
                     content + (Show(CallPieces(calls, LeadAfter(content))) + TURN_END))
  {
    ThinkMarks();
    if OPEN_TAG <= content && !Fakes(content, calls) {
      TagOnly(content, calls, r + ("\n" + CLOSE_TAG + "\n\n") + (w + content + x));
      RegroupOpen(OPEN_TAG, r, "\n" + CLOSE_TAG + "\n\n", w + content + x);
      Associative("\n", r, "\n" + CLOSE_TAG + "\n\n");
      Associative("\n", r + ("\n" + CLOSE_TAG + "\n\n"), w + content + x);
    } else if OPEN_TAG <= content {
      var d := content[|OPEN_TAG|..];
      assert content == OPEN_TAG + d;
      var tail := Show(CallPieces(calls, LeadAfter(content))) + TURN_END;
      MarkFacts();
      var m := TailMark(content, calls);
      var f := Fence(r, CLOSE_TAG, w, OPEN_TAG);
      FenceLacks(r, w, m);
      FenceDiverges(f, d, x, tail, m);
      DivergesAfter(OPEN_TAG, f + (d + x), d + tail);
      RegroupFence(OPEN_TAG, r, CLOSE_TAG, w, d, x);
      Associative(OPEN_TAG, d, tail);
    } else {
      AnswerDiverges(content, calls, "\n" + r + ("\n" + CLOSE_TAG + "\n\n") + (w + content + x));
      RegroupOpen(OPEN_TAG, r, "\n" + CLOSE_TAG + "\n\n", w + content + x);
    }
  }

  /** The tag alone, without a line end behind it, is no think block. */
  lemma TagOnly(content: string, calls: seq<Call>, rest: string)
    requires OPEN_TAG <= content && !Fakes(content, calls)
    ensures Diverges(OPEN_TAG + ("\n" + rest), content + (Show(CallPieces(calls, LeadAfter(content))) + TURN_END))
  {
    var n, tail := |OPEN_TAG|, Show(CallPieces(calls, LeadAfter(content))) + TURN_END;
    ThinkMarks();
    if |content| > n {
      assert content[n] != '\n' by {
        NextIsNewline(content, OPEN_TAG);
      }
      assert (content + tail)[n] == content[n];
    } else {
      assert content == OPEN_TAG;
      assert tail == TURN_END;
      assert (content + tail)[n] == tail[0];
    }
    assert (OPEN_TAG + ("\n" + rest))[n] == '\n';
  }

  lemma NextIsNewline(content: string, tag: string)
    requires tag <= content && |content| > |tag| && !(tag + "\n" <= content)
    ensures content[|tag|] != '\n'
  {
    assert content[..|tag| + 1] == tag + [content[|tag|]];
  }

  lemma ThinkMarks()
    ensures THINK_OPEN == OPEN_TAG + "\n" && THINK_CLOSE == "\n" + CLOSE_TAG + "\n\n"
  {
  }

  lemma FenceLacks(r: string, w: string, m: string)
    requires Clean(r) && Blank(w) && (m == TURN_MARK || m == "\n\n" + CALL_MARK)
    ensures var f := Fence(r, CLOSE_TAG, w, OPEN_TAG); 0 < |m| <= |f| && !Has(f + f, m)
  {
    MarkFacts();
    var f := Fence(r, CLOSE_TAG, w, OPEN_TAG);
    if m == TURN_MARK {
      FenceClean(r, CLOSE_TAG, w, OPEN_TAG, TURN_MARK);
    } else {
      FenceClean(r, CLOSE_TAG, w, OPEN_TAG, CALL_MARK);
      HasSuffix(f + f, "\n\n", CALL_MARK);
    }
  }

  lemma RegroupFence(o: string, r: string, c: string, w: string, d: string, x: string)
    ensures (o + "\n") + r + ("\n" + c + "\n\n") + (w + (o + d) + x) == o + (Fence(r, c, w, o) + (d + x))
  {
  }

  lemma RegroupOpen(o: string, r: string, c: string, x: string)
    ensures (o + "\n") + r + c + x == o + ("\n" + r + c + x)
  {
  }

  /** The same assistant turn with and without its think block. */
  lemma AssistantDiverges(calls: seq<Call>, reasoning: string, content: string)
    requires Telling(reasoning, content, calls)
    ensures Diverges(Show(AssistantPieces(calls, reasoning, content, true)),
                     Show(AssistantPieces(calls, reasoning, content, false)))
  {
    ShowAssistant(calls, reasoning, content, true);
    ShowAssistant(calls, reasoning, content, false);
    var shown := Show(CallPieces(calls, LeadAfter(content)));
    NothingAppended(ASSISTANT_TURN);
    BlockDiverges(reasoning, "", content, shown + TURN_END, calls);
    DivergesAfter(ASSISTANT_TURN, THINK_OPEN + reasoning + THINK_CLOSE + ("" + content + (shown + TURN_END)),
                  content + (shown + TURN_END));
    RegroupThink(ASSISTANT_TURN, THINK_OPEN, reasoning, THINK_CLOSE, content, shown, TURN_END);
    RegroupAnswer(ASSISTANT_TURN, content, shown, TURN_END);
  }

  lemma RegroupThink(a: string, b: string, c: string, d: string, e: string, f: string, g: string)
    ensures a + (b + c + d) + e + f + g == a + (b + c + d + ("" + e + (f + g)))
  {
  }

  lemma RegroupAnswer(a: string, b: string, c: string, d: string)
    ensures a + b + c + d == a + (b + (c + d))
  {
  }
}
