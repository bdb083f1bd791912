/** Replies whose reasoning stands inline in their content, and the same replies
    with their reasoning sent separately. */
module InlineReasoning {
  import opened Wrappers
  import opened Text
  import opened ChatTemplate
  import opened ThinkBlocks
  import opened ChatPrefix
  import opened ChatRuns
  import opened ChatReasoning
  import Lists

  /** A history entry whose reasoning stands inline in its content. */
  function InlineReply(reasoning: string, answer: string, calls: seq<Call>): Message {
    Message(Assistant, Plain(Inline(reasoning, answer)), None, calls)
  }

  function StripRightSpace(s: string): string {
    StripRight(s, ASCII_SPACE)
  }

  /** White space behind a text that ends in something else is stripped with it. */
  lemma {:induction false} StripBehind(x: string, w: string)
    requires x != "" && x[|x| - 1] !in ASCII_SPACE && Blank(w)
    ensures StripRightSpace(x + w) == x
  {
    var s := x + w;
    if w == "" {
      assert s == x;
    } else {
      var n := |w| - 1;
      StripBehind(x, w[..n]);
      assert s[..|s| - 1] == x + w[..n];
      assert s[|s| - 1] == w[n];
    }
  }

  /** Trimming an inline reply strips its answer at the end, or, if that is blank,
      everything behind the closing tag. */
  lemma TrimInline(reasoning: string, answer: string)
    ensures Trim(Inline(reasoning, answer))
         == OPEN_TAG + (("\n" + reasoning) + ['\n'] + CLOSE_TAG
                        + (if StripRightSpace(answer) != "" then "\n\n" + StripRightSpace(answer) else ""))
  {
    TagFacts();
    var a := StripRightSpace(answer);
    var x := OPEN_TAG + (("\n" + reasoning) + ['\n'] + CLOSE_TAG + (if a != "" then "\n\n" + a else ""));
    var w := RightPart(answer);
    RegroupInline(OPEN_TAG, reasoning, CLOSE_TAG, answer);
    if a != "" {
      StripRightProperties(answer, ASCII_SPACE);
      InlineEnds(OPEN_TAG, reasoning, CLOSE_TAG, a, w);
      TrimBehind(x, w);
    } else {
      assert answer == w;
      InlineEndsBlank(OPEN_TAG, reasoning, CLOSE_TAG, w);
      TrimBehind(x, "\n\n" + w);
    }
  }

  lemma InlineEnds(o: string, r: string, c: string, a: string, w: string)
    ensures o + (("\n" + r) + ['\n'] + c + ("\n\n" + (a + w))) == o + (("\n" + r) + ['\n'] + c + ("\n\n" + a)) + w
    ensures a != "" ==> var x := o + (("\n" + r) + ['\n'] + c + ("\n\n" + a)); x[|x| - 1] == a[|a| - 1]
    ensures o != "" ==> (o + (("\n" + r) + ['\n'] + c + ("\n\n" + a)))[0] == o[0]
  {
  }

  lemma InlineEndsBlank(o: string, r: string, c: string, w: string)
    ensures o + (("\n" + r) + ['\n'] + c + ("\n\n" + w)) == o + (("\n" + r) + ['\n'] + c + "") + ("\n\n" + w)
    ensures c != "" ==> var x := o + (("\n" + r) + ['\n'] + c + ""); x[|x| - 1] == c[|c| - 1]
    ensures o != "" ==> (o + (("\n" + r) + ['\n'] + c + ""))[0] == o[0]
  {
  }

  lemma TrimBehind(x: string, w: string)
    requires x != "" && x[0] !in ASCII_SPACE && x[|x| - 1] !in ASCII_SPACE && Blank(w)
    ensures Trim(x + w) == x
  {
    assert (x + w)[0] == x[0];
    StripBehind(x, w);
  }

  /** What the splitter leaves of the answer: only newlines go from its front. */
  function InlineAnswer(answer: string): string {
    StripLeft(StripRightSpace(answer), NEWLINES)
  }

  /** The reasoning and the answer an inline reply is printed with. */
  lemma SpokenInline(reasoning: string, answer: string, calls: seq<Call>)
    ensures var spoken := Spoken(InlineReply(reasoning, answer, calls));
      if Has(reasoning, CLOSE_TAG) then !Has(spoken.0, CLOSE_TAG) && |spoken.1| > |Trim(answer)|
      else spoken == (Trim(reasoning), InlineAnswer(answer))
  {
    var m := InlineReply(reasoning, answer, calls);
    var a := StripRightSpace(answer);
    assert RenderContent(m.content) == Inline(reasoning, answer);
    TrimInline(reasoning, answer);
    var after := if a != "" then "\n\n" + a else "";
    SplitTagged(reasoning, after);
    StripNewlines(a);
    StripNewlines("");
    SplitShorter(ContentOf(m));
    if Has(reasoning, CLOSE_TAG) {
      SplitTagFree(ContentOf(m));
      OpenTagFacts();
      StripBoth(answer);
      StripLeftProperties(a, ASCII_SPACE);
    }
  }

  /** A text that begins with the tag is always split. */
  lemma SplitShorter(text: string)
    requires OPEN_TAG <= text
    ensures Split(text).1 != text
  {
    OpenTagFacts();
    assert OccursAt(text, OPEN_TAG, 0);
    assert Find(text, OPEN_TAG, 0) == 0;
    assert Split(text) == SplitAfter(text, |OPEN_TAG|, CLOSE_TAG);
    AfterShorter(text, |OPEN_TAG|, CLOSE_TAG);
  }

  lemma OpenTagFacts()
    ensures OPEN_TAG != ""
  {
  }

  lemma AfterShorter(text: string, from: nat, close: string)
    requires 0 < from <= |text|
    ensures |SplitAfter(text, from, close).1| < |text|
  {
    var end := Find(text, close, from);
    if end >= 0 {
      AfterFound(text, from, close, end);
      StripLeftProperties(text[end + |close|..], NEWLINES);
    } else {
      NoneFound(text, from, close);
    }
  }

  /** What the splitter takes for reasoning never has a closing tag in it. */
  lemma SplitTagFree(text: string)
    ensures !Has(Trim(Split(text).0), CLOSE_TAG)
  {
    CloseTagFacts();
    var start := Find(text, OPEN_TAG, 0);
    if start < 0 {
      PartsLack("", CLOSE_TAG);
    } else {
      var from := start + |OPEN_TAG|;
      assert Split(text) == SplitAfter(text, from, CLOSE_TAG);
      var end := Find(text, CLOSE_TAG, from);
      if end < 0 {
        NoneFound(text, from, CLOSE_TAG);
        BeforeFound(text, CLOSE_TAG, from, |text|);
        assert text[from..|text|] == text[from..];
        PartsLack(text[from..], CLOSE_TAG);
      } else {
        AfterFound(text, from, CLOSE_TAG, end);
        BeforeFound(text, CLOSE_TAG, from, end);
        PartsLack(text[from..end], CLOSE_TAG);
      }
    }
  }

  /** Before the first occurrence there is none. */
  lemma BeforeFound(text: string, pat: string, from: nat, end: nat)
    requires from <= end <= |text| && pat != "" && (Find(text, pat, from) == end || Find(text, pat, from) < 0)
    ensures !Has(text[from..end], pat)
  {
    forall i
      ensures !OccursAt(text[from..end], pat, i)
    {
      if 0 <= i && i + |pat| <= end - from {
        assert !OccursAt(text, pat, from + i);
        Lists.SliceOfSlice(text, from, end, i, i + |pat|);
      }
    }
  }

  lemma PartLacks(s: string, a: nat, b: nat, pat: string)
    requires a <= b <= |s| && !Has(s, pat)
    ensures !Has(s[a..b], pat)
  {
    forall i
      ensures !OccursAt(s[a..b], pat, i)
    {
      if 0 <= i && i + |pat| <= b - a {
        assert !OccursAt(s, pat, a + i);
        Lists.SliceOfSlice(s, a, b, i, i + |pat|);
      }
    }
  }

  /** Nor has what is left when line ends and white space are dropped. */
  lemma PartsLack(s: string, pat: string)
    requires pat != "" && (s == "" || !Has(s, pat))
    ensures !Has(Trim(DropTrailingNewline(DropLeadingNewline(s))), pat) && !Has(Trim(DropLeadingNewline(s)), pat)
    ensures !Has(Trim(s), pat)
  {
    var t := DropLeadingNewline(s);
    assert t == s[|s| - |t|..|s|];
    PartLacks(s, |s| - |t|, |s|, pat);
    var u := DropTrailingNewline(t);
    assert u == t[0..|u|];
    PartLacks(t, 0, |u|, pat);
    TrimLacks(s, pat);
    TrimLacks(t, pat);
    TrimLacks(u, pat);
  }

  lemma TrimLacks(s: string, pat: string)
    requires !Has(s, pat)
    ensures !Has(Trim(s), pat)
  {
    var w, w' := TrimParts(s);
    assert Trim(s) == s[|w|..|w| + |Trim(s)|];
    PartLacks(s, |w|, |w| + |Trim(s)|, pat);
  }

  /** A pattern with no white space at its ends is not lost by trimming. */
  lemma TrimKeeps(s: string, pat: string)
    requires Has(s, pat) && pat != "" && pat[0] !in ASCII_SPACE && pat[|pat| - 1] !in ASCII_SPACE
    ensures Has(Trim(s), pat)
  {
    var w, w' := TrimParts(s);
    if !Has(Trim(s), pat) {
      BlankAround(w, Trim(s), w', pat);
    }
  }

  lemma BlankAround(w: string, t: string, w': string, pat: string)
    requires Blank(w) && Blank(w') && !Has(t, pat)
    requires pat != "" && pat[0] !in ASCII_SPACE && pat[|pat| - 1] !in ASCII_SPACE
    ensures !Has(w + t + w', pat)
  {
    var s := w + t + w';
    forall i
      ensures !OccursAt(s, pat, i)
    {
      if 0 <= i && i + |pat| <= |s| {
        var p := s[i..i + |pat|];
        if i < |w| {
          assert p[0] == s[i] == w[i];
        } else if i + |pat| > |w| + |t| {
          assert p[|pat| - 1] == s[i + |pat| - 1] == w'[i + |pat| - 1 - |w| - |t|];
        } else {
          assert !OccursAt(t, pat, i - |w|);
          assert p == t[i - |w|..i - |w| + |pat|];
        }
      }
    }
  }

  /** The answer loses nothing more to trimming than it lost to the splitter: it is
      blank, or nothing but newlines stands in front of its first character. */
  predicate AnswerKept(answer: string) {
    var a := InlineAnswer(answer);
    a == "" || a[0] !in ASCII_SPACE
  }

  lemma {:induction false} StripMore(s: string)
    ensures StripLeft(StripLeft(s, NEWLINES), ASCII_SPACE) == StripLeft(s, ASCII_SPACE)
  {
    if s != "" && s[0] in NEWLINES {
      StripMore(s[1..]);
    }
  }

  /** Stripping the end first or last makes no difference. */
  lemma {:induction false} StripBoth(s: string)
    ensures StripLeft(StripRightSpace(s), ASCII_SPACE) == Trim(s)
  {
    if s != "" && s[0] in ASCII_SPACE {
      StripBoth(s[1..]);
      StripRightTail(s);
    } else if s != "" {
      StripRightHead(s);
    }
  }

  lemma {:induction false} StripRightHead(s: string)
    requires s != "" && s[0] !in ASCII_SPACE
    ensures StripRightSpace(s) != "" && StripRightSpace(s)[0] == s[0]
  {
    if s[|s| - 1] in ASCII_SPACE {
      StripRightHead(s[..|s| - 1]);
    }
  }

  lemma {:induction false} StripRightTail(s: string)
    requires s != "" && s[0] in ASCII_SPACE
    ensures StripRightSpace(s) == if StripRightSpace(s[1..]) == "" then "" else [s[0]] + StripRightSpace(s[1..])
  {
    if |s| == 1 {
      assert s[..0] == "";
      assert s[1..] == "";
    } else if s[|s| - 1] in ASCII_SPACE {
      StripRightTail(s[..|s| - 1]);
      assert s[1..][..|s| - 2] == s[..|s| - 1][1..];
    } else {
      assert [s[0]] + s[1..] == s;
    }
  }

  lemma AnswerKeptMeans(answer: string)
    ensures AnswerKept(answer) <==> InlineAnswer(answer) == Trim(answer)
    ensures !AnswerKept(answer) ==> |InlineAnswer(answer)| > |Trim(answer)| && Trim(answer) != ""
    ensures !AnswerKept(answer) ==> InlineAnswer(answer)[0] in ASCII_SPACE - NEWLINES && Trim(answer)[0] !in ASCII_SPACE
  {
    var a := InlineAnswer(answer);
    StripMore(StripRightSpace(answer));
    StripBoth(answer);
    StripLeftProperties(a, ASCII_SPACE);
    StripLeftProperties(StripRightSpace(answer), NEWLINES);
    StripRightProperties(answer, ASCII_SPACE);
    TrimProperties(answer);
  }

  /** Sent inline or separately, a reply is printed with the same reasoning and
      answer exactly if the reasoning has no closing tag and the answer, behind its
      leading newlines, begins with neither a space nor a tab. */
  lemma SameSpoken(reasoning: string, answer: string, calls: seq<Call>)
    ensures Spoken(InlineReply(reasoning, answer, calls)) == Spoken(Reply(reasoning, answer, calls))
        <==> !Has(reasoning, CLOSE_TAG) && AnswerKept(answer)
  {
    SpokenInline(reasoning, answer, calls);
    AnswerKeptMeans(answer);
    if Has(reasoning, CLOSE_TAG) {
      TagFacts();
      TrimKeeps(reasoning, CLOSE_TAG);
    }
  }

  /** Without a closing tag in the reasoning, the prompt is the same exactly if the
      answer is kept. */
  lemma UntaggedAlike(before: seq<Message>, after: seq<Message>, setup: Setup, thinking: bool,
                         reasoning: string, answer: string, calls: seq<Call>)
    requires !Has(reasoning, CLOSE_TAG)
    ensures Prompt(before + [InlineReply(reasoning, answer, calls)] + after, setup, thinking)
         == Prompt(before + [Reply(reasoning, answer, calls)] + after, setup, thinking)
        <==> AnswerKept(answer)
  {
    var m, m' := InlineReply(reasoning, answer, calls), Reply(reasoning, answer, calls);
    SameSpoken(reasoning, answer, calls);
    if AnswerKept(answer) {
      AlikeInContext(before, m, m', after, setup);
    } else {
      SpokenInline(reasoning, answer, calls);
      AnswerKeptMeans(answer);
      AnswerLost(before, m, m', after, setup);
      AppendedPart(before + [m] + after, before + [m'] + after, setup, thinking);
    }
  }

  lemma AppendedPart(ms: seq<Message>, ms': seq<Message>, setup: Setup, thinking: bool)
    requires Diverges(Body(ms, setup), Body(ms', setup))
    ensures Prompt(ms, setup, thinking) != Prompt(ms', setup, thinking)
  {
    DivergesForever(Body(ms, setup), Body(ms', setup), Suffix(thinking), Suffix(thinking));
  }

  /** Replies spoken alike print alike anywhere. */
  lemma AlikeInContext(before: seq<Message>, m: Message, m': Message, after: seq<Message>, setup: Setup)
    requires Alike(m, m')
    ensures Body(before + [m] + after, setup) == Body(before + [m'] + after, setup)
  {
    var ms, ms' := before + [m] + after, before + [m'] + after;
    assert forall i :: 0 <= i < |ms| && i != |before| ==> ms[i] == ms'[i];
    SameLastQuery(ms, ms');
    SameSystem(ms, ms');
    SpokenAlike(ms, ms', LastQuery(ms));
  }

  /** Replies with the same reasoning whose answers begin with unlike characters
      part where the answers are printed. */
  lemma AnswerLost(before: seq<Message>, m: Message, m': Message, after: seq<Message>, setup: Setup)
    requires m.Message? && m'.Message? && m.role == m'.role == Assistant && m.calls == m'.calls
    requires Spoken(m).0 == Spoken(m').0 && Spoken(m).1 != "" && Spoken(m').1 != "" && Spoken(m).1[0] != Spoken(m').1[0]
    ensures Diverges(Body(before + [m] + after, setup), Body(before + [m'] + after, setup))
  {
    var ms, ms', n := before + [m] + after, before + [m'] + after, |before|;
    ExchangedAt(before, m, m', after);
    SameCut(ms, ms', n);
    AnswersPart(m, m', n > LastQuery(ms));
    OthersAlike(ms, ms', n, LastQuery(ms));
    JoinDiverges(Show(SystemPieces(ms, setup)), Texts(ms, LastQuery(ms)), Texts(ms', LastQuery(ms)), n);
  }

  /** Two histories that differ in one assistant turn. */
  ghost predicate Exchanged(ms: seq<Message>, ms': seq<Message>, n: nat) {
    && |ms| == |ms'| && n < |ms| && AssistantAt(ms, n) && AssistantAt(ms', n)
    && forall i :: 0 <= i < |ms| && i != n ==> ms[i] == ms'[i]
  }

  lemma ExchangedAt(before: seq<Message>, m: Message, m': Message, after: seq<Message>)
    requires m.Message? && m'.Message? && m.role == m'.role == Assistant
    ensures Exchanged(before + [m] + after, before + [m'] + after, |before|)
    ensures (before + [m] + after)[|before|] == m && (before + [m'] + after)[|before|] == m'
  {
  }

  lemma SameCut(ms: seq<Message>, ms': seq<Message>, n: nat)
    requires Exchanged(ms, ms', n)
    ensures LastQuery(ms) == LastQuery(ms') && SystemText(ms) == SystemText(ms')
  {
    assert forall i :: 0 <= i < |ms| ==> (IsQuery(ms[i]) <==> IsQuery(ms'[i]));
    assert HasQuery(ms) <==> HasQuery(ms');
  }

  lemma OthersAlike(ms: seq<Message>, ms': seq<Message>, n: nat, cut: int)
    requires Exchanged(ms, ms', n)
    ensures forall i :: 0 <= i < |ms| && i != n ==> Texts(ms, cut)[i] == Texts(ms', cut)[i]
    ensures Texts(ms, cut)[..n] == Texts(ms', cut)[..n]
    ensures Texts(ms, cut)[n] == ItemText(ms, n, cut) && Texts(ms', cut)[n] == ItemText(ms', n, cut)
  {
    forall i | 0 <= i < |ms| && i != n
      ensures ItemText(ms, i, cut) == ItemText(ms', i, cut)
    {
      ToolsAlike(ms, ms', n, i - 1);
      ToolsAlike(ms, ms', n, i + 1);
      SameItem(ms, ms', i, cut, cut);
    }
  }

  lemma ToolsAlike(ms: seq<Message>, ms': seq<Message>, n: nat, i: int)
    requires Exchanged(ms, ms', n)
    ensures ToolAt(ms, i) == ToolAt(ms', i)
  {
  }

  lemma AnswersPart(m: Message, m': Message, showThink: bool)
    requires m.Message? && m'.Message? && m.role == m'.role == Assistant && m.calls == m'.calls
    requires Spoken(m).0 == Spoken(m').0 && Spoken(m).1 != "" && Spoken(m').1 != "" && Spoken(m).1[0] != Spoken(m').1[0]
    ensures Diverges(Show(AssistantPieces(m.calls, Spoken(m).0, Spoken(m).1, showThink)),
                     Show(AssistantPieces(m'.calls, Spoken(m').0, Spoken(m').1, showThink)))
  {
    var r, a, a' := Spoken(m).0, Spoken(m).1, Spoken(m').1;
    ShowAssistant(m.calls, r, a, showThink);
    ShowAssistant(m.calls, r, a', showThink);
    var head := ASSISTANT_TURN + Show(if showThink then [Think(r)] else []);
    DifferAt(head, a, Show(CallPieces(m.calls, LeadAfter(a))) + TURN_END, a', Show(CallPieces(m.calls, LeadAfter(a'))) + TURN_END);
    Associative(head + a, Show(CallPieces(m.calls, LeadAfter(a))), TURN_END);
    Associative(head + a', Show(CallPieces(m.calls, LeadAfter(a'))), TURN_END);
  }

  lemma DifferAt(head: string, a: string, x: string, a': string, x': string)
    requires a != "" && a' != "" && a[0] != a'[0]
    ensures Diverges(head + a + x, head + a' + x')
  {
    assert (head + a + x)[|head|] == a[0] && (head + a' + x')[|head|] == a'[0];
  }

  /** With a closing tag in the reasoning, and its think block not printed, the
      prompts always differ: the tag and what follows it count as the answer. */
  lemma ClosingTagDiffers(before: seq<Message>, after: seq<Message>, setup: Setup, thinking: bool,
                          reasoning: string, answer: string, calls: seq<Call>)
    requires Has(reasoning, CLOSE_TAG) && (!HasQuery(before) || HasQuery(after))
    ensures Prompt(before + [InlineReply(reasoning, answer, calls)] + after, setup, thinking)
         != Prompt(before + [Reply(reasoning, answer, calls)] + after, setup, thinking)
  {
    var m, m', n := InlineReply(reasoning, answer, calls), Reply(reasoning, answer, calls), |before|;
    var ms, ms' := before + [m] + after, before + [m'] + after;
    ExchangedAt(before, m, m', after);
    SameCut(ms, ms', n);
    OthersAlike(ms, ms', n, LastQuery(ms));
    CutAfterReply(before, m, after);
    SpokenInline(reasoning, answer, calls);
    LongerAnswer(calls, Spoken(m).0, Spoken(m).1, Spoken(m').0, Spoken(m').1);
    JoinLonger(Show(SystemPieces(ms, setup)), Texts(ms, LastQuery(ms)), Texts(ms', LastQuery(ms)), n);
  }

  lemma LongerAnswer(calls: seq<Call>, r: string, a: string, r': string, a': string)
    requires |a| > |a'|
    ensures |Show(AssistantPieces(calls, r, a, false))| > |Show(AssistantPieces(calls, r', a', false))|
  {
    ShowAssistant(calls, r, a, false);
    ShowAssistant(calls, r', a', false);
    ShowLead(a, true);
    ShowLead(a', true);
    CallsShorter(calls, LeadAfter(a'), LeadAfter(a));
  }

  lemma {:induction false} JoinLonger(head: string, ts: seq<string>, ts': seq<string>, n: nat)
    requires |ts| == |ts'| && n < |ts| && |ts[n]| > |ts'[n]|
    requires forall i :: 0 <= i < |ts| && i != n ==> ts[i] == ts'[i]
    ensures |Join(head, ts)| > |Join(head, ts')|
  {
    var m := |ts| - 1;
    if n < m {
      JoinLonger(head, ts[..m], ts'[..m], n);
    } else {
      assert ts[..m] == ts'[..m];
    }
  }

  /** Leading white space is such an answer: spoken inline it keeps its space. */
  lemma SpacedAnswer(reasoning: string, x: string, calls: seq<Call>)
    requires !Has(reasoning, CLOSE_TAG) && Trimmed(x) && x != ""
    ensures Spoken(InlineReply(reasoning, " " + x, calls)).1 == " " + x
    ensures Spoken(Reply(reasoning, " " + x, calls)).1 == x
  {
    var a := " " + x;
    SpokenInline(reasoning, a, calls);
    assert a[|a| - 1] == x[|x| - 1];
    assert StripRightSpace(a) == a && InlineAnswer(a) == a;
    assert a[1..] == x;
    TrimProperties(x);
    assert StripLeft(a, ASCII_SPACE) == StripLeft(x, ASCII_SPACE);
  }

  /** A turn exchanged for one that prints the same leaves the text as it is. */
  lemma ExchangeAlike(ms: seq<Message>, ms': seq<Message>, n: nat, setup: Setup)
    requires Exchanged(ms, ms', n) && ItemText(ms, n, LastQuery(ms)) == ItemText(ms', n, LastQuery(ms))
    ensures Body(ms, setup) == Body(ms', setup)
  {
    SameCut(ms, ms', n);
    OthersAlike(ms, ms', n, LastQuery(ms));
    assert Texts(ms, LastQuery(ms)) == Texts(ms', LastQuery(ms));
  }

  lemma QueryBefore(before: seq<Message>, m: Message, after: seq<Message>)
    requires HasQuery(before) && !HasQuery(after) && !IsQuery(m)
    ensures LastQuery(before + [m] + after) < |before|
  {
    assert !HasQuery([m]);
    LastQueryAppend(before, [m]);
    LastQueryAppend(before + [m], after);
  }

  predicate Alike(m: Message, m': Message) {
    m == m' || (m.Message? && m'.Message? && m.role.Assistant? && m'.role.Assistant?
                && Spoken(m) == Spoken(m') && m.calls == m'.calls)
  }

  lemma SameLastQuery(ms: seq<Message>, ms': seq<Message>)
    requires |ms| == |ms'| && forall i :: 0 <= i < |ms| ==> Alike(ms[i], ms'[i])
    ensures LastQuery(ms) == LastQuery(ms')
  {
    forall i | 0 <= i < |ms|
      ensures IsQuery(ms[i]) <==> IsQuery(ms'[i])
    {
    }
    assert HasQuery(ms) <==> HasQuery(ms');
  }

  lemma SameSystem(ms: seq<Message>, ms': seq<Message>)
    requires |ms| == |ms'| && forall i :: 0 <= i < |ms| ==> Alike(ms[i], ms'[i])
    ensures SystemText(ms) == SystemText(ms')
  {
  }

  lemma AlikeItem(ms: seq<Message>, ms': seq<Message>, i: nat, cut: int)
    requires |ms| == |ms'| && i < |ms|
    requires Alike(ms[i], ms'[i])
    requires ToolAt(ms, i - 1) == ToolAt(ms', i - 1) && ToolAt(ms, i + 1) == ToolAt(ms', i + 1)
    ensures ItemText(ms, i, cut) == ItemText(ms', i, cut)
  {
  }

  lemma SpokenAlike(ms: seq<Message>, ms': seq<Message>, cut: int)
    requires |ms| == |ms'| && forall i :: 0 <= i < |ms| ==> Alike(ms[i], ms'[i])
    ensures Texts(ms, cut) == Texts(ms', cut)
  {
    forall i | 0 <= i < |ms|
      ensures ItemText(ms, i, cut) == ItemText(ms', i, cut)
    {
      assert forall k :: 0 <= k < |ms| ==> Alike(ms[k], ms'[k]) ==> ToolAt(ms, k) == ToolAt(ms', k);
      AlikeItem(ms, ms', i, cut);
    }
  }
}
