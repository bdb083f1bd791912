/** Reasoning that contains the closing tag, inline or separate, and with it the
    exact condition under which the two ways to send it give the same prompt. */
module InlineSeam {
  import opened Text
  import opened ChatTemplate
  import opened ThinkBlocks
  import opened ChatPrefix
  import opened ChatRuns
  import opened ChatReasoning
  import opened InlineReasoning
  import Lists

  /** The text around a closing tag is what is printed around one: reasoning, one
      line end, the tag, two line ends, and more text that ends without white space. */
  predicate Seam(x: string, y: string) {
    && StripLeft(x, ASCII_SPACE) == Trim(x) + "\n"
    && SeamBehind(y)
  }

  predicate SeamBehind(y: string) {
    |y| > 2 && y[..2] == "\n\n" && y[2] !in NEWLINES && y[|y| - 1] !in ASCII_SPACE
  }

  /** The answer has no white space in front, or it is blank and calls are printed for it. */
  predicate Follows(answer: string, calls: seq<Call>) {
    if Trim(answer) == "" then CallsShown("", calls) != "" else answer[0] !in ASCII_SPACE
  }

  predicate SeamAtTag(reasoning: string) {
    var e := Find(reasoning, CLOSE_TAG, 0);
    e >= 0 && Seam(reasoning[..e], reasoning[e + |CLOSE_TAG|..])
  }

  // ------------------------------------------------------------ the first tag

  /** Behind `x` the tag occurs for the first time. */
  predicate Fresh(x: string, tag: string) {
    Find(x + tag, tag, 0) == |x|
  }

  lemma FirstAt(s: string, tag: string, k: nat)
    requires OccursAt(s, tag, k) && forall i :: 0 <= i < k ==> !OccursAt(s, tag, i)
    ensures Find(s, tag, 0) == k
  {
  }

  lemma FreshAnyway(x: string, tag: string, y: string)
    ensures Fresh(x, tag) <==> Find(x + tag + y, tag, 0) == |x|
  {
    var short, long := x + tag, x + tag + y;
    forall i | 0 <= i <= |x|
      ensures OccursAt(short, tag, i) <==> OccursAt(long, tag, i)
    {
      assert short[i..i + |tag|] == long[i..i + |tag|];
    }
    assert OccursAt(short, tag, |x|);
    if Fresh(x, tag) {
      FirstAt(long, tag, |x|);
    }
    if Find(long, tag, 0) == |x| {
      FirstAt(short, tag, |x|);
    }
  }

  lemma FreshTail(w: string, x: string, tag: string)
    requires Fresh(w + x, tag)
    ensures Fresh(x, tag)
  {
    forall i | 0 <= i < |x|
      ensures !OccursAt(x + tag, tag, i)
    {
      assert !OccursAt(w + x + tag, tag, |w| + i);
      assert (w + x + tag)[|w| + i..|w| + i + |tag|] == (x + tag)[i..i + |tag|];
    }
    assert OccursAt(x + tag, tag, |x|);
    FirstAt(x + tag, tag, |x|);
  }

  lemma FreshLine(x: string, tag: string)
    requires !Has(x, tag) && tag != "" && '\n' !in tag
    ensures Fresh(x + "\n", tag)
  {
    FindAcross(x, '\n', tag, "");
    assert x + ['\n'] + tag + "" == x + "\n" + tag;
  }

  lemma FreshBehind(c: char, x: string, tag: string)
    requires Fresh(x, tag) && tag != "" && tag[0] != c
    ensures Fresh([c] + x, tag)
  {
    var s := [c] + x + tag;
    assert s == [c] + (x + tag);
    FindShift([c], x + tag, tag, 0);
    if OccursAt(s, tag, 0) {
      OccursHead(s, tag, 0);
    }
  }

  /** Two texts cut at their first tags are equal exactly if both parts are. */
  lemma TagsAlign(p: string, s: string, p': string, s': string, tag: string)
    requires Fresh(p, tag) && Fresh(p', tag)
    ensures p + tag + s == p' + tag + s' <==> p == p' && s == s'
  {
    FreshAnyway(p, tag, s);
    FreshAnyway(p', tag, s');
    if p + tag + s == p' + tag + s' {
      SameParts(p, tag + s, p', tag + s');
      SameParts(tag, s, tag, s');
    }
  }

  lemma SameParts(a: string, b: string, a': string, b': string)
    requires |a| == |a'|
    ensures a + b == a' + b' <==> a == a' && b == b'
  {
    if a + b == a' + b' {
      assert a == (a + b)[..|a|] == (a' + b')[..|a|] == a';
      assert b == (a + b)[|a|..] == (a' + b')[|a|..] == b';
    }
  }

  // ------------------------------------------------------- what is spoken inline

  lemma {:induction false} TagIn(r: string, tag: string)
    requires Has(r, tag) && tag != ""
    ensures var e := Find(r, tag, 0);
      && 0 <= e && e + |tag| <= |r| && r == r[..e] + tag + r[e + |tag|..]
      && !Has(r[..e], tag) && Fresh(r[..e], tag)
  {
    var e := Find(r, tag, 0);
    BeforeFound(r, tag, 0, e);
    assert r[0..e] == r[..e];
    assert r == r[..e] + tag + r[e + |tag|..];
    FreshAnyway(r[..e], tag, r[e + |tag|..]);
  }

  lemma {:induction false} SplitAtFirst(x: string, rest: string)
    requires Fresh(x, CLOSE_TAG)
    ensures Split(OPEN_TAG + ((['\n'] + x) + CLOSE_TAG + rest)) == (DropTrailingNewline(x), StripLeft(rest, NEWLINES))
  {
    var s := (['\n'] + x) + CLOSE_TAG + rest;
    CloseTagFacts();
    TagFacts();
    FindAtStart(OPEN_TAG, s);
    FreshBehind('\n', x, CLOSE_TAG);
    FreshAnyway(['\n'] + x, CLOSE_TAG, rest);
    FindShift(OPEN_TAG, s, CLOSE_TAG, 0);
    SplitAt(OPEN_TAG + s, OPEN_TAG, CLOSE_TAG, |OPEN_TAG| + 1 + |x|);
    AroundFirst(OPEN_TAG, x, CLOSE_TAG, rest);
  }

  lemma {:induction false} AroundFirst(open: string, x: string, close: string, rest: string)
    ensures var text, end := open + ((['\n'] + x) + close + rest), |open| + 1 + |x|;
      && end + |close| <= |text|
      && DropLeadingNewline(text[|open|..end]) == x && text[end + |close|..] == rest
  {
    var text, end := open + ((['\n'] + x) + close + rest), |open| + 1 + |x|;
    assert text[|open|..end] == ['\n'] + x;
    assert text[end + |close|..] == rest;
    assert (['\n'] + x)[1..] == x;
  }

  lemma TrimDropped(x: string)
    ensures Trim(DropTrailingNewline(x)) == Trim(x)
  {
    StripBoth(x);
    StripBoth(DropTrailingNewline(x));
  }

  function Behind(answer: string): string {
    if StripRightSpace(answer) != "" then "\n\n" + StripRightSpace(answer) else ""
  }

  /** The reasoning ends at the first tag; the printed tag is left in the answer. */
  lemma {:induction false} TaggedSpoken(r: string, answer: string, calls: seq<Call>)
    requires Has(r, CLOSE_TAG)
    ensures var e := Find(r, CLOSE_TAG, 0);
      0 <= e && e + |CLOSE_TAG| <= |r|
      && Spoken(InlineReply(r, answer, calls))
         == (Trim(r[..e]), StripLeft(r[e + |CLOSE_TAG|..] + ("\n" + CLOSE_TAG + Behind(answer)), NEWLINES))
  {
    var m, e := InlineReply(r, answer, calls), Find(r, CLOSE_TAG, 0);
    TagFacts();
    TagIn(r, CLOSE_TAG);
    assert RenderContent(m.content) == Inline(r, answer);
    TrimInline(r, answer);
    RegroupFirst(OPEN_TAG, r, r[..e], CLOSE_TAG, r[e + |CLOSE_TAG|..], Behind(answer));
    SplitAtFirst(r[..e], r[e + |CLOSE_TAG|..] + ("\n" + CLOSE_TAG + Behind(answer)));
    SplitShorter(ContentOf(m));
    TrimDropped(r[..e]);
  }

  lemma RegroupFirst(o: string, r: string, x: string, t: string, y: string, after: string)
    requires r == x + t + y
    ensures o + (("\n" + r) + ['\n'] + t + after) == o + ((['\n'] + x) + t + (y + ("\n" + t + after)))
  {
  }

  // ------------------------------------------------------------ what is printed

  lemma {:induction false} StripLeftBefore(x: string, q: string, drop: set<char>)
    requires q != "" && q[0] !in drop
    ensures StripLeft(x + q, drop) == StripLeft(x, drop) + q
  {
    if x == "" {
      assert x + q == q;
    } else if x[0] in drop {
      StripLeftBefore(x[1..], q, drop);
      assert (x + q)[1..] == x[1..] + q;
    }
  }

  lemma {:induction false} StripRightBehind(p: string, y: string, drop: set<char>)
    requires p != "" && p[|p| - 1] !in drop
    ensures StripRight(p + y, drop) == p + StripRight(y, drop)
  {
    if y == "" {
      assert p + y == p;
    } else if y[|y| - 1] in drop {
      StripRightBehind(p, y[..|y| - 1], drop);
      assert (p + y)[..|p + y| - 1] == p + y[..|y| - 1];
    }
  }

  lemma {:induction false} TrimTagged(x: string, tag: string, y: string)
    requires tag != "" && tag[0] !in ASCII_SPACE && tag[|tag| - 1] !in ASCII_SPACE
    ensures Trim(x + tag + y) == StripLeft(x, ASCII_SPACE) + tag + StripRightSpace(y)
  {
    var right := StripRightSpace(y);
    StripBoth(x + tag + y);
    StripRightBehind(x + tag, y, ASCII_SPACE);
    Associative(x, tag, right);
    StripLeftBefore(x, tag + right, ASCII_SPACE);
    Associative(StripLeft(x, ASCII_SPACE), tag, right);
  }

  /** Up to the first tag, the two print the same if one line end is in front of it. */
  lemma HeadsAlike(x: string, y: string, tag: string, rest: string, rest': string)
    requires Fresh(x, tag) && !Has(x, tag) && tag != "" && '\n' !in tag
    ensures Trim(x) + ("\n" + tag + "\n\n") + rest == StripLeft(x, ASCII_SPACE) + tag + y + ("\n" + tag + "\n\n") + rest'
        <==> StripLeft(x, ASCII_SPACE) == Trim(x) + "\n" && "\n\n" + rest == y + ("\n" + tag + "\n\n") + rest'
  {
    var left := StripLeft(x, ASCII_SPACE);
    TrimLacks(x, tag);
    FreshLine(Trim(x), tag);
    StripLeftProperties(x, ASCII_SPACE);
    assert x == x[..|x| - |left|] + left;
    FreshTail(x[..|x| - |left|], left, tag);
    TagsAlign(Trim(x) + "\n", "\n\n" + rest, left, y + ("\n" + tag + "\n\n") + rest', tag);
    RegroupHead(Trim(x), tag, rest);
    RegroupLeft(left, tag, y, "\n" + tag + "\n\n", rest');
  }

  lemma RegroupHead(r: string, tag: string, rest: string)
    ensures r + ("\n" + tag + "\n\n") + rest == (r + "\n") + tag + ("\n\n" + rest)
  {
  }

  lemma RegroupLeft(left: string, tag: string, y: string, c: string, rest: string)
    ensures left + tag + y + c + rest == left + tag + (y + c + rest)
  {
  }

  /** Between the first tag and the printed one, the two print the same if the seam
      goes on as printed; then what follows decides. */
  lemma TailsAlike(y: string, tag: string, after: string, c: string, rest: string)
    requires tag != "" && tag[0] !in ASCII_SPACE
    ensures "\n\n" + (StripLeft(y + ("\n" + tag + after), NEWLINES) + c) == StripRightSpace(y) + ("\n" + tag + "\n\n") + rest
        <==> SeamBehind(y) && after + c == "\n\n" + rest
  {
    if SeamBehind(y) {
      SeamStripped(y, "\n" + tag + after);
      RegroupSeam(y, "\n" + tag, after, c, rest);
      SameParts(y + ("\n" + tag), after + c, y + ("\n" + tag), "\n\n" + rest);
    } else {
      SeamBroken(y, tag, after, c, rest);
    }
  }

  lemma SeamStripped(y: string, z: string)
    requires SeamBehind(y)
    ensures "\n\n" + StripLeft(y + z, NEWLINES) == y + z && StripRightSpace(y) == y
  {
    var all := y + z;
    assert all[0] == y[0] == y[..2][0] && all[1] == y[1] == y[..2][1];
    var rest := all[1..];
    assert rest[0] == '\n' && rest[1..][0] == y[2];
    assert StripLeft(all, NEWLINES) == StripLeft(rest, NEWLINES) == StripLeft(rest[1..], NEWLINES) == rest[1..];
    assert "\n\n" + rest[1..] == all;
  }

  lemma RegroupSeam(y: string, z: string, after: string, c: string, rest: string)
    ensures (y + (z + after)) + c == (y + z) + (after + c)
    ensures y + (z + "\n\n") + rest == (y + z) + ("\n\n" + rest)
  {
  }

  lemma {:induction false} SeamBroken(y: string, tag: string, after: string, c: string, rest: string)
    requires !SeamBehind(y) && tag != "" && tag[0] !in ASCII_SPACE
    ensures "\n\n" + (StripLeft(y + ("\n" + tag + after), NEWLINES) + c) != StripRightSpace(y) + ("\n" + tag + "\n\n") + rest
  {
    var z := "\n" + tag + after;
    var u, v := StripLeft(y + z, NEWLINES), StripRightSpace(y);
    var left, right := "\n\n" + (u + c), v + ("\n" + tag + "\n\n") + rest;
    StripRightProperties(y, ASCII_SPACE);
    StripLeftProperties(y + z, NEWLINES);
    assert right[|v|] == '\n' && right[|v| + 1] == tag[0];
    if v == "" {
      assert left[1] != right[1];
    } else {
      var k := |y + z| - |u|;
      assert v[|v| - 1] == y[|v| - 1] == (y + z)[|v| - 1];
      assert k < |v|;
      assert u[0] == (y + z)[k] == y[k] == v[k] == right[k];
      if k < 2 {
        assert left[k] != right[k];
      } else if k > 2 {
        assert left[2] == u[0] && right[2] == (y + z)[2];
      } else if y[..2] != "\n\n" {
        assert left[..2] == "\n\n" && right[..2] == y[..2];
      } else {
        assert left == y + z + c;
        assert left[|v| + 1] == (y + z)[|v| + 1];
        assert (y + z)[|v| + 1] in ASCII_SPACE;
      }
    }
  }

  // ----------------------------------------------------------- the calls behind

  lemma {:induction false} CallsLead(calls: seq<Call>)
    ensures var shown := Show(CallPieces(calls, []));
      Show(CallPieces(calls, [Say("\n\n")])) == if shown == "" then "" else "\n\n" + shown
  {
    if calls != [] {
      if CallText(calls[0]) == "" {
        CallsLead(calls[1..]);
      } else {
        CallLead(calls);
      }
    }
  }

  lemma {:induction false} CallLead(calls: seq<Call>)
    requires calls != [] && CallText(calls[0]) != ""
    ensures var shown := Show(CallPieces(calls, []));
      shown != "" && Show(CallPieces(calls, [Say("\n\n")])) == "\n\n" + shown
  {
    var text, more := CallText(calls[0]), Show(CallPieces(calls[1..], [Say("\n")]));
    ShowCallsStep(calls, []);
    ShowCallsStep(calls, [Say("\n\n")]);
    ShowOne(Say("\n\n"));
    LeadText(text, more);
  }

  lemma LeadText(text: string, more: string)
    ensures "" + text + more == text + more && "\n\n" + text + more == "\n\n" + (text + more)
  {
  }

  /** What follows the printed tag is the same if the answer keeps its front, or if,
      for want of an answer, the calls come right behind the tag. */
  lemma AnswersAlike(answer: string, calls: seq<Call>, a: string, e: string)
    requires a != "" && e != ""
    ensures Behind(answer) + (CallsShown(a, calls) + e) == "\n\n" + (Trim(answer) + (CallsShown(Trim(answer), calls) + e))
        <==> Follows(answer, calls)
  {
    var shown := CallsShown("", calls);
    CallsLead(calls);
    StripBoth(answer);
    StripLeftProperties(StripRightSpace(answer), ASCII_SPACE);
    if Trim(answer) == "" {
      BlankAnswer(answer);
      BehindBlank(shown, e);
    } else {
      FrontKept(answer);
      SameBehind("\n\n", StripRightSpace(answer), Trim(answer), CallsShown(a, calls) + e);
    }
  }

  lemma BlankAnswer(answer: string)
    requires Trim(answer) == ""
    ensures StripRightSpace(answer) == ""
  {
    StripBoth(answer);
    StripLeftProperties(StripRightSpace(answer), ASCII_SPACE);
    StripRightProperties(answer, ASCII_SPACE);
  }

  lemma BehindBlank(shown: string, e: string)
    requires e != ""
    ensures "" + ((if shown == "" then "" else "\n\n" + shown) + e) == "\n\n" + ("" + (shown + e)) <==> shown != ""
  {
    assert shown == "" ==> |"\n\n" + ("" + (shown + e))| == |e| + 2;
    assert ("\n\n" + shown) + e == "\n\n" + (shown + e);
  }

  lemma FrontKept(answer: string)
    requires Trim(answer) != ""
    ensures answer != "" && StripRightSpace(answer) != ""
    ensures StripRightSpace(answer) == Trim(answer) <==> answer[0] !in ASCII_SPACE
  {
    StripBoth(answer);
    StripRightProperties(answer, ASCII_SPACE);
    StripLeftProperties(StripRightSpace(answer), ASCII_SPACE);
  }

  lemma SameBehind(n: string, a: string, a': string, rest: string)
    ensures (n + a) + rest == n + (a' + rest) <==> a == a'
  {
    if (n + a) + rest == n + (a' + rest) {
      assert |a| == |a'|;
      assert a == ((n + a) + rest)[|n|..|n| + |a|] == (n + (a' + rest))[|n|..|n| + |a|] == a';
    } else {
      assert a == a' ==> (n + a) + rest == n + (a + rest);
    }
  }

  // ------------------------------------------------------------- whole prompts

  /** A turn printed with its think block is the same, inline or separate, exactly
      if the reasoning has a seam at its first tag and the answer follows. */
  lemma {:induction false} TurnsAlike(r: string, answer: string, calls: seq<Call>)
    requires Has(r, CLOSE_TAG)
    ensures var spoken := Spoken(InlineReply(r, answer, calls));
      Show(AssistantPieces(calls, spoken.0, spoken.1, true)) == Show(AssistantPieces(calls, Trim(r), Trim(answer), true))
      <==> SeamAtTag(r) && Follows(answer, calls)
  {
    var e := TaggedTrim(r);
    var spoken := Spoken(InlineReply(r, answer, calls));
    TaggedSpoken(r, answer, calls);
    TurnShown(calls, spoken.0, spoken.1);
    TurnShown(calls, Trim(r), Trim(answer));
    CloseMarks();
    PrintedAlike(ASSISTANT_TURN, THINK_OPEN, r[..e], CLOSE_TAG, r[e + |CLOSE_TAG|..], answer, calls, TURN_END);
  }

  lemma CloseMarks()
    ensures CLOSE_TAG != "" && '\n' !in CLOSE_TAG && TURN_END != ""
    ensures CLOSE_TAG[0] !in ASCII_SPACE && CLOSE_TAG[|CLOSE_TAG| - 1] !in ASCII_SPACE
  {
  }

  lemma {:induction false} TaggedTrim(r: string) returns (e: nat)
    requires Has(r, CLOSE_TAG)
    ensures e == Find(r, CLOSE_TAG, 0) && e + |CLOSE_TAG| <= |r|
    ensures Fresh(r[..e], CLOSE_TAG) && !Has(r[..e], CLOSE_TAG)
    ensures Trim(r) == StripLeft(r[..e], ASCII_SPACE) + CLOSE_TAG + StripRightSpace(r[e + |CLOSE_TAG|..])
  {
    CloseMarks();
    TagIn(r, CLOSE_TAG);
    e := Find(r, CLOSE_TAG, 0);
    TrimTagged(r[..e], CLOSE_TAG, r[e + |CLOSE_TAG|..]);
  }

  lemma TurnShown(calls: seq<Call>, r: string, a: string)
    ensures Show(AssistantPieces(calls, r, a, true))
         == ASSISTANT_TURN + (THINK_OPEN + r + ("\n" + CLOSE_TAG + "\n\n")) + a + CallsShown(a, calls) + TURN_END
  {
    TagFacts();
    ShowAssistant(calls, r, a, true);
  }

  lemma {:induction false} PrintedAlike(turn: string, open: string, x: string, tag: string, y: string, answer: string,
                                        calls: seq<Call>, end: string)
    requires Fresh(x, tag) && !Has(x, tag) && tag != "" && '\n' !in tag && tag[0] !in ASCII_SPACE && end != ""
    ensures var a := StripLeft(y + ("\n" + tag + Behind(answer)), NEWLINES);
            var close := "\n" + tag + "\n\n";
      turn + (open + Trim(x) + close) + a + CallsShown(a, calls) + end
      == turn + (open + (StripLeft(x, ASCII_SPACE) + tag + StripRightSpace(y)) + close)
         + Trim(answer) + CallsShown(Trim(answer), calls) + end
      <==> Seam(x, y) && Follows(answer, calls)
  {
    var a := StripLeft(y + ("\n" + tag + Behind(answer)), NEWLINES);
    var close, left, right := "\n" + tag + "\n\n", StripLeft(x, ASCII_SPACE), StripRightSpace(y);
    var rest, rest' := a + (CallsShown(a, calls) + end), Trim(answer) + (CallsShown(Trim(answer), calls) + end);
    RegroupTurn(turn, open, Trim(x), close, a, CallsShown(a, calls), end);
    RegroupTurn(turn, open, left + tag + right, close, Trim(answer), CallsShown(Trim(answer), calls), end);
    SameParts(turn + open, Trim(x) + close + rest, turn + open, (left + tag + right) + close + rest');
    HeadsAlike(x, right, tag, rest, rest');
    TailsAlike(y, tag, Behind(answer), CallsShown(a, calls) + end, rest');
    TagLeft(y, tag, Behind(answer));
    AnswersAlike(answer, calls, a, end);
  }

  lemma RegroupTurn(t: string, o: string, r: string, c: string, a: string, s: string, e: string)
    ensures t + (o + r + c) + a + s + e == (t + o) + (r + c + (a + (s + e)))
  {
  }

  lemma TagLeft(y: string, tag: string, after: string)
    requires tag != "" && tag[0] !in ASCII_SPACE
    ensures StripLeft(y + ("\n" + tag + after), NEWLINES) != ""
  {
    var s := y + ("\n" + tag + after);
    StripLeftProperties(s, NEWLINES);
    assert s[|y| + 1] == tag[0];
  }

  lemma {:induction false} JoinApart(head: string, ts: seq<string>, ts': seq<string>, n: nat)
    requires |ts| == |ts'| && n < |ts| && ts[n] != ts'[n]
    requires forall i :: 0 <= i < |ts| && i != n ==> ts[i] == ts'[i]
    ensures Join(head, ts) != Join(head, ts')
  {
    var m := |ts| - 1;
    if n < m {
      JoinApart(head, ts[..m], ts'[..m], n);
      SameEnd(Join(head, ts[..m]), Join(head, ts'[..m]), ts[m]);
    } else {
      assert ts[..m] == ts'[..m];
      SameParts(Join(head, ts[..m]), ts[m], Join(head, ts[..m]), ts'[m]);
    }
  }

  lemma SameEnd(a: string, a': string, b: string)
    ensures a + b == a' + b <==> a == a'
  {
    if a + b == a' + b {
      assert |a| == |a'|;
      SameParts(a, b, a', b);
    }
  }

  /** A think block that is printed, and reasoning with a closing tag in it. */
  lemma {:induction false} SeamPrompts(before: seq<Message>, after: seq<Message>, setup: Setup, thinking: bool,
                    reasoning: string, answer: string, calls: seq<Call>)
    requires Has(reasoning, CLOSE_TAG) && HasQuery(before) && !HasQuery(after)
    ensures Prompt(before + [InlineReply(reasoning, answer, calls)] + after, setup, thinking)
         == Prompt(before + [Reply(reasoning, answer, calls)] + after, setup, thinking)
        <==> SeamAtTag(reasoning) && Follows(answer, calls)
  {
    var m, m', n := InlineReply(reasoning, answer, calls), Reply(reasoning, answer, calls), |before|;
    var ms, ms' := before + [m] + after, before + [m'] + after;
    ExchangedAt(before, m, m', after);
    SameCut(ms, ms', n);
    QueryBefore(before, m, after);
    OthersAlike(ms, ms', n, LastQuery(ms));
    TurnsAlike(reasoning, answer, calls);
    SameEnd(Body(ms, setup), Body(ms', setup), Suffix(thinking));
    if ItemText(ms, n, LastQuery(ms)) == ItemText(ms', n, LastQuery(ms)) {
      ExchangeAlike(ms, ms', n, setup);
    } else {
      JoinApart(Show(SystemPieces(ms, setup)), Texts(ms, LastQuery(ms)), Texts(ms', LastQuery(ms)), n);
    }
  }

  /** Whether a client sends reasoning inline or separately, the prompt of any
      conversation is the same exactly if the reasoning has no closing tag and the
      answer is kept; or if, with a closing tag, the think block is printed, the
      reasoning has a seam at the first tag, and the answer follows. */
  lemma InlineOrSeparate(before: seq<Message>, after: seq<Message>, setup: Setup, thinking: bool,
                         reasoning: string, answer: string, calls: seq<Call>)
    ensures Prompt(before + [InlineReply(reasoning, answer, calls)] + after, setup, thinking)
         == Prompt(before + [Reply(reasoning, answer, calls)] + after, setup, thinking)
        <==> if !Has(reasoning, CLOSE_TAG) then AnswerKept(answer)
             else HasQuery(before) && !HasQuery(after) && SeamAtTag(reasoning) && Follows(answer, calls)
  {
    if !Has(reasoning, CLOSE_TAG) {
      UntaggedAlike(before, after, setup, thinking, reasoning, answer, calls);
    } else if HasQuery(before) && !HasQuery(after) {
      SeamPrompts(before, after, setup, thinking, reasoning, answer, calls);
    } else {
      ClosingTagDiffers(before, after, setup, thinking, reasoning, answer, calls);
    }
  }

  /** Such a seam: the form a think block is printed in, inside the reasoning. */
  lemma SeamExample(x: string, y: string)
    requires !Has(x, CLOSE_TAG) && Trimmed(x) && x != "" && Trimmed(y) && y != ""
    ensures SeamAtTag(x + THINK_CLOSE + y)
  {
    TagFacts();
    FreshLine(x, CLOSE_TAG);
    FreshAnyway(x + "\n", CLOSE_TAG, "\n\n" + y);
    RegroupSeamed(x, CLOSE_TAG, y);
    SeamLine(x, y);
  }

  lemma RegroupSeamed(x: string, tag: string, y: string)
    ensures var s, e := x + ("\n" + tag + "\n\n") + y, |x| + 1;
      s == (x + "\n") + tag + ("\n\n" + y) && s[..e] == x + "\n" && s[e + |tag|..] == "\n\n" + y
  {
    var s, e := (x + "\n") + tag + ("\n\n" + y), |x| + 1;
    assert s == x + ("\n" + tag + "\n\n") + y;
    assert s[..e] == x + "\n" && s[e + |tag|..] == "\n\n" + y;
  }

  lemma SeamLine(x: string, y: string)
    requires Trimmed(x) && x != "" && Trimmed(y) && y != ""
    ensures Seam(x + "\n", "\n\n" + y)
  {
    var s := x + "\n";
    assert s[0] == x[0];
    assert s[..|x|] == x;
    TrimProperties(x);
    assert ("\n\n" + y)[2] == y[0];
  }
}
