/** Agent runs: prompt, completion, tool results, next prompt. */
module ChatRuns {
  import opened Wrappers
  import opened Text
  import opened ChatTemplate
  import opened ChatPrefix
  import opened ThinkBlocks
  import Lists

  /** The history entry for a reply with separate reasoning. */
  function Reply(reasoning: string, answer: string, calls: seq<Call>): Message {
    Message(Assistant, Plain(answer), Some(reasoning), calls)
  }

  function CallsShown(answer: string, calls: seq<Call>): string {
    Show(CallPieces(calls, LeadAfter(answer)))
  }

  /** What the model generates after a prompt that ends inside an open think
      block, up to and including the end-of-turn marker. */
  function Completion(reasoning: string, answer: string, calls: seq<Call>): string {
    reasoning + THINK_CLOSE + answer + CallsShown(answer, calls) + TURN_END
  }

  /** The same after a prompt whose think block is already closed. */
  function PlainCompletion(answer: string, calls: seq<Call>): string {
    answer + CallsShown(answer, calls) + TURN_END
  }

  // ------------------------------------------------------------ one exchange

  /** The history that ends with the reply prints the old history, then the
      reply; the reply has its think block exactly if there was a query. */
  lemma BodyWithReply(ms: seq<Message>, setup: Setup, reasoning: string, answer: string, calls: seq<Call>)
    ensures Body(ms + [Reply(reasoning, answer, calls)], setup)
         == Body(ms, setup) + Show(AssistantPieces(calls, Trim(reasoning), Trim(answer), HasQuery(ms)))
  {
    var reply := Reply(reasoning, answer, calls);
    LastQueryAppend(ms, [reply]);
    assert !HasQuery([reply]);
    ReplyAfterSystem(ms, reply);
    ReplyAppended(Show(SystemPieces(ms, setup)), ms, LastQuery(ms), LastQuery(ms + [reply]), reasoning, answer, calls);
  }

  lemma ReplyAfterSystem(ms: seq<Message>, reply: Message)
    requires !IsSystem(reply)
    ensures SystemText(ms + [reply]) == SystemText(ms)
  {
  }

  /** The reply's text comes last, if the cutoffs agree on what was there before. */
  lemma ReplyAppended(head: string, ms: seq<Message>, cut: int, cut': int, reasoning: string, answer: string, calls: seq<Call>)
    requires forall i :: 0 <= i < |ms| && AssistantAt(ms, i) ==> (i > cut <==> i > cut')
    ensures Join(head, Texts(ms + [Reply(reasoning, answer, calls)], cut'))
         == Join(head, Texts(ms, cut)) + Show(AssistantPieces(calls, Trim(reasoning), Trim(answer), |ms| > cut'))
  {
    var all, n := ms + [Reply(reasoning, answer, calls)], |ms|;
    assert all[..n] == ms[..n];
    assert !ToolAt(all, n) && !ToolAt(ms, n);
    SameTexts(ms, all, n, cut, cut');
    var ts := Texts(all, cut');
    JoinSnoc(head, ts, n);
    Lists.TakeAll(ts);
    Lists.TakeAll(Texts(ms, cut));
    ReplyText(all, n, cut', reasoning, answer, calls);
  }

  lemma ReplyText(ms: seq<Message>, i: nat, cut: int, reasoning: string, answer: string, calls: seq<Call>)
    requires i < |ms| && ms[i] == Reply(reasoning, answer, calls)
    ensures ItemText(ms, i, cut) == Show(AssistantPieces(calls, Trim(reasoning), Trim(answer), i > cut))
  {
    assert ContentOf(ms[i]) == Trim(answer);
  }

  /** An untrimmed reply is printed shorter than it was generated. */
  lemma {:induction false} CallsShorter(calls: seq<Call>, lead: seq<Piece>, lead': seq<Piece>)
    requires |Show(lead)| <= |Show(lead')|
    ensures |Show(CallPieces(calls, lead))| <= |Show(CallPieces(calls, lead'))|
  {
    if calls != [] {
      if CallText(calls[0]) == "" {
        CallsShorter(calls[1..], lead, lead');
      } else {
        ShowCallsStep(calls, lead);
        ShowCallsStep(calls, lead');
      }
    }
  }

  lemma AnswerShorter(answer: string, calls: seq<Call>)
    ensures |Trim(answer)| + |CallsShown(Trim(answer), calls)| <= |answer| + |CallsShown(answer, calls)|
    ensures !Trimmed(answer) ==> |Trim(answer)| + |CallsShown(Trim(answer), calls)| < |answer| + |CallsShown(answer, calls)|
  {
    TrimProperties(answer);
    ShowLead(answer, true);
    ShowLead(Trim(answer), true);
    CallsShorter(calls, LeadAfter(Trim(answer)), LeadAfter(answer));
  }

  /** Prompt plus completion is exactly the history with the reply appended, if
      and only if the history has a genuine query and the reply is trimmed. */
  lemma ReplyPrefix(ms: seq<Message>, setup: Setup, reasoning: string, answer: string, calls: seq<Call>)
    ensures Prompt(ms, setup, true) + Completion(reasoning, answer, calls)
            == Body(ms + [Reply(reasoning, answer, calls)], setup)
        <==> HasQuery(ms) && Trimmed(reasoning) && Trimmed(answer)
  {
    BodyWithReply(ms, setup, reasoning, answer, calls);
    TrimProperties(reasoning);
    TrimProperties(answer);
    AnswerShorter(answer, calls);
    var r, a := Trim(reasoning), Trim(answer);
    ShowAssistant(calls, r, a, HasQuery(ms));
    NothingAppended(ASSISTANT_TURN);
    RegroupReply(Body(ms, setup), ASSISTANT_TURN, THINK_OPEN, r, THINK_CLOSE, a, CallsShown(a, calls), TURN_END);
    MarkerLengths();
  }

  lemma RegroupReply(b: string, t: string, o: string, r: string, c: string, a: string, s: string, e: string)
    ensures b + (t + o) + (r + c + a + s + e) == b + (t + (o + r + c) + a + s + e)
    ensures b + (t + (o + c)) + (a + s + e) == b + (t + (o + "" + c) + a + s + e)
  {
  }

  lemma MarkerLengths()
    ensures |THINK_OPEN| > 0
  {
  }

  /** With thinking off the closed think block of the generation suffix is the
      one the history prints for a reply without reasoning. */
  lemma PlainReplyPrefix(ms: seq<Message>, setup: Setup, answer: string, calls: seq<Call>)
    ensures Prompt(ms, setup, false) + PlainCompletion(answer, calls)
            == Body(ms + [Reply("", answer, calls)], setup)
        <==> HasQuery(ms) && Trimmed(answer)
  {
    BodyWithReply(ms, setup, "", answer, calls);
    TrimProperties("");
    TrimProperties(answer);
    AnswerShorter(answer, calls);
    var a := Trim(answer);
    ShowAssistant(calls, "", a, HasQuery(ms));
    NothingAppended(ASSISTANT_TURN);
    RegroupReply(Body(ms, setup), ASSISTANT_TURN, THINK_OPEN, "", THINK_CLOSE, a, CallsShown(a, calls), TURN_END);
    MarkerLengths();
  }

  // ------------------------------------------------------ untrimmed replies

  /** What follows an answer: blank lines before the first call, if any, and then
      the first character of a marker. */
  lemma TailParts(answer: string, calls: seq<Call>) returns (lead: string, s: string)
    ensures CallsShown(answer, calls) + TURN_END == lead + s && Blank(lead) && s != "" && s[0] == '<'
    ensures answer == "" ==> lead == ""
  {
    CallsMark(calls, LeadAfter(answer));
    ShowLead(answer, true);
    CallMarkBegins();
    if CallsShown(answer, calls) == "" {
      lead, s := "", TURN_END;
    } else {
      s := CutLead(CallsShown(answer, calls), Show(LeadAfter(answer)), CALL_MARK, TURN_END);
      lead := Show(LeadAfter(answer));
    }
  }

  lemma CutLead(shown: string, lead: string, mark: string, end: string) returns (s: string)
    requires lead + mark <= shown && mark != ""
    ensures shown + end == lead + s && s != "" && s[0] == mark[0]
  {
    s := shown[|lead|..] + end;
    assert shown[|lead|] == (lead + mark)[|lead|] == mark[0];
  }

  lemma CallMarkBegins()
    ensures CALL_MARK != "" && CALL_MARK[0] == '<'
  {
  }

  /** An untrimmed answer is not printed as it was generated: the first mark
      behind it stands at another place. */
  lemma AnswerUntrimmed(answer: string, calls: seq<Call>)
    requires !Trimmed(answer)
    ensures Diverges(answer + (CallsShown(answer, calls) + TURN_END),
                     Trim(answer) + (CallsShown(Trim(answer), calls) + TURN_END))
  {
    var lead, s := TailParts(answer, calls);
    if Trim(answer) == "" {
      var lead', s' := TailParts("", calls);
      UntrimmedParts(answer, lead, s, lead', s');
    } else {
      TrimProperties(answer);
      UntrimmedParts(answer, lead, s, lead, s);
    }
  }

  lemma UntrimmedParts(answer: string, lead: string, s: string, lead': string, s': string)
    requires !Trimmed(answer) && Blank(lead) && s != "" && s'!= "" && s[0] == s'[0] == '<'
    requires if Trim(answer) == "" then lead' == "" else lead' == lead
    ensures Diverges(answer + (lead + s), Trim(answer) + (lead' + s'))
  {
    var a := Trim(answer);
    var w, w' := TrimParts(answer);
    TrimProperties(answer);
    if a == "" {
      assert answer == w;
      BlanksDiverge("", s', w + lead, s);
      Peel(w, lead, s);
    } else if w != "" {
      BlanksDiverge("", a + (lead' + s'), w, a + w' + (lead + s));
      RegroupTrimmed(w, a, w', lead + s);
      RegroupTrimmed(w, a, w', lead' + s');
    } else {
      assert answer == a + w';
      BlanksDiverge(lead, s', w' + lead, s);
      DivergesAfter(a, w' + lead + s, lead + s');
      RegroupUntrimmed(a, w', lead, s);
    }
  }

  lemma RegroupTrimmed(w: string, a: string, w': string, t: string)
    ensures (w + a + w') + t == w + (a + w' + t)
    ensures "" + (a + t) == a + t
  {
  }

  lemma RegroupUntrimmed(a: string, w: string, lead: string, s: string)
    ensures (a + w) + (lead + s) == a + (w + lead + s)
  {
  }

  /** Nor is untrimmed reasoning. */
  lemma ReasoningUntrimmed(reasoning: string, rest: string, rest': string)
    requires !Trimmed(reasoning) && rest != "" && rest' != "" && rest[0] == rest'[0] == '<'
    ensures Diverges(reasoning + ("\n" + rest), Trim(reasoning) + ("\n" + rest'))
  {
    var r := Trim(reasoning);
    var w, w' := TrimParts(reasoning);
    TrimProperties(reasoning);
    if r == "" {
      BlanksDiverge("\n", rest', w + "\n", rest);
      Peel(w, "\n", rest);
      assert reasoning == w;
    } else if w != "" {
      BlanksDiverge("", r + ("\n" + rest'), w, r + w' + ("\n" + rest));
      RegroupTrimmed(w, r, w', "\n" + rest);
    } else {
      BlanksDiverge("\n", rest', w' + "\n", rest);
      DivergesAfter(r, w' + "\n" + rest, "\n" + rest');
      RegroupUntrimmed(r, w', "\n", rest);
      assert reasoning == r + w';
    }
  }

  /** A reply that is not trimmed parts from what the history prints for it. */
  lemma UntrimmedDiverges(reasoning: string, answer: string, calls: seq<Call>)
    requires !(Trimmed(reasoning) && Trimmed(answer))
    ensures Diverges(Completion(reasoning, answer, calls), Completion(Trim(reasoning), Trim(answer), calls))
  {
    var r, a := Trim(reasoning), Trim(answer);
    ThinkMarks();
    var tail, tail' := CallsShown(answer, calls) + TURN_END, CallsShown(a, calls) + TURN_END;
    if Trimmed(reasoning) {
      TrimProperties(reasoning);
      AnswerUntrimmed(answer, calls);
      DivergesAfter(r + THINK_CLOSE, answer + tail, a + tail');
      RegroupTail(r + THINK_CLOSE, answer, CallsShown(answer, calls), TURN_END);
      RegroupTail(r + THINK_CLOSE, a, CallsShown(a, calls), TURN_END);
    } else {
      CloseTagBegins();
      ReasoningUntrimmed(reasoning, CLOSE_TAG + ("\n\n" + (answer + tail)), CLOSE_TAG + ("\n\n" + (a + tail')));
      RegroupCompletion(reasoning, CLOSE_TAG, answer, CallsShown(answer, calls), TURN_END);
      RegroupCompletion(r, CLOSE_TAG, a, CallsShown(a, calls), TURN_END);
    }
  }

  lemma CloseTagBegins()
    ensures CLOSE_TAG != "" && CLOSE_TAG[0] == '<'
  {
  }

  lemma RegroupTail(h: string, a: string, s: string, e: string)
    ensures h + a + s + e == h + (a + (s + e))
  {
  }

  lemma RegroupCompletion(r: string, c: string, a: string, s: string, e: string)
    ensures r + ("\n" + c + "\n\n") + a + s + e == r + ("\n" + (c + ("\n\n" + (a + (s + e)))))
  {
  }

  // -------------------------------------------------------------- whole runs

  /** One exchange of a run: the reply, then whatever is appended before the
      next request (tool results, and possibly other messages). */
  datatype Exchange = Exchange(reasoning: string, answer: string, calls: seq<Call>, after: seq<Message>)

  /** With thinking off there is no reasoning to keep. */
  function Thought(x: Exchange, thinking: bool): string {
    if thinking then x.reasoning else ""
  }

  function Entry(x: Exchange, thinking: bool): Message {
    Reply(Thought(x, thinking), x.answer, x.calls)
  }

  function Generated(x: Exchange, thinking: bool): string {
    if thinking then Completion(x.reasoning, x.answer, x.calls) else PlainCompletion(x.answer, x.calls)
  }

  /** Everything a run appends to the history it started from. */
  function Appended(run: seq<Exchange>, thinking: bool): seq<Message> {
    if run == [] then []
    else Appended(run[..|run| - 1], thinking) + [Entry(run[|run| - 1], thinking)] + run[|run| - 1].after
  }

  function RequestPrompt(ms: seq<Message>, run: seq<Exchange>, i: nat, setup: Setup, thinking: bool): string
    requires i <= |run|
  {
    Prompt(ms + Appended(run[..i], thinking), setup, thinking)
  }

  ghost predicate QueryBetween(run: seq<Exchange>, i: nat, j: nat)
    requires i <= j <= |run|
  {
    exists k :: i <= k < j && HasQuery(run[k].after)
  }

  lemma {:induction false} AppendedExtends(run: seq<Exchange>, i: nat, j: nat, thinking: bool) returns (rest: seq<Message>)
    requires i < j <= |run|
    ensures Appended(run[..j], thinking) == Appended(run[..i], thinking) + [Entry(run[i], thinking)] + rest
    ensures HasQuery(rest) <==> QueryBetween(run, i, j)
    decreases j
  {
    assert run[..j][..j - 1] == run[..j - 1];
    var x := run[j - 1];
    if j == i + 1 {
      rest := x.after;
      if QueryBetween(run, i, j) {
        var k :| i <= k < j && HasQuery(run[k].after);
        assert k == i;
      }
    } else {
      var front := AppendedExtends(run, i, j - 1, thinking);
      var entry := Entry(x, thinking);
      rest := front + ([entry] + x.after);
      RegroupMessages(Appended(run[..i], thinking), [Entry(run[i], thinking)], front, [entry], x.after);
      QueriesJoin(front, entry, x.after);
      QueryBetweenStep(run, i, j - 1);
    }
  }

  lemma QueriesJoin(front: seq<Message>, entry: Message, after: seq<Message>)
    requires !IsQuery(entry)
    ensures HasQuery(front + ([entry] + after)) <==> HasQuery(front) || HasQuery(after)
  {
    LastQueryAppend(front, [entry] + after);
    LastQueryAppend([entry], after);
    assert !IsQuery([entry][0]);
  }

  lemma QueryBetweenStep(run: seq<Exchange>, i: nat, j: nat)
    requires i <= j < |run|
    ensures QueryBetween(run, i, j + 1) <==> QueryBetween(run, i, j) || HasQuery(run[j].after)
  {
    if QueryBetween(run, i, j + 1) {
      var k :| i <= k < j + 1 && HasQuery(run[k].after);
      assert k < j ==> QueryBetween(run, i, j);
    }
  }

  lemma RegroupMessages(a: seq<Message>, b: seq<Message>, c: seq<Message>, d: seq<Message>, e: seq<Message>)
    ensures a + b + c + d + e == a + b + (c + (d + e))
  {
  }

  /** In both modes the model's text follows a think block: an open one that it
      fills, or one that is closed at once. */
  lemma SentText(ms: seq<Message>, x: Exchange, setup: Setup, thinking: bool)
    ensures Prompt(ms, setup, thinking) + Generated(x, thinking)
         == Body(ms, setup) + (ASSISTANT_TURN + (THINK_OPEN + Completion(Thought(x, thinking), x.answer, x.calls)))
  {
    RegroupSent(Body(ms, setup), ASSISTANT_TURN, THINK_OPEN, x.reasoning, THINK_CLOSE, x.answer,
                CallsShown(x.answer, x.calls), TURN_END);
  }

  lemma RegroupSent(b: string, t: string, o: string, r: string, c: string, a: string, s: string, e: string)
    ensures b + (t + o) + (r + c + a + s + e) == b + (t + (o + (r + c + a + s + e)))
    ensures b + (t + (o + c)) + (a + s + e) == b + (t + (o + ("" + c + a + s + e)))
  {
  }

  /** The think block dropped first can be told from what replaces it: one of
      the history's, or that of the reply. */
  ghost predicate TellingReply(history: seq<Message>, x: Exchange, thinking: bool) {
    TellingHistory(history) && (EmitsThink(history) || Telling(Thought(x, thinking), Trim(x.answer), x.calls))
  }

  /** There is a genuine query, so the reply keeps its think block for now, and
      nothing of the reply is trimmed away. */
  predicate Stays(history: seq<Message>, x: Exchange, thinking: bool) {
    HasQuery(history) && Trimmed(Thought(x, thinking)) && Trimmed(x.answer)
  }

  /** Prefix reuse over a whole run, thinking or not: request `i` with its
      completion is an exact prefix of a later prompt if its history has a
      genuine query, its reply is trimmed and no query was asked in between;
      otherwise the texts part. Only where a dropped think block cannot be told
      from an answer that fakes one is nothing said about the parting. */
  lemma RunPrefix(ms: seq<Message>, run: seq<Exchange>, i: nat, j: nat, setup: Setup, thinking: bool)
    requires i < j <= |run|
    ensures var history := ms + Appended(run[..i], thinking);
            var before := RequestPrompt(ms, run, i, setup, thinking) + Generated(run[i], thinking);
            var later := RequestPrompt(ms, run, j, setup, thinking);
            var kept := Stays(history, run[i], thinking) && !QueryBetween(run, i, j);
      && (kept ==> before <= later)
      && (!kept && HasQuery(history) && !QueryBetween(run, i, j) ==> Diverges(before, later))
      && (!kept && TellingReply(history, run[i], thinking) ==> Diverges(before, later))
      && (TellingReply(history, run[i], thinking) ==> (before <= later <==> kept))
  {
    var history, x := ms + Appended(run[..i], thinking), run[i];
    var rest := AppendedExtends(run, i, j, thinking);
    RegroupHistory(ms, Appended(run[..i], thinking), [Entry(x, thinking)], rest);
    SentText(history, x, setup, thinking);
    if HasQuery(history) && !HasQuery(rest) {
      ReplyKept(history, x, rest, setup, thinking);
    } else if TellingReply(history, x, thinking) {
      ReplyDropped(history, x, rest, setup, thinking);
    }
  }

  function Sent(history: seq<Message>, x: Exchange, setup: Setup, thinking: bool): string {
    Body(history, setup) + (ASSISTANT_TURN + (THINK_OPEN + Completion(Thought(x, thinking), x.answer, x.calls)))
  }

  lemma AppendSuffix(a: string, b: string, suffix: string)
    ensures a <= b ==> a <= b + suffix
    ensures Diverges(a, b) ==> Diverges(a, b + suffix)
    ensures Diverges(a, b) ==> !(a <= b)
  {
    if Diverges(a, b) {
      DivergesForever(a, b, "", suffix);
      assert a + "" == a;
    }
  }

  /** While no query comes, the reply keeps its think block. */
  lemma ReplyKept(history: seq<Message>, x: Exchange, rest: seq<Message>, setup: Setup, thinking: bool)
    requires HasQuery(history) && !HasQuery(rest)
    ensures var later := Prompt(history + [Entry(x, thinking)] + rest, setup, thinking);
      && (Stays(history, x, thinking) ==> Sent(history, x, setup, thinking) <= later)
      && (!Stays(history, x, thinking) ==> Diverges(Sent(history, x, setup, thinking), later))
      && !(Diverges(Sent(history, x, setup, thinking), later) && Sent(history, x, setup, thinking) <= later)
  {
    var r, entry := Thought(x, thinking), Entry(x, thinking);
    var replied := history + [entry];
    ReplyStays(history, entry, rest, setup);
    ReplyBody(history, r, x.answer, x.calls, setup);
    CompletionKept(Body(history, setup), r, x.answer, x.calls);
    ThroughLonger(Sent(history, x, setup, thinking), Body(replied, setup), Body(replied + rest, setup), Suffix(thinking));
  }

  lemma ReplyStays(history: seq<Message>, entry: Message, rest: seq<Message>, setup: Setup)
    requires HasQuery(history) && !HasQuery(rest) && entry.Message? && entry.role == Assistant
    ensures Body(history + [entry], setup) <= Body(history + [entry] + rest, setup)
  {
    LastQueryAppend(history, [entry]);
    AfterReply(history, entry, rest);
    SystemSettled(history + [entry], rest, setup);
    AppendExact(history + [entry], rest, setup);
  }

  lemma AfterReply(history: seq<Message>, entry: Message, rest: seq<Message>)
    requires entry.Message? && entry.role == Assistant
    ensures !Straddles(history + [entry], rest)
  {
    assert !ToolAt(history + [entry], |history|);
  }

  /** A completion is printed as it was sent if its parts are trimmed; if not, the texts part. */
  lemma CompletionKept(body: string, r: string, a: string, calls: seq<Call>)
    ensures var sent := body + (ASSISTANT_TURN + (THINK_OPEN + Completion(r, a, calls)));
            var printed := body + (ASSISTANT_TURN + (THINK_OPEN + Completion(Trim(r), Trim(a), calls)));
      if Trimmed(r) && Trimmed(a) then sent == printed else Diverges(sent, printed)
  {
    if Trimmed(r) && Trimmed(a) {
      TrimProperties(r);
      TrimProperties(a);
    } else {
      var sent, printed := Completion(r, a, calls), Completion(Trim(r), Trim(a), calls);
      UntrimmedDiverges(r, a, calls);
      DivergesAfter(THINK_OPEN, sent, printed);
      DivergesAfter(ASSISTANT_TURN, THINK_OPEN + sent, THINK_OPEN + printed);
      DivergesAfter(body, ASSISTANT_TURN + (THINK_OPEN + sent), ASSISTANT_TURN + (THINK_OPEN + printed));
    }
  }

  /** What holds against a text holds against whatever goes on from it. */
  lemma ThroughLonger(sent: string, printed: string, longer: string, suffix: string)
    requires printed <= longer
    ensures sent == printed ==> sent <= longer + suffix
    ensures Diverges(sent, printed) ==> Diverges(sent, longer + suffix)
    ensures !(Diverges(sent, longer + suffix) && sent <= longer + suffix)
  {
    if Diverges(sent, printed) {
      DivergesPrefix(sent, printed, longer);
    }
    AppendSuffix(sent, longer, suffix);
    NotBoth(sent, longer + suffix);
  }

  lemma DivergesPrefix(a: string, b: string, c: string)
    requires Diverges(a, b) && b <= c
    ensures Diverges(a, c)
  {
    var k :| 0 <= k < |a| && k < |b| && a[k] != b[k];
    assert c[k] == b[k];
  }

  /** With a query in the history, the reply is printed with its think block. */
  lemma ReplyBody(ms: seq<Message>, r: string, a: string, calls: seq<Call>, setup: Setup)
    requires HasQuery(ms)
    ensures Body(ms + [Reply(r, a, calls)], setup)
         == Body(ms, setup) + (ASSISTANT_TURN + (THINK_OPEN + Completion(Trim(r), Trim(a), calls)))
  {
    BodyWithReply(ms, setup, r, a, calls);
    ShowAssistant(calls, Trim(r), Trim(a), true);
    RegroupPrinted(ASSISTANT_TURN, THINK_OPEN, Trim(r), THINK_CLOSE, Trim(a), CallsShown(Trim(a), calls), TURN_END);
  }

  lemma RegroupPrinted(t: string, o: string, r: string, c: string, a: string, s: string, e: string)
    ensures t + (o + r + c) + a + s + e == t + (o + (r + c + a + s + e))
  {
  }

  /** Without a query before the reply, or with one after it, the reply ends up
      without its think block, and the first block dropped is where texts part. */
  lemma ReplyDropped(history: seq<Message>, x: Exchange, rest: seq<Message>, setup: Setup, thinking: bool)
    requires (!HasQuery(history) || HasQuery(rest)) && TellingReply(history, x, thinking)
    ensures var later := Prompt(history + [Entry(x, thinking)] + rest, setup, thinking);
      Diverges(Sent(history, x, setup, thinking), later) && !(Sent(history, x, setup, thinking) <= later)
  {
    var entry := Entry(x, thinking);
    var all := history + [entry] + rest;
    if EmitsThink(history) {
      RegroupThree(history, [entry], rest);
      LastQueryAppend([entry], rest);
      AppendExact(history, [entry] + rest, setup);
      var more := ASSISTANT_TURN + (THINK_OPEN + Completion(Thought(x, thinking), x.answer, x.calls));
      DivergesForever(Body(history, setup), Body(all, setup), more, "");
      NothingAppended(Body(all, setup));
    } else {
      UncutReply(history, x, rest, setup, thinking);
      ReplyParts(x, thinking);
      var bare := Show(AssistantPieces(x.calls, Trim(Thought(x, thinking)), Trim(x.answer), false));
      DivergesAfter(Body(history, setup), ASSISTANT_TURN + (THINK_OPEN + Completion(Thought(x, thinking), x.answer, x.calls)), bare);
      DivergesPrefix(Sent(history, x, setup, thinking), Body(history, setup) + bare, Body(all, setup));
    }
    AppendSuffix(Sent(history, x, setup, thinking), Body(all, setup), Suffix(thinking));
    NotBoth(Sent(history, x, setup, thinking), Body(all, setup) + Suffix(thinking));
  }

  lemma RegroupThree(a: seq<Message>, b: seq<Message>, c: seq<Message>)
    ensures a + b + c == a + (b + c)
  {
  }

  /** The reply as it was sent, and as it is printed without its think block. */
  lemma ReplyParts(x: Exchange, thinking: bool)
    requires Telling(Thought(x, thinking), Trim(x.answer), x.calls)
    ensures Diverges(ASSISTANT_TURN + (THINK_OPEN + Completion(Thought(x, thinking), x.answer, x.calls)),
                     Show(AssistantPieces(x.calls, Trim(Thought(x, thinking)), Trim(x.answer), false)))
  {
    var r, a := Thought(x, thinking), Trim(x.answer);
    var w, w' := TrimParts(x.answer);
    var shown := CallsShown(x.answer, x.calls);
    ShowAssistant(x.calls, Trim(r), a, false);
    BlockDiverges(r, w, a, w' + (shown + TURN_END), x.calls);
    DivergesAfter(ASSISTANT_TURN, THINK_OPEN + r + THINK_CLOSE + (w + a + (w' + (shown + TURN_END))),
                  a + (CallsShown(a, x.calls) + TURN_END));
    RegroupBlock(THINK_OPEN, r, THINK_CLOSE, w, a, w', shown, TURN_END);
    NothingAppended(ASSISTANT_TURN);
    RegroupTail(ASSISTANT_TURN, a, CallsShown(a, x.calls), TURN_END);
  }

  lemma RegroupBlock(o: string, r: string, c: string, w: string, a: string, w': string, s: string, e: string)
    ensures o + (r + c + (w + a + w') + s + e) == o + r + c + (w + a + (w' + (s + e)))
  {
  }

  /** A reply whose think block is cut off, and nothing dropped before it. */
  lemma UncutReply(history: seq<Message>, x: Exchange, rest: seq<Message>, setup: Setup, thinking: bool)
    requires (!HasQuery(history) || HasQuery(rest)) && !EmitsThink(history)
    ensures Body(history, setup) + Show(AssistantPieces(x.calls, Trim(Thought(x, thinking)), Trim(x.answer), false))
         <= Body(history + [Entry(x, thinking)] + rest, setup)
  {
    var replied := history + [Entry(x, thinking)];
    var all := replied + rest;
    var cut, head := LastQuery(all), Show(SystemPieces(history, setup));
    CutAfterReply(history, Entry(x, thinking), rest);
    assert SystemText(all) == SystemText(history);
    assert !ToolAt(replied, |history|);
    PrefixByCutoff(head, replied, rest, cut, cut);
    ReplyAppended(head, history, LastQuery(history), cut, Thought(x, thinking), x.answer, x.calls);
  }

  lemma CutAfterReply(history: seq<Message>, entry: Message, rest: seq<Message>)
    requires entry.Message? && entry.role == Assistant && (!HasQuery(history) || HasQuery(rest))
    ensures LastQuery(history + [entry] + rest) >= |history|
  {
    var replied := history + [entry];
    LastQueryAppend(history, [entry]);
    LastQueryAppend(replied, rest);
    assert !IsQuery([entry][0]);
  }

  lemma RegroupHistory(a: seq<Message>, b: seq<Message>, c: seq<Message>, d: seq<Message>)
    ensures a + (b + c + d) == a + b + c + d
  {
  }
}
