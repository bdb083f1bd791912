/** What a message's content amounts to: a list of text parts against the same text
    in one piece, and the user messages that count as queries. */
module ChatContent {
  import opened Wrappers
  import opened Text
  import opened ChatTemplate
  import opened ThinkBlocks
  import opened ChatPrefix

  // --------------------------------------------------------------- text parts

  function WithContent(ms: seq<Message>, i: nat, c: Content): seq<Message>
    requires i < |ms| && ms[i].Message?
  {
    ms[i := ms[i].(content := c)]
  }

  /** Messages that differ only in how their content is spelled. */
  predicate SameText(m: Message, m': Message) {
    m == m' || (m.Message? && m'.Message? && m' == m.(content := m'.content) && RenderContent(m.content) == RenderContent(m'.content))
  }

  lemma SameQuery(m: Message, m': Message)
    requires SameText(m, m')
    ensures IsQuery(m) == IsQuery(m') && IsSystem(m) == IsSystem(m') && (m.Message? ==> ContentOf(m) == ContentOf(m'))
  {
  }

  lemma SamePieces(m: Message, m': Message, prevTool: bool, nextTool: bool, showThink: bool)
    requires SameText(m, m')
    ensures MessagePieces(m, prevTool, nextTool, showThink) == MessagePieces(m', prevTool, nextTool, showThink)
  {
  }

  ghost predicate SameThroughout(ms: seq<Message>, ms': seq<Message>) {
    |ms| == |ms'| && forall j :: 0 <= j < |ms| ==> SameText(ms[j], ms'[j])
  }

  lemma SameTool(ms: seq<Message>, ms': seq<Message>, i: int)
    requires SameThroughout(ms, ms')
    ensures ToolAt(ms, i) == ToolAt(ms', i)
  {
    if 0 <= i < |ms| {
      assert SameText(ms[i], ms'[i]);
    }
  }

  /** Conversations that differ only in how contents are spelled print alike. */
  lemma {:induction false} SameBody(ms: seq<Message>, ms': seq<Message>, setup: Setup)
    requires SameThroughout(ms, ms')
    ensures Body(ms, setup) == Body(ms', setup)
  {
    SameOpening(ms, ms');
    SameItems(ms, ms', LastQuery(ms));
  }

  lemma {:induction false} SameOpening(ms: seq<Message>, ms': seq<Message>)
    requires SameThroughout(ms, ms')
    ensures LastQuery(ms) == LastQuery(ms') && SystemText(ms) == SystemText(ms')
  {
    forall j | 0 <= j < |ms|
      ensures IsQuery(ms[j]) == IsQuery(ms'[j]) && IsSystem(ms[j]) == IsSystem(ms'[j])
      ensures ms[j].Message? ==> ms'[j].Message? && ContentOf(ms[j]) == ContentOf(ms'[j])
    {
      SameQuery(ms[j], ms'[j]);
    }
    SameCutoff(ms, ms');
  }

  lemma {:induction false} SameItems(ms: seq<Message>, ms': seq<Message>, cut: int)
    requires SameThroughout(ms, ms')
    ensures Texts(ms, cut) == Texts(ms', cut)
  {
    forall j | 0 <= j < |ms|
      ensures ItemText(ms, j, cut) == ItemText(ms', j, cut)
    {
      SameTool(ms, ms', j - 1);
      SameTool(ms, ms', j + 1);
      SamePieces(ms[j], ms'[j], ToolAt(ms, j - 1), ToolAt(ms, j + 1), j > cut);
    }
  }

  lemma SameCutoff(ms: seq<Message>, ms': seq<Message>)
    requires |ms| == |ms'| && forall j :: 0 <= j < |ms| ==> IsQuery(ms[j]) == IsQuery(ms'[j])
    ensures LastQuery(ms) == LastQuery(ms')
  {
    assert HasQuery(ms) <==> HasQuery(ms');
  }

  lemma SameContent(ms: seq<Message>, i: nat, c: Content, c': Content, setup: Setup)
    requires i < |ms| && ms[i].Message? && RenderContent(c) == RenderContent(c')
    ensures Body(WithContent(ms, i, c), setup) == Body(WithContent(ms, i, c'), setup)
  {
    var a, b := WithContent(ms, i, c), WithContent(ms, i, c');
    forall j | 0 <= j < |a|
      ensures SameText(a[j], b[j])
    {
    }
    SameBody(a, b, setup);
  }

  /** In any conversation, text parts count in their order: two neighbours print
      like one part that holds both texts. */
  lemma PartsMerge(ms: seq<Message>, i: nat, a: seq<Part>, s: string, t: string, b: seq<Part>, setup: Setup)
    requires i < |ms| && ms[i].Message?
    ensures Body(WithContent(ms, i, Parts(a + [TextPart(s), TextPart(t)] + b)), setup)
         == Body(WithContent(ms, i, Parts(a + [TextPart(s + t)] + b)), setup)
  {
    assert [TextPart(s), TextPart(t)] == [TextPart(s)] + [TextPart(t)];
    JoinAppend([TextPart(s)], [TextPart(t)]);
    PartAlone(TextPart(s));
    PartAlone(TextPart(t));
    PartAlone(TextPart(s + t));
    JoinAppend(a, [TextPart(s), TextPart(t)]);
    JoinAppend(a, [TextPart(s + t)]);
    JoinAppend(a + [TextPart(s), TextPart(t)], b);
    JoinAppend(a + [TextPart(s + t)], b);
    SameContent(ms, i, Parts(a + [TextPart(s), TextPart(t)] + b), Parts(a + [TextPart(s + t)] + b), setup);
  }

  /** Anything else in the list adds nothing, wherever it stands. */
  lemma PartsSkip(ms: seq<Message>, i: nat, a: seq<Part>, b: seq<Part>, setup: Setup)
    requires i < |ms| && ms[i].Message?
    ensures Body(WithContent(ms, i, Parts(a + [IgnoredPart] + b)), setup) == Body(WithContent(ms, i, Parts(a + b)), setup)
  {
    PartAlone(IgnoredPart);
    JoinAppend(a, [IgnoredPart]);
    JoinAppend(a + [IgnoredPart], b);
    JoinAppend(a, b);
    NothingAppended(JoinParts(a));
    SameContent(ms, i, Parts(a + [IgnoredPart] + b), Parts(a + b), setup);
  }

  /** A single part prints like its text, an empty list like no content at all, and
      any other value like its dump. */
  lemma PartsPlain(ms: seq<Message>, i: nat, s: string, setup: Setup)
    requires i < |ms| && ms[i].Message?
    ensures Body(WithContent(ms, i, Parts([TextPart(s)])), setup) == Body(WithContent(ms, i, Plain(s)), setup)
    ensures Body(WithContent(ms, i, OtherJson(s)), setup) == Body(WithContent(ms, i, Plain(s)), setup)
    ensures Body(WithContent(ms, i, Parts([])), setup) == Body(WithContent(ms, i, Plain("")), setup)
         == Body(WithContent(ms, i, Null), setup)
  {
    PartAlone(TextPart(s));
    SameContent(ms, i, Parts([TextPart(s)]), Plain(s), setup);
    SameContent(ms, i, OtherJson(s), Plain(s), setup);
    SameContent(ms, i, Parts([]), Plain(""), setup);
    SameContent(ms, i, Plain(""), Null, setup);
  }

  /** A list split anywhere prints like the text of its halves, one after the other:
      if the halves on their own print like `x` and `y`, the whole prints like `x + y`. */
  lemma PartsSplit(ms: seq<Message>, i: nat, a: seq<Part>, b: seq<Part>, setup: Setup)
    requires i < |ms| && ms[i].Message?
    ensures Body(WithContent(ms, i, Parts(a + b)), setup)
         == Body(WithContent(ms, i, Plain(RenderContent(Parts(a)) + RenderContent(Parts(b)))), setup)
  {
    JoinAppend(a, b);
    SameContent(ms, i, Parts(a + b), Plain(JoinParts(a) + JoinParts(b)), setup);
  }

  /** Two text parts are their texts in order. */
  lemma TwoParts(ms: seq<Message>, i: nat, s: string, t: string, setup: Setup)
    requires i < |ms| && ms[i].Message?
    ensures Body(WithContent(ms, i, Parts([TextPart(s), TextPart(t)])), setup) == Body(WithContent(ms, i, Plain(s + t)), setup)
  {
    PartsMerge(ms, i, [], s, t, [], setup);
    assert [] + [TextPart(s), TextPart(t)] + [] == [TextPart(s), TextPart(t)];
    assert [] + [TextPart(s + t)] + [] == [TextPart(s + t)];
    PartsPlain(ms, i, s + t, setup);
  }

  // ------------------------------------------------------------------- queries

  lemma {:induction false} StartsWithMeans(s: string, pat: string)
    ensures StartsWith(s, pat) <==> pat <= s
  {
    if pat != "" && s != "" {
      StartsWithMeans(s[1..], pat[1..]);
      if s[0] == pat[0] && pat[1..] <= s[1..] {
        assert pat == [pat[0]] + pat[1..] && s == [s[0]] + s[1..];
      }
    }
  }

  lemma {:induction false} EndsWithMeans(s: string, pat: string)
    ensures EndsWith(s, pat) <==> |pat| <= |s| && s[|s| - |pat|..] == pat
  {
    if pat != "" && s != "" {
      var s', pat' := s[..|s| - 1], pat[..|pat| - 1];
      EndsWithMeans(s', pat');
      if |pat| <= |s| {
        assert s[|s| - |pat|..] == s'[|s'| - |pat'|..] + [s[|s| - 1]];
        assert pat == pat' + [pat[|pat| - 1]];
      }
    }
  }

  /** A text that begins and ends like a printed tool result. */
  ghost predicate Wrapped(t: string) {
    "<tool_response>" <= t && exists head: string :: t == head + "</tool_response>"
  }

  lemma WrappedMeans(t: string)
    ensures StartsWith(t, "<tool_response>") && EndsWith(t, "</tool_response>") <==> Wrapped(t)
  {
    var tail := "</tool_response>";
    StartsWithMeans(t, "<tool_response>");
    EndsWithMeans(t, tail);
    if |tail| <= |t| && t[|t| - |tail|..] == tail {
      assert t == t[..|t| - |tail|] + tail;
    }
    if head: string :| t == head + tail {
      assert t[|head|..] == tail;
    }
  }

  /** Queries are the user messages whose trimmed text is no wrapped tool result. */
  lemma QueryExactly(m: Message)
    ensures IsQuery(m) <==> m.Message? && m.role == User && !Wrapped(Trim(RenderContent(m.content)))
  {
    if m.Message? {
      WrappedMeans(ContentOf(m));
      TrimProperties(RenderContent(m.content));
      TrimProperties(ContentOf(m));
    }
  }

  /** A user message ends the reuse of printed think blocks exactly if it is a query:
      a wrapped tool result leaves the text before it as it was. */
  lemma UserAppended(ms: seq<Message>, c: Content, setup: Setup)
    requires HasQuery(ms) && EmitsThink(ms) && TellingHistory(ms)
    ensures Body(ms, setup) <= Body(ms + [Message(User, c, None, [])], setup) <==> Wrapped(Trim(RenderContent(c)))
  {
    var m := Message(User, c, None, []);
    QueryExactly(m);
    SystemSettled(ms, [m], setup);
    AppendExact(ms, [m], setup);
    assert [m][0] == m;
    assert !Straddles(ms, [m]);
    assert HasQuery([m]) <==> IsQuery(m);
  }
}
