/** The reasoning splitter against the printed think form. */
module ChatReasoning {
  import opened Wrappers
  import opened Text
  import opened ChatTemplate

  /** An answer with its reasoning printed inline. */
  function Inline(reasoning: string, answer: string): string {
    THINK_OPEN + reasoning + THINK_CLOSE + answer
  }

  lemma FindAtStart(pat: string, rest: string)
    ensures Find(pat + rest, pat, 0) == 0
  {
    assert OccursAt(pat + rest, pat, 0);
  }

  /** Searching past a prefix is searching the rest. */
  lemma {:induction false} FindShift(p: string, s: string, pat: string, from: nat)
    ensures Find(p + s, pat, |p| + from) == if Find(s, pat, from) == -1 then -1 else |p| + Find(s, pat, from)
    decreases |s| - from
  {
    if from + |pat| <= |s| {
      assert (p + s)[|p| + from..|p| + from + |pat|] == s[from..from + |pat|];
      FindShift(p, s, pat, from + 1);
    }
  }

  /** A tag that does not begin with `c` occurs in `c` + r only inside r. */
  lemma HasAfter(c: char, r: string, tag: string)
    requires tag != "" && tag[0] != c
    ensures Has([c] + r, tag) <==> Has(r, tag)
  {
    if Has([c] + r, tag) {
      var i :| OccursAt([c] + r, tag, i);
      assert ([c] + r)[i..i + |tag|][0] == ([c] + r)[i];
      assert ([c] + r)[i..i + |tag|] == r[i - 1..i - 1 + |tag|];
      assert OccursAt(r, tag, i - 1);
    }
    if Has(r, tag) {
      var i :| OccursAt(r, tag, i);
      assert ([c] + r)[i + 1..i + 1 + |tag|] == r[i..i + |tag|];
      assert OccursAt([c] + r, tag, i + 1);
    }
  }

  lemma TagFacts()
    ensures |OPEN_TAG| == 7 && OPEN_TAG[0] == '<'
    ensures |CLOSE_TAG| == 8 && CLOSE_TAG[0] == '<' && CLOSE_TAG[7] == '>' && '\n' !in CLOSE_TAG
    ensures THINK_OPEN == OPEN_TAG + "\n" && THINK_CLOSE == "\n" + CLOSE_TAG + "\n\n"
  {
  }

  /** Where the closing tag of a printed think block is found. */
  lemma {:induction false} CloseFound(open: string, close: string, r: string, after: string)
    requires close != "" && '\n' !in close
    ensures var text := open + (("\n" + r) + ['\n'] + close + after);
            var end := Find(text, close, |open|);
      if Has(r, close) then |open| < end < |open| + 2 + |r| else end == |open| + 2 + |r|
  {
    var v := "\n" + r;
    var s := v + ['\n'] + close + after;
    FindShift(open, s, close, 0);
    FindAcross(v, '\n', close, after);
    HasAfter('\n', r, close);
    assert OccursAt(s, close, |v| + 1);
    if OccursAt(s, close, 0) {
      OccursHead(s, close, 0);
    }
  }

  lemma OccursHead(s: string, pat: string, at: int)
    requires pat != "" && OccursAt(s, pat, at)
    ensures s[at] == pat[0]
  {
    assert s[at..at + |pat|][0] == s[at];
  }

  lemma Slices(open: string, v: string, rest: string, end: nat)
    requires |open| <= end <= |open| + |v|
    ensures (open + (v + rest))[|open|..end] == v[..end - |open|]
  {
  }

  lemma {:induction false} AroundClose(open: string, v: string, close: string, after: string)
    ensures var text, end := open + (v + (close + after)), |open| + |v|;
      end + |close| <= |text| && text[|open|..end] == v && text[end + |close|..] == after
  {
  }

  lemma DropBoth(r: string)
    ensures DropTrailingNewline(DropLeadingNewline("\n" + r + "\n")) == r
  {
    assert ("\n" + r + "\n")[1..] == r + "\n";
    assert (r + "\n")[..|r|] == r;
  }

  lemma DropShorter(s: string, v: string)
    requires 0 < |s| && s <= "\n" + v
    ensures |DropTrailingNewline(DropLeadingNewline(s))| < |s|
  {
  }

  /** The two slices around a closing tag that is found inside the reasoning. */
  lemma {:induction false} CutInside(open: string, close: string, r: string, after: string) returns (text: string, end: nat)
    requires close != "" && '\n' !in close && close[0] !in NEWLINES && Has(r, close)
    ensures text == open + (("\n" + r) + ['\n'] + close + after) && end == Find(text, close, |open|)
    ensures |open| < end && end + |close| <= |text|
    ensures |DropTrailingNewline(DropLeadingNewline(text[|open|..end]))| < |r|
    ensures |StripLeft(text[end + |close|..], NEWLINES)| >= |close| + |after|
  {
    CloseFound(open, close, r, after);
    text := open + (("\n" + r) + ['\n'] + close + after);
    end := Find(text, close, |open|);
    OccursInText(text, close, end, open, r, after);
    PartsInside(open, close, r, after, end);
    RestInside(open, close, r, after, end + |close|);
  }

  /** The two slices around the printed closing tag. */
  lemma {:induction false} CutAtEnd(open: string, close: string, r: string, after: string) returns (text: string, end: nat)
    requires close != "" && '\n' !in close && !Has(r, close)
    ensures text == open + (("\n" + r) + ['\n'] + close + after) && end == Find(text, close, |open|)
    ensures |open| < end && end + |close| <= |text|
    ensures DropTrailingNewline(DropLeadingNewline(text[|open|..end])) == r && text[end + |close|..] == after
  {
    CloseFound(open, close, r, after);
    text := open + (("\n" + r) + ['\n'] + close + after);
    end := Find(text, close, |open|);
    PartsAtEnd(open, close, r, after);
  }

  lemma RegroupText(open: string, r: string, close: string, after: string)
    ensures open + (("\n" + r) + ['\n'] + close + after) == open + (("\n" + r + "\n") + (close + after))
  {
  }

  /** What is cut out when a closing tag is found inside the reasoning. */
  lemma {:induction false} PartsInside(open: string, close: string, r: string, after: string, end: nat)
    requires |open| < end <= |open| + |r|
    ensures var text := open + (("\n" + r) + ['\n'] + close + after);
      end <= |text| && |DropTrailingNewline(DropLeadingNewline(text[|open|..end]))| < |r|
  {
    var v := "\n" + r + "\n";
    RegroupText(open, r, close, after);
    Slices(open, v, close + after, end);
    DropShorter(v[..end - |open|], r + "\n");
  }

  /** The slices when the closing tag found is the printed one. */
  lemma {:induction false} PartsAtEnd(open: string, close: string, r: string, after: string)
    ensures var text := open + (("\n" + r) + ['\n'] + close + after);
            var end := |open| + 2 + |r|;
      && end + |close| <= |text|
      && DropTrailingNewline(DropLeadingNewline(text[|open|..end])) == r && text[end + |close|..] == after
  {
    RegroupText(open, r, close, after);
    AroundClose(open, "\n" + r + "\n", close, after);
    DropBoth(r);
  }

  /** A closing tag found inside the reasoning ends inside it. */
  lemma {:induction false} OccursInText(text: string, close: string, end: nat, open: string, r: string, after: string)
    requires close != "" && '\n' !in close
    requires text == open + (("\n" + r) + ['\n'] + close + after)
    requires |open| < end < |open| + 2 + |r| && OccursAt(text, close, end)
    ensures end + |close| <= |open| + 1 + |r|
  {
    forall p | end <= p < end + |close|
      ensures text[p] in close
    {
      assert text[p] == text[end..end + |close|][p - end];
    }
    assert text[|open| + 1 + |r|] == '\n';
  }

  /** Splitting a think block with `after` behind it. With a closing tag in the
      reasoning, the printed one is left in the answer. */
  lemma {:induction false} SplitTagged(r: string, after: string)
    ensures var (reasoning, answer) := Split(OPEN_TAG + (("\n" + r) + ['\n'] + CLOSE_TAG + after));
      if Has(r, CLOSE_TAG) then |reasoning| < |r| && |answer| >= |CLOSE_TAG| + |after|
      else (reasoning, answer) == (r, StripLeft(after, NEWLINES))
  {
    CloseTagFacts();
    FindAtStart(OPEN_TAG, ("\n" + r) + ['\n'] + CLOSE_TAG + after);
    if Has(r, CLOSE_TAG) {
      var text, end := CutInside(OPEN_TAG, CLOSE_TAG, r, after);
      SplitAt(text, OPEN_TAG, CLOSE_TAG, end);
    } else {
      var text, end := CutAtEnd(OPEN_TAG, CLOSE_TAG, r, after);
      SplitAt(text, OPEN_TAG, CLOSE_TAG, end);
    }
  }

  lemma CloseTagFacts()
    ensures CLOSE_TAG != "" && '\n' !in CLOSE_TAG && CLOSE_TAG[0] !in NEWLINES
  {
  }

  /** A text that begins with the opening tag, cut at its closing tag. */
  lemma {:induction false} SplitAt(text: string, open: string, close: string, end: nat)
    requires Find(text, open, 0) == 0 && end == Find(text, close, |open|)
    ensures |open| <= end && end + |close| <= |text|
    ensures SplitBy(text, open, close) == Around(text, |open|, end, end + |close|)
  {
    AfterFound(text, |open|, close, end);
    assert SplitBy(text, open, close) == SplitAfter(text, |open|, close);
  }

  lemma RegroupInline(o: string, r: string, k: string, a: string)
    ensures (o + "\n") + r + ("\n" + k + "\n\n") + a == o + (("\n" + r) + ['\n'] + k + ("\n\n" + a))
    ensures (o + "\n") + r + ("\n" + k + "\n\n") + "" == o + (("\n" + r) + ['\n'] + k + "") + "\n\n"
  {
  }

  lemma {:induction false} StripNewlines(a: string)
    ensures StripLeft("\n\n" + a, NEWLINES) == StripLeft(a, NEWLINES)
    ensures StripLeft(a, NEWLINES) == a <==> a == "" || a[0] !in NEWLINES
  {
    assert ("\n\n" + a)[1..] == "\n" + a;
    assert ("\n" + a)[1..] == a;
    StripLeftProperties(a, NEWLINES);
  }

  /** The splitter inverts the printed form exactly when the reasoning does not
      contain the closing tag and the answer does not begin with a newline. */
  lemma SplitInverse(reasoning: string, answer: string)
    ensures Split(Inline(reasoning, answer)) == (reasoning, answer)
        <==> !Has(reasoning, CLOSE_TAG) && (answer == "" || answer[0] !in NEWLINES)
  {
    TagFacts();
    RegroupInline(OPEN_TAG, reasoning, CLOSE_TAG, answer);
    SplitTagged(reasoning, "\n\n" + answer);
    StripNewlines(answer);
  }

  /** Behind a closing tag found inside the reasoning, the printed one is still to come. */
  lemma {:induction false} RestInside(open: string, close: string, r: string, after: string, at: nat)
    requires close != "" && close[0] !in NEWLINES && at <= |open| + 1 + |r|
    ensures var text := open + (("\n" + r) + ['\n'] + close + after);
      at <= |text| && |StripLeft(text[at..], NEWLINES)| >= |close| + |after|
  {
    var text := open + (("\n" + r) + ['\n'] + close + after);
    RestFrom(open, r, close, after, at);
    StripKeeps(text[at..|open| + 2 + |r|], close + after, NEWLINES);
  }

  lemma {:induction false} RestFrom(open: string, r: string, close: string, after: string, at: nat)
    requires at <= |open| + 2 + |r|
    ensures var text := open + (("\n" + r) + ['\n'] + close + after);
            var n := |open| + 2 + |r|;
      n <= |text| && text[at..] == text[at..n] + (close + after)
  {
    var text := open + (("\n" + r) + ['\n'] + close + after);
    var n := |open| + 2 + |r|;
    assert text == (open + (("\n" + r) + ['\n'])) + (close + after);
    assert text[n..] == close + after;
  }

  lemma {:induction false} StripKeeps(a: string, b: string, drop: set<char>)
    requires b != "" && b[0] !in drop
    ensures |StripLeft(a + b, drop)| >= |b|
  {
    if a == "" {
      assert a + b == b;
    } else if a[0] in drop {
      StripKeeps(a[1..], b, drop);
      assert (a + b)[1..] == a[1..] + b;
    }
  }
}
