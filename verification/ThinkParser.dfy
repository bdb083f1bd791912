/** The think parser on any text: no tag, a tag that is never closed, or a think block. */
module ThinkParser {
  import opened Text
  import opened ChatTemplate
  import opened ChatReasoning
  import opened InlineReasoning
  import opened InlineSeam

  /** Without the opening tag, everything is the answer. */
  lemma Untagged(text: string)
    requires !Has(text, OPEN_TAG)
    ensures Split(text) == ("", text)
  {
  }

  /** Without a closing tag behind the first opening tag, everything behind it is
      reasoning, less one line end, and what was before it is lost. */
  lemma {:induction false} NeverClosed(before: string, lead: string, core: string)
    requires Fresh(before, OPEN_TAG) && !Has(lead + core, CLOSE_TAG)
    requires lead == "\n" || (lead == "" && (core == "" || core[0] != '\n'))
    ensures Split(before + OPEN_TAG + (lead + core)) == (core, "")
  {
    var r, p := lead + core, before + OPEN_TAG;
    TagFacts();
    FreshAnyway(before, OPEN_TAG, r);
    NothingBehind(p, r, CLOSE_TAG);
    TextBehind(p, r);
    LeadDropped(lead, core);
    NoneFound(p + r, |p|, CLOSE_TAG);
    assert Split(p + r) == SplitAfter(p + r, |p|, CLOSE_TAG);
  }

  lemma TextBehind(p: string, r: string)
    ensures (p + r)[|p|..] == r
  {
  }

  lemma {:induction false} LeadDropped(lead: string, core: string)
    requires lead == "\n" || (lead == "" && (core == "" || core[0] != '\n'))
    ensures DropLeadingNewline(lead + core) == core
  {
    assert lead == "" ==> lead + core == core;
    assert lead == "\n" ==> (lead + core)[1..] == core;
  }

  lemma {:induction false} NothingBehind(p: string, r: string, tag: string)
    requires tag != "" && !Has(r, tag)
    ensures Find(p + r, tag, |p|) == -1
  {
    FindShift(p, r, tag, 0);
    var e := Find(r, tag, 0);
    assert e == -1 || OccursAt(r, tag, e);
  }

  /** A think block is cut at its first closing tag: the reasoning loses at most one line
      end at either side, the answer all line ends in front, and what was before the
      block is lost. */
  lemma {:induction false} Closed(before: string, lead: string, core: string, trail: string, gap: string, answer: string)
    requires Fresh(before, OPEN_TAG) && Fresh(lead + core + trail, CLOSE_TAG)
    requires lead == "\n" || (lead == "" && (core + trail == "" || (core + trail)[0] != '\n'))
    requires trail == "\n" || (trail == "" && (core == "" || core[|core| - 1] != '\n'))
    requires (forall c :: c in gap ==> c in NEWLINES) && (answer == "" || answer[0] !in NEWLINES)
    ensures Split(before + OPEN_TAG + (lead + core + trail + CLOSE_TAG + (gap + answer))) == (core, answer)
  {
    var r, rest := lead + core + trail, gap + answer;
    TagFacts();
    FreshAnyway(before, OPEN_TAG, r + CLOSE_TAG + rest);
    InnerDropped(lead, core, trail);
    GapDropped(gap, answer);
    var text, end := BlockEnds(before + OPEN_TAG, r, CLOSE_TAG, rest);
    BlockCut(text, |before + OPEN_TAG|, CLOSE_TAG, end, r, rest);
    SplitBehind(text, OPEN_TAG, CLOSE_TAG, |before|);
  }

  lemma {:induction false} SplitBehind(text: string, open: string, close: string, start: nat)
    requires Find(text, open, 0) == start && start + |open| <= |text|
    ensures SplitBy(text, open, close) == SplitAfter(text, start + |open|, close)
  {
  }

  /** Behind `p`, a block that ends at its first closing tag. */
  lemma {:induction false} BlockEnds(p: string, r: string, tag: string, rest: string) returns (text: string, end: nat)
    requires tag != "" && Fresh(r, tag)
    ensures text == p + (r + tag + rest) && |p| <= end && end + |tag| <= |text| && Find(text, tag, |p|) == end
    ensures text[|p|..end] == r && text[end + |tag|..] == rest
  {
    text, end := p + (r + tag + rest), |p| + |r|;
    FreshAnyway(r, tag, rest);
    FindShift(p, r + tag + rest, tag, 0);
    ClosedParts(p, r, tag, rest);
  }

  lemma {:induction false} BlockCut(text: string, from: nat, tag: string, end: nat, r: string, rest: string)
    requires from <= end && end + |tag| <= |text| && Find(text, tag, from) == end
    requires text[from..end] == r && text[end + |tag|..] == rest
    ensures SplitAfter(text, from, tag) == (DropTrailingNewline(DropLeadingNewline(r)), StripLeft(rest, NEWLINES))
  {
    AroundIs(text, from, end, end + |tag|, r, rest);
    AfterFound(text, from, tag, end);
  }

  lemma {:induction false} AroundIs(text: string, from: nat, end: nat, after: nat, r: string, rest: string)
    requires from <= end <= after <= |text| && text[from..end] == r && text[after..] == rest
    ensures Around(text, from, end, after) == (DropTrailingNewline(DropLeadingNewline(r)), StripLeft(rest, NEWLINES))
  {
  }

  lemma ClosedParts(p: string, r: string, tag: string, rest: string)
    ensures var text := p + (r + tag + rest);
      |p| + |r| + |tag| <= |text| && text[|p|..|p| + |r|] == r && text[|p| + |r| + |tag|..] == rest
  {
  }

  lemma {:induction false} InnerDropped(lead: string, core: string, trail: string)
    requires lead == "\n" || (lead == "" && (core + trail == "" || (core + trail)[0] != '\n'))
    requires trail == "\n" || (trail == "" && (core == "" || core[|core| - 1] != '\n'))
    ensures DropTrailingNewline(DropLeadingNewline(lead + core + trail)) == core
  {
    Associative(lead, core, trail);
    LeadDropped(lead, core + trail);
    TrailDropped(core, trail);
  }

  lemma {:induction false} TrailDropped(core: string, trail: string)
    requires trail == "\n" || (trail == "" && (core == "" || core[|core| - 1] != '\n'))
    ensures DropTrailingNewline(core + trail) == core
  {
    assert trail == "" ==> core + trail == core;
    assert trail == "\n" ==> (core + trail)[..|core|] == core;
  }

  lemma {:induction false} GapDropped(gap: string, answer: string)
    requires (forall c :: c in gap ==> c in NEWLINES) && (answer == "" || answer[0] !in NEWLINES)
    ensures StripLeft(gap + answer, NEWLINES) == answer
  {
    if gap == "" {
      assert gap + answer == answer;
    } else {
      assert gap[0] in gap;
      assert forall c :: c in gap[1..] ==> c in gap;
      GapDropped(gap[1..], answer);
      assert (gap + answer)[1..] == gap[1..] + answer;
    }
  }
}
