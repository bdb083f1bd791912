/** Which tool calls can be read back from the text they are printed as. */
module ToolCallCodec {
  import opened Wrappers
  import opened Text
  import opened ChatTemplate
  import opened Lists

  const CALL_OPEN := "<tool_call>\n<function="
  const PARAM_OPEN := "<parameter="
  const PARAM_CLOSE := "\n</parameter>\n"

  // ---------------------------------------------------------------- the reader

  /** What follows a fixed prefix. */
  function After(s: string, prefix: string): (r: Option<string>)
    ensures r.Some? <==> prefix <= s
    ensures r.Some? ==> s == prefix + r.value
  {
    if prefix <= s then Some(s[|prefix|..]) else None
  }

  /** The text before the first '>', and the text after it and a newline. */
  function Header(s: string): (r: Option<(string, string)>)
    ensures r.Some? ==> s == r.value.0 + (">\n" + r.value.1)
  {
    var at := FirstOf(s, '>');
    if at == |s| then None
    else match After(s[at..], ">\n")
      case None => None
      case Some(rest) => Some((s[..at], rest))
  }

  function FirstOf(s: string, c: char): (at: nat)
    ensures at <= |s| && (forall i :: 0 <= i < at ==> s[i] != c) && (at < |s| ==> s[at] == c)
  {
    if s == "" || s[0] == c then 0 else 1 + FirstOf(s[1..], c)
  }

  /** A value in which the closing line is not found before its own. */
  predicate PlainValue(value: string) {
    Find(value + PARAM_CLOSE, PARAM_CLOSE, 0) == |value|
  }

  /** The text before the first closing line, and the text after it. */
  function ReadValue(s: string): (r: Option<(string, string)>)
    ensures r.Some? ==> s == r.value.0 + (PARAM_CLOSE + r.value.1)
  {
    var end := Find(s, PARAM_CLOSE, 0);
    if end < 0 then None
    else
      CutAround(s, PARAM_CLOSE, end);
      Some((s[..end], s[end + |PARAM_CLOSE|..]))
  }

  lemma CutAround(s: string, pat: string, at: nat)
    requires OccursAt(s, pat, at)
    ensures s == s[..at] + (pat + s[at + |pat|..])
  {
    assert s == s[..at] + s[at..at + |pat|] + s[at + |pat|..];
  }

  type Params = seq<(string, string)>

  type Printed = (string, Params)

  function ReadParams(s: string): (r: Option<(Params, string)>)
    ensures r.Some? ==> |r.value.1| < |s|
    decreases |s|
  {
    match After(s, PARAM_OPEN)
    case None => (match After(s, CALL_TAIL) case None => None case Some(rest) => Some(([], rest)))
    case Some(s1) =>
      match Header(s1)
      case None => None
      case Some((key, body)) =>
        match ReadValue(body)
        case None => None
        case Some((value, next)) =>
          match ReadParams(next)
          case None => None
          case Some((ps, rest)) => Some(([(key, value)] + ps, rest))
  }

  /** Reads one printed call off the front of `s`. */
  function ReadCall(s: string): (r: Option<(Printed, string)>)
    ensures r.Some? ==> |r.value.1| < |s|
  {
    match After(s, CALL_OPEN)
    case None => None
    case Some(s1) =>
      match Header(s1)
      case None => None
      case Some((name, s2)) =>
        if name == "" then None
        else match ReadParams(s2)
          case None => None
          case Some((ps, rest)) => Some(((name, ps), rest))
  }

  /** Reads a newline-separated list of printed calls. */
  function ReadCalls(s: string): Option<seq<Printed>>
    decreases |s|
  {
    if s == "" then Some([])
    else match ReadCall(s)
      case None => None
      case Some((call, rest)) =>
        if rest == "" then Some([call])
        else if rest[0] != '\n' then None
        else match ReadCalls(rest[1..])
          case None => None
          case Some(calls) => Some([call] + calls)
  }

  // ----------------------------------------------------- what can be read back

  predicate PlainParam(p: (string, string)) {
    '>' !in p.0 && PlainValue(p.1)
  }

  predicate PlainParams(ps: Params) {
    ps == [] || (PlainParam(ps[0]) && PlainParams(ps[1..]))
  }

  predicate PlainPrinted(p: Printed) {
    p.0 != "" && '>' !in p.0 && PlainParams(p.1)
  }

  function PrintedCall(call: Call): Printed
    requires call.Call?
  {
    (call.name, PrintedArgs(call.args))
  }

  predicate PlainCall(call: Call) {
    call.Call? && PlainPrinted(PrintedCall(call))
  }

  /** A value without the closing tag is plain. */
  lemma TagFreeIsPlain(value: string)
    requires !Has(value, "</parameter>")
    ensures PlainValue(value)
  {
    TagShape();
    FindAcross(value, '\n', "</parameter>", "\n");
    var s := value + PARAM_CLOSE;
    assert s == value + ['\n'] + "</parameter>" + "\n";
    assert OccursAt(s, PARAM_CLOSE, |value|);
    var at := Find(s, PARAM_CLOSE, 0);
    TagInside(s, at);
  }

  lemma TagShape()
    ensures PARAM_CLOSE == ['\n'] + "</parameter>" + "\n" && '\n' !in "</parameter>"
    ensures |"</parameter>"| == 12 && |PARAM_CLOSE| == 14
  {
  }

  lemma TagInside(s: string, at: nat)
    requires OccursAt(s, PARAM_CLOSE, at)
    ensures OccursAt(s, "</parameter>", at + 1)
  {
    TagShape();
    SliceOfSlice(s, at, at + 14, 1, 13);
    assert PARAM_CLOSE[1..13] == "</parameter>";
  }

  /** A pattern found inside `s` is found there whatever follows. */
  lemma FindWithin(s: string, t: string, pat: string)
    requires Find(s, pat, 0) >= 0
    ensures Find(s + t, pat, 0) == Find(s, pat, 0)
  {
    var e := Find(s, pat, 0);
    assert (s + t)[e..e + |pat|] == s[e..e + |pat|];
    assert OccursAt(s + t, pat, e);
    forall i | 0 <= i < e
      ensures !OccursAt(s + t, pat, i)
    {
      assert !OccursAt(s, pat, i);
      assert (s + t)[i..i + |pat|] == s[i..i + |pat|];
    }
  }

  /** Reading a printed value gives a beginning of it, and all of it exactly if it
      is plain. */
  lemma ValueRead(value: string, rest: string)
    ensures var r := ReadValue(value + (PARAM_CLOSE + rest));
      && r.Some?
      && (PlainValue(value) ==> r == Some((value, rest)))
      && (!PlainValue(value) ==> |r.value.0| < |value|)
  {
    var s := value + PARAM_CLOSE;
    assert s[|value|..] == PARAM_CLOSE;
    assert OccursAt(s, PARAM_CLOSE, |value|);
    FindWithin(s, rest, PARAM_CLOSE);
    assert value + (PARAM_CLOSE + rest) == s + rest;
    assert (s + rest)[|s|..] == rest;
    assert (s + rest)[..|value|] == value;
  }

  /** Likewise for what stands before a '>'. */
  lemma HeaderRead(name: string, rest: string)
    ensures var r := Header(name + (">\n" + rest));
      && ('>' !in name ==> r == Some((name, rest)))
      && ('>' in name && r.Some? ==> |r.value.0| < |name|)
  {
    var s := name + (">\n" + rest);
    var at := FirstOf(s, '>');
    assert s[|name|] == '>';
    assert forall i :: 0 <= i < |name| ==> s[i] == name[i];
    if '>' !in name {
      assert at == |name|;
      assert s[at..] == ">\n" + rest && s[..at] == name;
      AfterPrefix(">\n", rest);
    }
  }

  lemma AfterPrefix(prefix: string, rest: string)
    ensures After(prefix + rest, prefix) == Some(rest)
  {
  }

  lemma {:induction false} PrintParamsCons(ps: Params)
    requires ps != []
    ensures PrintParams(ps) == PrintParam(ps[0]) + PrintParams(ps[1..])
  {
    var n := |ps| - 1;
    if n > 0 {
      PrintParamsCons(ps[..n]);
      assert ps[..n][1..] == ps[1..][..n - 1];
      Associative(PrintParam(ps[0]), PrintParams(ps[1..][..n - 1]), PrintParam(ps[n]));
    } else {
      Surrounded(PrintParam(ps[0]));
    }
  }

  lemma Surrounded(s: string)
    ensures "" + s == s + "" == s
  {
  }

  lemma RegroupParam(o: string, key: string, g: string, value: string, c: string, rest: string)
    ensures ((o + key + g) + value + c) + rest == o + (key + (g + (value + (c + rest))))
  {
  }

  /** The text of some parameters and the end of their call, with `rest` behind. */
  function ParamsText(ps: Params, rest: string): string {
    PrintParams(ps) + (CALL_TAIL + rest)
  }

  lemma ParamsTextCons(ps: Params, rest: string)
    requires ps != []
    ensures ParamsText(ps, rest)
         == PARAM_OPEN + (ps[0].0 + (">\n" + (ps[0].1 + (PARAM_CLOSE + ParamsText(ps[1..], rest)))))
  {
    PrintParamsCons(ps);
    Associative(PrintParam(ps[0]), PrintParams(ps[1..]), CALL_TAIL + rest);
    RegroupParam(PARAM_OPEN, ps[0].0, ">\n", ps[0].1, PARAM_CLOSE, ParamsText(ps[1..], rest));
  }

  lemma TailIsNoParam(rest: string)
    ensures !(PARAM_OPEN <= CALL_TAIL + rest)
  {
    assert CALL_TAIL[1] == '/' && PARAM_OPEN[1] == 'p' && |CALL_TAIL| > 1;
    assert (CALL_TAIL + rest)[1] == '/';
  }

  lemma EndRead(rest: string)
    ensures ReadParams(CALL_TAIL + rest) == Some(([], rest))
  {
    TailIsNoParam(rest);
    AfterPrefix(CALL_TAIL, rest);
  }

  /** One parameter in front: read as it is if it is plain, else as another. */
  lemma ParamRead(p: (string, string), rest: string)
    ensures var r := ReadParams(PARAM_OPEN + (p.0 + (">\n" + (p.1 + (PARAM_CLOSE + rest)))));
      && (PlainParam(p) ==> r == match ReadParams(rest)
                                 case None => None
                                 case Some((ps, after)) => Some(([p] + ps, after)))
      && (!PlainParam(p) && r.Some? ==> r.value.0 != [] && r.value.0[0] != p)
  {
    var body := p.1 + (PARAM_CLOSE + rest);
    AfterPrefix(PARAM_OPEN, p.0 + (">\n" + body));
    HeaderRead(p.0, body);
    ValueRead(p.1, rest);
  }

  /** Printed parameters are read back exactly if all of them are plain. */
  lemma {:induction false} ParamsRead(ps: Params, rest: string)
    ensures ReadParams(ParamsText(ps, rest)) == Some((ps, rest)) <==> PlainParams(ps)
  {
    if ps == [] {
      EndRead(rest);
      Surrounded(CALL_TAIL + rest);
    } else {
      ParamsTextCons(ps, rest);
      ParamsRead(ps[1..], rest);
      ParamRead(ps[0], ParamsText(ps[1..], rest));
      ConsTail(ps);
    }
  }

  lemma ConsTail(ps: Params)
    requires ps != []
    ensures forall qs: Params :: [ps[0]] + qs == ps <==> qs == ps[1..]
  {
    HeadTail(ps);
    forall qs: Params | [ps[0]] + qs == ps
      ensures qs == ps[1..]
    {
      assert ([ps[0]] + qs)[1..] == qs;
    }
  }

  /** The reader accepts nothing else: what it reads is printed as it was. */
  lemma {:induction false} ParamsReadOnly(s: string)
    requires ReadParams(s).Some?
    ensures s == ParamsText(ReadParams(s).value.0, ReadParams(s).value.1)
    decreases |s|
  {
    match After(s, PARAM_OPEN)
    case None =>
      Surrounded(s);
    case Some(s1) =>
      var (key, body) := Header(s1).value;
      var (value, next) := ReadValue(body).value;
      ParamsReadOnly(next);
      var (ps, rest) := ReadParams(next).value;
      var all := [(key, value)] + ps;
      assert all[1..] == ps;
      ParamsTextCons(all, rest);
  }

  /** The text of a call with `rest` behind it. */
  function PrintedText(p: Printed, rest: string): string {
    CallHead(p.0) + PrintParams(p.1) + CALL_TAIL + rest
  }

  lemma RegroupCall(o: string, name: string, g: string, ps: string, t: string, rest: string)
    ensures (o + name + g) + ps + t + rest == o + (name + (g + (ps + (t + rest))))
  {
  }

  lemma TextParts(p: Printed, rest: string)
    ensures PrintedText(p, rest) == CALL_OPEN + (p.0 + (">\n" + ParamsText(p.1, rest)))
  {
    RegroupCall(CALL_OPEN, p.0, ">\n", PrintParams(p.1), CALL_TAIL, rest);
  }

  /** The reader inverts the printer: it reads a call off a text exactly if the
      text begins with that call as printed, and the call is plain. */
  lemma ReadsExactly(s: string, p: Printed, rest: string)
    ensures ReadCall(s) == Some((p, rest)) <==> s == PrintedText(p, rest) && PlainPrinted(p)
  {
    if s == PrintedText(p, rest) {
      PrintedRead(p, rest);
    } else if ReadCall(s).Some? {
      CallReadOnly(s);
    }
  }

  lemma PrintedRead(p: Printed, rest: string)
    ensures ReadCall(PrintedText(p, rest)) == Some((p, rest)) <==> PlainPrinted(p)
  {
    TextParts(p, rest);
    AfterPrefix(CALL_OPEN, p.0 + (">\n" + ParamsText(p.1, rest)));
    HeaderRead(p.0, ParamsText(p.1, rest));
    ParamsRead(p.1, rest);
  }

  lemma CallReadOnly(s: string)
    requires ReadCall(s).Some?
    ensures s == PrintedText(ReadCall(s).value.0, ReadCall(s).value.1)
  {
    var s1 := After(s, CALL_OPEN).value;
    var (name, s2) := Header(s1).value;
    ParamsReadOnly(s2);
    TextParts(ReadCall(s).value.0, ReadCall(s).value.1);
  }

  /** A printed call can be read back, whatever follows it, exactly if it is plain:
      no '>' in its name and keys, no closing line in a value before its own. */
  lemma CallRead(call: Call, rest: string)
    requires call.Call? && call.name != ""
    ensures ReadCall(CallText(call) + rest) == Some((PrintedCall(call), rest)) <==> PlainCall(call)
  {
    PrintedRead(PrintedCall(call), rest);
  }

  /** Plain calls that print alike are alike. */
  lemma PlainPrintsOnce(a: Call, b: Call)
    requires PlainCall(a) && PlainCall(b) && CallText(a) == CallText(b)
    ensures PrintedCall(a) == PrintedCall(b)
  {
    CallRead(a, "");
    CallRead(b, "");
  }

  /** A call that is not plain is not read at all, or it shares its text with a
      plain call, which is read instead. */
  lemma NotPlainMisread(call: Call, rest: string)
    requires call.Call? && call.name != "" && !PlainCall(call)
    ensures var r := ReadCall(CallText(call) + rest);
      r.Some? ==>
        && PlainPrinted(r.value.0) && PrintedText(r.value.0, r.value.1) == CallText(call) + rest
        && (r.value.0 != PrintedCall(call) || r.value.1 != rest)
  {
    var s := CallText(call) + rest;
    CallRead(call, rest);
    if ReadCall(s).Some? {
      ReadsExactly(s, ReadCall(s).value.0, ReadCall(s).value.1);
    }
  }

  // ------------------------------------------------------------- whole turns

  function PrintedCalls(calls: seq<Call>): seq<Printed> {
    if calls == [] then []
    else if CallText(calls[0]) == "" then PrintedCalls(calls[1..])
    else [PrintedCall(calls[0])] + PrintedCalls(calls[1..])
  }

  /** Every call that prints anything is plain. */
  predicate PlainCalls(calls: seq<Call>) {
    calls == [] || ((CallText(calls[0]) == "" || PlainCall(calls[0])) && PlainCalls(calls[1..]))
  }

  lemma CallTextParts(call: Call)
    ensures CallText(call) == "" <==> call.BadCall? || call.name == ""
    ensures CallText(call) != "" ==> CallText(call) + "" == PrintedText(PrintedCall(call), "")
  {
  }

  /** A later call is led in by a newline. */
  lemma {:induction false} NewlineLead(calls: seq<Call>)
    ensures if PrintedCalls(calls) == []
            then PlainCalls(calls) && Show(CallPieces(calls, [Say("\n")])) == Show(CallPieces(calls, [])) == ""
            else Show(CallPieces(calls, [Say("\n")])) == "\n" + Show(CallPieces(calls, []))
  {
    if calls != [] {
      NewlineLead(calls[1..]);
      if CallText(calls[0]) != "" {
        ShowCallsStep(calls, [Say("\n")]);
        ShowCallsStep(calls, []);
        ShowOne(Say("\n"));
        Surrounded(CallText(calls[0]));
        Associative("\n", CallText(calls[0]), Show(CallPieces(calls[1..], [Say("\n")])));
      }
    }
  }

  /** A turn's calls, as the template prints them in sequence, are read back
      exactly if all that print anything are plain. */
  lemma {:induction false} CallsRead(calls: seq<Call>)
    ensures ReadCalls(Show(CallPieces(calls, []))) == Some(PrintedCalls(calls)) <==> PlainCalls(calls)
  {
    if calls != [] {
      CallsRead(calls[1..]);
      if CallText(calls[0]) != "" {
        FirstCallRead(calls);
      }
    }
  }

  lemma FirstCallRead(calls: seq<Call>)
    requires calls != [] && CallText(calls[0]) != ""
    requires ReadCalls(Show(CallPieces(calls[1..], []))) == Some(PrintedCalls(calls[1..])) <==> PlainCalls(calls[1..])
    ensures ReadCalls(Show(CallPieces(calls, []))) == Some(PrintedCalls(calls)) <==> PlainCalls(calls)
  {
    var call, tail := calls[0], calls[1..];
    var t := Show(CallPieces(tail, [Say("\n")]));
    CallTextParts(call);
    ShowCallsStep(calls, []);
    Surrounded(CallText(call));
    NewlineLead(tail);
    CallRead(call, t);
    if PlainCall(call) {
      ReadFirst(CallText(call) + t, PrintedCall(call), t, Show(CallPieces(tail, [])), PrintedCalls(tail));
    } else {
      NotPlainFirst(call, t, PrintedCalls(tail));
    }
  }

  lemma ReadFirst(s: string, call: Printed, t: string, tail: string, calls: seq<Printed>)
    requires ReadCall(s) == Some((call, t))
    requires if calls == [] then t == "" && tail == "" else t == "\n" + tail
    ensures ReadCalls(s) == Some([call] + calls) <==> ReadCalls(tail) == Some(calls)
  {
    if calls != [] {
      assert t[1..] == tail;
      if ReadCalls(tail).Some? {
        assert ([call] + ReadCalls(tail).value)[1..] == ReadCalls(tail).value;
        assert ([call] + calls)[1..] == calls;
      }
    } else {
      assert [call] + [] == [call];
    }
  }

  /** The first call read is another one, or none. */
  lemma NotPlainFirst(call: Call, t: string, calls: seq<Printed>)
    requires call.Call? && call.name != "" && !PlainCall(call)
    ensures ReadCalls(CallText(call) + t) != Some([PrintedCall(call)] + calls)
  {
    var s := CallText(call) + t;
    if ReadCall(s).Some? {
      ReadsExactly(s, ReadCall(s).value.0, ReadCall(s).value.1);
    }
    CallTextParts(call);
    ReadOther(s, PrintedCall(call), calls);
  }

  lemma ReadOther(s: string, call: Printed, calls: seq<Printed>)
    requires s != "" && (ReadCall(s).Some? ==> ReadCall(s).value.0 != call)
    ensures ReadCalls(s) != Some([call] + calls)
  {
    assert ([call] + calls)[0] == call;
  }

  // ------------------------------------------------------- texts with two readings

  function TextArgs(ps: Params): Args {
    ArgObject(seq(|ps|, i requires 0 <= i < |ps| => (ps[i].0, TextArg(ps[i].1))))
  }

  /** Why values are restricted: one that spells out the end of its parameter and
      the beginning of another prints like the two parameters it imitates. */
  lemma TwoReadings(name: string, before: Params, key: string, x: string, key': string, y: string, after: Params)
    requires name != ""
    ensures var joined := (key, x + PARAM_CLOSE + (PARAM_OPEN + key' + ">\n") + y);
            var one := Call(name, TextArgs(before + [joined] + after));
            var two := Call(name, TextArgs(before + [(key, x), (key', y)] + after));
      CallText(one) == CallText(two) && |PrintedArgs(one.args)| < |PrintedArgs(two.args)|
  {
    var joined := (key, x + PARAM_CLOSE + (PARAM_OPEN + key' + ">\n") + y);
    var one, two := before + [joined] + after, before + [(key, x), (key', y)] + after;
    TextArgsPrinted(one);
    TextArgsPrinted(two);
    PrintConcat(before + [joined], after);
    PrintConcat(before + [(key, x), (key', y)], after);
    PrintConcat(before, [joined]);
    PrintConcat(before, [(key, x), (key', y)]);
    PrintTwo((key, x), (key', y));
    PrintOne(joined);
    RegroupJoined(PARAM_OPEN + key + ">\n", x, PARAM_CLOSE, PARAM_OPEN + key' + ">\n", y);
  }

  lemma TextArgsPrinted(ps: Params)
    ensures PrintedArgs(TextArgs(ps)) == ps
  {
  }

  lemma PrintOne(p: (string, string))
    ensures PrintParams([p]) == PrintParam(p)
  {
    PrintParamsCons([p]);
    Surrounded(PrintParam(p));
  }

  lemma PrintTwo(p: (string, string), q: (string, string))
    ensures PrintParams([p, q]) == PrintParam(p) + PrintParam(q)
  {
    PrintParamsCons([p, q]);
    assert [p, q][1..] == [q];
    PrintOne(q);
  }

  lemma {:induction false} PrintConcat(a: Params, b: Params)
    ensures PrintParams(a + b) == PrintParams(a) + PrintParams(b)
  {
    if b == [] {
      assert a + b == a;
      Surrounded(PrintParams(a));
    } else {
      PrintConcat(a, Front(b));
      AppendRejoin(a, b);
      Snoc(a + Front(b), Last(b));
      Associative(PrintParams(a), PrintParams(Front(b)), PrintParam(Last(b)));
    }
  }

  lemma RegroupJoined(a: string, x: string, c: string, b: string, y: string)
    ensures a + (x + c + b + y) + c == (a + x + c) + (b + y + c)
  {
  }
}
