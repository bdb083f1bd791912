/** Printing and parsing the ladder of token counts a session profile climbs. */
module Ladder {
  import opened Wrappers
  import opened Text
  import opened Lists
  import opened Arithmetic

  // ------------------------------------------------------------ decimal digits

  predicate IsDigit(c: char) {
    '0' <= c <= '9'
  }

  predicate AllDigits(s: string) {
    s == "" || (IsDigit(s[|s| - 1]) && AllDigits(s[..|s| - 1]))
  }

  function DigitChar(d: nat): char
    requires d < 10
  {
    '0' + d as char
  }

  function NatText(n: nat): (s: string)
    ensures s != "" && AllDigits(s)
  {
    if n < 10 then [DigitChar(n)] else NatText(n / 10) + [DigitChar(n % 10)]
  }

  function Value(s: string): nat
    requires AllDigits(s)
  {
    if s == "" then 0 else Value(s[..|s| - 1]) * 10 + (s[|s| - 1] - '0') as nat
  }

  lemma ValueSnoc(s: string, d: nat)
    requires AllDigits(s) && d < 10
    ensures AllDigits(s + [DigitChar(d)]) && Value(s + [DigitChar(d)]) == Value(s) * 10 + d
  {
    assert (s + [DigitChar(d)])[..|s|] == s;
  }

  lemma {:induction false} NatTextValue(n: nat)
    ensures Value(NatText(n)) == n
  {
    if n < 10 {
      ValueSnoc("", n);
      assert "" + [DigitChar(n)] == [DigitChar(n)];
    } else {
      NatTextValue(n / 10);
      ValueSnoc(NatText(n / 10), n % 10);
    }
  }

  lemma {:induction false} DigitsOnly(s: string, c: char)
    requires AllDigits(s) && c in s
    ensures IsDigit(c)
  {
    if c != s[|s| - 1] {
      DigitsOnly(s[..|s| - 1], c);
    }
  }

  function IntText(n: int): string {
    if n < 0 then ['-'] + NatText(-n) else NatText(n)
  }

  // ------------------------------------------------------------------- printing

  const KILO := 1024
  const MEGA := 1048576
  const GIGA := 1073741824

  function One(v: int): string {
    if v % MEGA == 0 then IntText(v / MEGA) + ['M']
    else if v % KILO == 0 then IntText(v / KILO) + ['K']
    else IntText(v)
  }

  function Join(xs: seq<string>, sep: char): string {
    if xs == [] then ""
    else if |xs| == 1 then xs[0]
    else xs[0] + ([sep] + Join(xs[1..], sep))
  }

  function Printed(targets: seq<int>): seq<string> {
    seq(|targets|, k requires 0 <= k < |targets| => One(targets[k]))
  }

  function FmtLadder(targets: seq<int>): string {
    Join(Printed(targets), ',')
  }

  // -------------------------------------------------------------------- parsing

  /** The white space `strip` removes, up to code 127. */
  const SPACES: set<char> :=
    {' ', '\t', '\n', '\r', '\U{0B}', '\U{0C}', '\U{1C}', '\U{1D}', '\U{1E}', '\U{1F}'}

  function Strip(s: string): string {
    StripRight(StripLeft(s, SPACES), SPACES)
  }

  function Split(s: string, sep: char): (r: seq<string>)
    ensures r != []
  {
    if s == "" then [""]
    else
      var rest := Split(s[1..], sep);
      if s[0] == sep then [""] + rest else [[s[0]] + rest[0]] + rest[1..]
  }

  /** The number `digits / 10^scale`, negated if `negative`. */
  datatype Decimal = Decimal(negative: bool, digits: nat, scale: nat)

  function Pow10(n: nat): (p: nat)
    ensures p > 0
  {
    if n == 0 then 1 else 10 * Pow10(n - 1)
  }

  function FindChar(s: string, c: char): (i: int)
    ensures -1 <= i < |s| && (i == -1 <==> c !in s)
  {
    if s == "" then -1
    else if s[0] == c then 0
    else
      var i := FindChar(s[1..], c);
      if i == -1 then -1 else i + 1
  }

  /** Digits with at most one point. */
  function ReadUnsigned(s: string, negative: bool): Option<Decimal> {
    var dot := FindChar(s, '.');
    var whole := if dot == -1 then s else s[..dot];
    var fraction := if dot == -1 then "" else s[dot + 1..];
    if whole + fraction == "" || !AllDigits(whole + fraction) then None
    else Some(Decimal(negative, Value(whole + fraction), |fraction|))
  }

  function ReadDecimal(s: string): Option<Decimal> {
    ReadSigned(Strip(s))
  }

  function ReadSigned(t: string): Option<Decimal> {
    if t != "" && t[0] == '-' then ReadUnsigned(t[1..], true)
    else if t != "" && t[0] == '+' then ReadUnsigned(t[1..], false)
    else ReadUnsigned(t, false)
  }

  /** `int(x * mult)`, which cuts towards zero. */
  function Amount(d: Decimal, mult: nat): int {
    var m := d.digits * mult / Pow10(d.scale);
    if d.negative then -m else m
  }

  function Multiplier(c: char): Option<nat> {
    if c == 'k' || c == 'K' then Some(KILO)
    else if c == 'm' || c == 'M' then Some(MEGA)
    else if c == 'g' || c == 'G' then Some(GIGA)
    else None
  }

  function ParseTok(text: string): Option<int> {
    ParseStripped(Strip(text))
  }

  function ParseStripped(s: string): Option<int> {
    var mult := if s != "" then Multiplier(s[|s| - 1]) else None;
    var number := if mult.Some? then s[..|s| - 1] else s;
    match ReadDecimal(number)
    case None => None
    case Some(d) => Some(Amount(d, if mult.Some? then mult.value else 1))
  }

  datatype Error = BadNumber | NotIncreasing

  /** The pieces that are not blank, parsed in order. */
  function ParseAll(pieces: seq<string>): Result<seq<int>, Error> {
    if pieces == [] then Ok([])
    else if Strip(pieces[0]) == "" then ParseAll(pieces[1..])
    else
      match ParseTok(pieces[0])
      case None => Err(BadNumber)
      case Some(v) =>
        match ParseAll(pieces[1..])
        case Err(e) => Err(e)
        case Ok(vs) => Ok([v] + vs)
  }

  predicate Increasing(targets: seq<int>) {
    forall i :: 1 <= i < |targets| ==> targets[i - 1] < targets[i]
  }

  function ParseLadder(text: string): Result<seq<int>, Error> {
    match ParseAll(Split(text, ','))
    case Err(e) => Err(e)
    case Ok(targets) => if targets == [] || !Increasing(targets) then Err(NotIncreasing) else Ok(targets)
  }

  // --------------------------------------------------------- one count, printed

  predicate Plain(s: string) {
    s != "" && s[0] !in SPACES && s[|s| - 1] !in SPACES
  }

  lemma PlainStrips(s: string)
    requires Plain(s)
    ensures Strip(s) == s
  {
  }

  lemma DigitsRead(s: string, negative: bool)
    requires s != "" && AllDigits(s)
    ensures ReadUnsigned(s, negative) == Some(Decimal(negative, Value(s), 0))
  {
    if '.' in s {
      DigitsOnly(s, '.');
    }
    assert s + "" == s;
  }

  lemma DigitsPlain(s: string)
    requires s != "" && AllDigits(s)
    ensures IsDigit(s[0]) && Plain(s) && Plain(['-'] + s)
  {
    DigitsOnly(s, s[0]);
  }

  lemma DigitsComma(s: string)
    requires AllDigits(s)
    ensures ',' !in s
  {
    if ',' in s {
      DigitsOnly(s, ',');
    }
  }

  lemma DigitNoSuffix(c: char)
    requires IsDigit(c)
    ensures Multiplier(c) == None
  {
  }

  lemma IntTextPlain(n: int)
    ensures Plain(IntText(n)) && ',' !in IntText(n) && Multiplier(IntText(n)[|IntText(n)| - 1]) == None
  {
    var digits := NatText(if n < 0 then -n else n);
    DigitsPlain(digits);
    DigitsComma(digits);
    DigitNoSuffix(digits[|digits| - 1]);
  }

  lemma NegativeRead(s: string)
    requires s != "" && AllDigits(s)
    ensures ReadSigned(['-'] + s) == Some(Decimal(true, Value(s), 0))
  {
    assert (['-'] + s)[1..] == s;
    DigitsRead(s, true);
  }

  lemma PositiveRead(s: string)
    requires s != "" && AllDigits(s)
    ensures ReadSigned(s) == Some(Decimal(false, Value(s), 0))
  {
    DigitsPlain(s);
    DigitsRead(s, false);
  }

  function IntDecimal(n: int): Decimal {
    Decimal(n < 0, if n < 0 then -n else n, 0)
  }

  lemma IntTextReads(n: int)
    ensures ReadDecimal(IntText(n)) == Some(IntDecimal(n))
  {
    var m: nat := if n < 0 then -n else n;
    NatTextValue(m);
    IntTextPlain(n);
    PlainStrips(IntText(n));
    if n < 0 {
      NegativeRead(NatText(m));
    } else {
      PositiveRead(NatText(m));
    }
  }

  lemma AmountOfInt(n: int, mult: nat)
    ensures Amount(IntDecimal(n), mult) == n * mult
  {
    assert Pow10(0) == 1;
  }

  lemma SuffixTok(b: string, c: char, d: Decimal)
    requires ReadDecimal(b) == Some(d) && Multiplier(c).Some?
    ensures ParseStripped(b + [c]) == Some(Amount(d, Multiplier(c).value))
  {
    var s := b + [c];
    assert s[|s| - 1] == c && s[..|s| - 1] == b;
  }

  lemma PlainTok(b: string, d: Decimal)
    requires b != "" && ReadDecimal(b) == Some(d) && Multiplier(b[|b| - 1]) == None
    ensures ParseStripped(b) == Some(Amount(d, 1))
  {
  }

  lemma SuffixParses(n: int, c: char)
    requires Multiplier(c).Some? && c !in SPACES && c != ','
    ensures ParseStripped(IntText(n) + [c]) == Some(Amount(IntDecimal(n), Multiplier(c).value))
    ensures Plain(IntText(n) + [c]) && ',' !in IntText(n) + [c]
  {
    IntTextPlain(n);
    IntTextReads(n);
    SuffixTok(IntText(n), c, IntDecimal(n));
  }

  lemma PlainParses(n: int)
    ensures ParseStripped(IntText(n)) == Some(n) && Plain(IntText(n)) && ',' !in IntText(n)
  {
    IntTextPlain(n);
    IntTextReads(n);
    PlainTok(IntText(n), IntDecimal(n));
    AmountOfInt(n, 1);
  }

  lemma Exact(v: int, m: nat)
    requires m > 0 && v % m == 0
    ensures (v / m) * m == v
  {
  }

  /** A printed count parses back to itself, is not blank and holds no comma. */
  lemma OneParses(v: int)
    ensures ParseTok(One(v)) == Some(v) && Strip(One(v)) != "" && ',' !in One(v)
  {
    if v % MEGA == 0 {
      SuffixParses(v / MEGA, 'M');
      AmountOfInt(v / MEGA, MEGA);
      Exact(v, MEGA);
    } else if v % KILO == 0 {
      SuffixParses(v / KILO, 'K');
      AmountOfInt(v / KILO, KILO);
      Exact(v, KILO);
    } else {
      PlainParses(v);
    }
    PlainStrips(One(v));
  }

  /** A count is printed in the largest unit that divides it. */
  lemma LargestUnit(v: int)
    ensures One(v) != ""
    ensures var end := One(v)[|One(v)| - 1];
      && (end == 'M' <==> v % 1048576 == 0)
      && (end == 'K' <==> v % 1024 == 0 && v % 1048576 != 0)
      && (IsDigit(end) <==> v % 1024 != 0)
  {
    if v % MEGA == 0 {
      assert v % KILO == 0 by {
        DivMod(v, KILO, v / MEGA * 1024, 0);
      }
    }
  }

  // ------------------------------------------------------------- whole ladders

  lemma {:induction false} SplitOne(a: string, sep: char)
    requires sep !in a
    ensures Split(a, sep) == [a]
  {
    if a != "" {
      SplitOne(a[1..], sep);
      assert [a[0]] + a[1..] == a;
    }
  }

  lemma {:induction false} SplitFirst(a: string, sep: char, rest: string)
    requires sep !in a
    ensures Split(a + ([sep] + rest), sep) == [a] + Split(rest, sep)
  {
    var s := a + ([sep] + rest);
    if a == "" {
      assert s == [sep] + rest && s[1..] == rest;
    } else {
      SplitFirst(a[1..], sep, rest);
      assert s[1..] == a[1..] + ([sep] + rest);
      assert [a[0]] + a[1..] == a;
    }
  }

  /** Splitting undoes joining. */
  lemma {:induction false} SplitOfJoin(xs: seq<string>, sep: char)
    requires xs != [] && forall k :: 0 <= k < |xs| ==> sep !in xs[k]
    ensures Split(Join(xs, sep), sep) == xs
  {
    if |xs| == 1 {
      SplitOne(xs[0], sep);
    } else {
      SplitOfJoin(xs[1..], sep);
      SplitFirst(xs[0], sep, Join(xs[1..], sep));
    }
  }

  lemma PrintedTail(targets: seq<int>)
    requires targets != []
    ensures Printed(targets)[1..] == Printed(targets[1..])
  {
    forall k | 0 <= k < |targets| - 1
      ensures Printed(targets)[1..][k] == Printed(targets[1..])[k]
    {
      assert Printed(targets)[k + 1] == One(targets[k + 1]);
    }
  }

  lemma ParseFirst(pieces: seq<string>, v: int, rest: seq<int>)
    requires pieces != [] && Strip(pieces[0]) != "" && ParseTok(pieces[0]) == Some(v)
    requires ParseAll(pieces[1..]) == Ok(rest)
    ensures ParseAll(pieces) == Ok([v] + rest)
  {
  }

  lemma {:induction false} PrintedParse(targets: seq<int>)
    ensures ParseAll(Printed(targets)) == Ok(targets)
  {
    if targets == [] {
      assert Printed(targets) == [];
    } else {
      PrintedParse(targets[1..]);
      OneParses(targets[0]);
      PrintedTail(targets);
      ParseFirst(Printed(targets), targets[0], targets[1..]);
      HeadTail(targets);
    }
  }

  lemma NothingParses()
    ensures ParseAll(Split("", ',')) == Ok([])
  {
    assert Split("", ',') == [""];
    assert Strip("") == "";
    assert [""][1..] == [];
    assert ParseAll([]) == Ok([]);
  }

  /** Parsing the pieces of a printed list gives the list back, whatever it holds. */
  lemma PrintedPieces(targets: seq<int>)
    ensures ParseAll(Split(FmtLadder(targets), ',')) == Ok(targets)
  {
    PrintedParse(targets);
    if targets == [] {
      NothingParses();
    } else {
      forall k | 0 <= k < |targets|
        ensures ',' !in Printed(targets)[k]
      {
        OneParses(targets[k]);
      }
      SplitOfJoin(Printed(targets), ',');
    }
  }

  /** Printing a list and parsing it gives the list back exactly when it is a
      ladder: not empty and strictly increasing. */
  lemma LadderRoundTrip(targets: seq<int>)
    ensures ParseLadder(FmtLadder(targets))
         == if targets != [] && Ascends(targets) then Ok(targets) else Err(NotIncreasing)
  {
    PrintedPieces(targets);
    IncreasingMeans(targets);
  }

  lemma {:induction false} IncreasingAscends(targets: seq<int>, n: nat)
    requires n <= |targets|
    ensures Increasing(targets[..n]) <==> Ascends(targets[..n])
  {
    if n > 1 {
      var s := targets[..n];
      IncreasingAscends(targets, n - 1);
      assert targets[..n - 1] == s[..n - 1];
      if Increasing(s) {
        forall i | 0 <= i < n - 1
          ensures s[i] < s[n - 1]
        {
          assert s[n - 2] < s[n - 1];
          assert i < n - 2 ==> s[..n - 1][i] < s[..n - 1][n - 2];
        }
      }
    }
  }

  /** Printing a parsed ladder is stable: it parses to the same ladder, so a second
      printing changes nothing. */
  lemma ReprintStable(text: string)
    requires ParseLadder(text).Ok?
    ensures ParseLadder(FmtLadder(ParseLadder(text).value)) == ParseLadder(text)
  {
    ParsedAscends(text);
    LadderRoundTrip(ParseLadder(text).value);
  }

  lemma {:induction false} ParsedAscends(text: string)
    requires ParseLadder(text).Ok?
    ensures ParseLadder(text).value != [] && Ascends(ParseLadder(text).value)
  {
    IncreasingMeans(ParseLadder(text).value);
  }

  lemma {:induction false} IncreasingMeans(targets: seq<int>)
    ensures Increasing(targets) <==> Ascends(targets)
  {
    IncreasingAscends(targets, |targets|);
    TakeAll(targets);
  }

  /** Different lists print differently. */
  lemma FmtInjective(a: seq<int>, b: seq<int>)
    requires FmtLadder(a) == FmtLadder(b)
    ensures a == b
  {
    PrintedPieces(a);
    PrintedPieces(b);
  }
}
