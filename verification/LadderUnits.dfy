/** Counts that are typed by hand: signs, fractions and units in either case. */
module LadderUnits {
  import opened Wrappers
  import opened Text
  import opened Ladder

  lemma {:induction false} FindCharAt(a: string, c: char, rest: string)
    requires c !in a
    ensures FindChar(a + [c] + rest, c) == |a|
  {
    var s := a + [c] + rest;
    if a == "" {
      assert s[0] == c;
    } else {
      FindCharAt(a[1..], c, rest);
      assert s[1..] == a[1..] + [c] + rest;
      assert s[0] == a[0];
    }
  }

  lemma {:induction false} DigitsAppend(a: string, b: string)
    requires AllDigits(a) && AllDigits(b)
    ensures AllDigits(a + b)
  {
    if b == "" {
      assert a + b == a;
    } else {
      DigitsAppend(a, b[..|b| - 1]);
      assert (a + b)[..|a + b| - 1] == a + b[..|b| - 1];
    }
  }

  lemma PointRead(whole: string, fraction: string, negative: bool)
    requires AllDigits(whole) && AllDigits(fraction) && whole + fraction != ""
    ensures AllDigits(whole + fraction)
    ensures ReadUnsigned(whole + ['.'] + fraction, negative) == Some(Decimal(negative, Value(whole + fraction), |fraction|))
  {
    var s := whole + ['.'] + fraction;
    DigitsAppend(whole, fraction);
    if '.' in whole {
      DigitsOnly(whole, '.');
    }
    FindCharAt(whole, '.', fraction);
    assert s[..|whole|] == whole && s[|whole| + 1..] == fraction;
  }

  function Signed(negative: bool, s: string): string {
    if negative then ['-'] + s else s
  }

  lemma SignedRead(whole: string, fraction: string, negative: bool)
    requires AllDigits(whole) && AllDigits(fraction) && whole + fraction != ""
    ensures AllDigits(whole + fraction)
    ensures ReadSigned(Signed(negative, whole + ['.'] + fraction)) == Some(Decimal(negative, Value(whole + fraction), |fraction|))
  {
    var s := whole + ['.'] + fraction;
    PointRead(whole, fraction, negative);
    assert s != "" && s[0] == if whole == "" then '.' else whole[0];
    if whole != "" {
      DigitsOnly(whole, whole[0]);
    }
    assert (['-'] + s)[1..] == s;
  }

  predicate DigitOrPoint(c: char) {
    IsDigit(c) || c == '.'
  }

  lemma DigitOrPointPlain(c: char)
    requires DigitOrPoint(c)
    ensures c !in SPACES && Multiplier(c) == None
  {
  }

  lemma PointEnds(whole: string, fraction: string)
    requires AllDigits(whole) && AllDigits(fraction)
    ensures var s := whole + ['.'] + fraction;
      DigitOrPoint(s[0]) && DigitOrPoint(s[|s| - 1])
  {
    if whole != "" {
      DigitsOnly(whole, whole[0]);
    }
    if fraction != "" {
      DigitsOnly(fraction, fraction[|fraction| - 1]);
    }
  }

  lemma SignedEnds(s: string, negative: bool)
    requires s != "" && DigitOrPoint(s[0]) && DigitOrPoint(s[|s| - 1])
    ensures var t := Signed(negative, s);
      Plain(t) && Multiplier(t[|t| - 1]) == None
  {
    DigitOrPointPlain(s[0]);
    DigitOrPointPlain(s[|s| - 1]);
  }

  lemma SignedPlain(whole: string, fraction: string, negative: bool)
    requires AllDigits(whole) && AllDigits(fraction)
    ensures var s := Signed(negative, whole + ['.'] + fraction);
      Plain(s) && Multiplier(s[|s| - 1]) == None
  {
    PointEnds(whole, fraction);
    SignedEnds(whole + ['.'] + fraction, negative);
  }

  /** What a unit multiplies by, in either case; no unit multiplies by one. */
  function UnitOf(unit: string): nat {
    if unit == "k" || unit == "K" then 1024
    else if unit == "m" || unit == "M" then 1048576
    else if unit == "g" || unit == "G" then 1073741824
    else 1
  }

  predicate IsUnit(unit: string) {
    unit == "" || unit in ["k", "K", "m", "M", "g", "G"]
  }

  lemma AmountCuts(d: Decimal, mult: nat)
    ensures var v := Amount(d, mult);
      && (if d.negative then v <= 0 else v >= 0)
      && Cuts(if d.negative then -v else v, d.digits * mult, Pow10(d.scale))
  {
    var n, p := d.digits * mult, Pow10(d.scale);
    CutQuotient(n, p);
  }

  /** `v` is `n / p`, cut to a whole number. */
  predicate Cuts(v: int, n: int, p: int) {
    v * p <= n < v * p + p
  }

  lemma CutQuotient(n: nat, p: nat)
    requires p > 0
    ensures Cuts(n / p, n, p) && n / p >= 0
  {
  }

  /** A number with a point and perhaps a sign and a unit, with white space around it,
      is read as the number it says times its unit, cut towards zero. */
  lemma PointParses(negative: bool, whole: string, fraction: string, unit: string, before: string, after: string)
    requires AllDigits(whole) && AllDigits(fraction) && whole + fraction != "" && IsUnit(unit)
    requires (forall c :: c in before ==> c in SPACES) && (forall c :: c in after ==> c in SPACES)
    ensures AllDigits(whole + fraction)
    ensures var r := ParseTok(before + (Signed(negative, whole + ['.'] + fraction) + unit) + after);
      && r.Some? && (if negative then r.value <= 0 else r.value >= 0)
      && Cuts(if negative then -r.value else r.value, Value(whole + fraction) * UnitOf(unit), Pow10(|fraction|))
  {
    var s := Signed(negative, whole + ['.'] + fraction);
    SignedRead(whole, fraction, negative);
    SignedPlain(whole, fraction, negative);
    PlainStrips(s);
    var d := Decimal(negative, Value(whole + fraction), |fraction|);
    assert ReadDecimal(s) == Some(d);
    UnitTok(s, unit, d);
    StripsAround(before, s + unit, after);
    AmountCuts(d, UnitOf(unit));
  }

  lemma CharTok(s: string, c: char, m: nat, d: Decimal)
    requires Plain(s) && ReadDecimal(s) == Some(d) && c !in SPACES && Multiplier(c) == Some(m)
    ensures Plain(s + [c]) && ParseStripped(s + [c]) == Some(Amount(d, m))
  {
    SuffixTok(s, c, d);
  }

  lemma UnitMultiplies(unit: string)
    requires IsUnit(unit) && unit != ""
    ensures |unit| == 1 && unit[0] !in SPACES && Multiplier(unit[0]) == Some(UnitOf(unit))
  {
  }

  lemma {:induction false} UnitTok(s: string, unit: string, d: Decimal)
    requires Plain(s) && Multiplier(s[|s| - 1]) == None && ReadDecimal(s) == Some(d) && IsUnit(unit)
    ensures Plain(s + unit) && ParseStripped(s + unit) == Some(Amount(d, UnitOf(unit)))
  {
    if unit == "" {
      assert s + unit == s;
      PlainTok(s, d);
    } else {
      UnitMultiplies(unit);
      CharTok(s, unit[0], UnitOf(unit), d);
      assert unit == [unit[0]];
    }
  }

  lemma {:induction false} StripsAround(before: string, s: string, after: string)
    requires Plain(s) && (forall c :: c in before ==> c in SPACES) && (forall c :: c in after ==> c in SPACES)
    ensures Strip(before + s + after) == s
  {
    StripsLeft(before, s + after);
    StripsRight(s, after);
    assert before + s + after == before + (s + after);
  }

  lemma {:induction false} StripsLeft(before: string, s: string)
    requires s != "" && s[0] !in SPACES && forall c :: c in before ==> c in SPACES
    ensures StripLeft(before + s, SPACES) == s
  {
    if before == "" {
      assert before + s == s;
    } else {
      assert before[0] in before;
      assert forall c :: c in before[1..] ==> c in before;
      StripsLeft(before[1..], s);
      assert (before + s)[1..] == before[1..] + s;
    }
  }

  lemma {:induction false} StripsRight(s: string, after: string)
    requires s != "" && s[|s| - 1] !in SPACES && forall c :: c in after ==> c in SPACES
    ensures StripRight(s + after, SPACES) == s
  {
    if after == "" {
      assert s + after == s;
    } else {
      var front := after[..|after| - 1];
      assert after[|after| - 1] in after;
      assert forall c :: c in front ==> c in after;
      StripsRight(s, front);
      assert (s + after)[..|s + after| - 1] == s + front;
    }
  }
}
