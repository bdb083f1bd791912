/** The string operations of the scripts' host language that the models use:
    substring search, prefix and suffix tests, and stripping. */
module Text {

  predicate OccursAt(s: string, pat: string, at: int) {
    0 <= at && at + |pat| <= |s| && s[at..at + |pat|] == pat
  }

  ghost predicate Has(s: string, pat: string) {
    exists i :: OccursAt(s, pat, i)
  }

  /** The first occurrence of `pat` at or after `from`, or -1. */
  function Find(s: string, pat: string, from: nat): (r: int)
    ensures r == -1 || (from <= r && OccursAt(s, pat, r))
    ensures forall i :: from <= i && (r == -1 || i < r) ==> !OccursAt(s, pat, i)
    decreases |s| - from
  {
    if from + |pat| > |s| then -1
    else if s[from..from + |pat|] == pat then from
    else Find(s, pat, from + 1)
  }

  predicate StartsWith(s: string, pat: string) {
    pat == "" || (s != "" && s[0] == pat[0] && StartsWith(s[1..], pat[1..]))
  }

  predicate EndsWith(s: string, pat: string) {
    pat == ""
    || (s != "" && s[|s| - 1] == pat[|pat| - 1] && EndsWith(s[..|s| - 1], pat[..|pat| - 1]))
  }

  /** The largest index whose element satisfies `p`, or -1. */
  function LastSuch<T>(xs: seq<T>, p: T -> bool): (i: int)
    ensures -1 <= i < |xs|
    ensures i >= 0 ==> p(xs[i])
    ensures forall j :: i < j < |xs| ==> !p(xs[j])
  {
    if xs == [] then -1
    else if p(xs[|xs| - 1]) then |xs| - 1
    else LastSuch(xs[..|xs| - 1], p)
  }

  function StripLeft(s: string, drop: set<char>): string {
    if s != "" && s[0] in drop then StripLeft(s[1..], drop) else s
  }

  function StripRight(s: string, drop: set<char>): string {
    if s != "" && s[|s| - 1] in drop then StripRight(s[..|s| - 1], drop) else s
  }

  /** What is left is the longest suffix that does not begin with a dropped character. */
  lemma {:induction false} StripLeftProperties(s: string, drop: set<char>)
    ensures var r := StripLeft(s, drop);
      |r| <= |s| && s[|s| - |r|..] == r && (r != "" ==> r[0] !in drop)
      && (forall i :: 0 <= i < |s| - |r| ==> s[i] in drop)
  {
    if s != "" && s[0] in drop {
      StripLeftProperties(s[1..], drop);
      var r := StripLeft(s[1..], drop);
      assert s[|s| - |r|..] == s[1..][|s| - 1 - |r|..];
      assert forall i :: 1 <= i < |s| - |r| ==> s[i] == s[1..][i - 1];
    }
  }

  lemma {:induction false} StripRightProperties(s: string, drop: set<char>)
    ensures var r := StripRight(s, drop);
      r <= s && (r != "" ==> r[|r| - 1] !in drop)
      && (forall i :: |r| <= i < |s| ==> s[i] in drop)
  {
    if s != "" && s[|s| - 1] in drop {
      StripRightProperties(s[..|s| - 1], drop);
    }
  }

  const ASCII_SPACE: set<char> := {' ', '\t', '\r', '\n'}

  function Trim(s: string): string {
    StripRight(StripLeft(s, ASCII_SPACE), ASCII_SPACE)
  }

  predicate Trimmed(s: string) {
    s == "" || (s[0] !in ASCII_SPACE && s[|s| - 1] !in ASCII_SPACE)
  }

  lemma TrimProperties(s: string)
    ensures Trimmed(Trim(s)) && |Trim(s)| <= |s|
    ensures Trim(s) == s <==> Trimmed(s)
    ensures Trim(s) != s ==> |Trim(s)| < |s|
  {
    StripLeftProperties(s, ASCII_SPACE);
    StripRightProperties(StripLeft(s, ASCII_SPACE), ASCII_SPACE);
  }

  /** Searching for a tag after a separator character that the tag does not
      contain: text free of the tag cannot create an earlier match. */
  lemma FindAcross(v: string, sep: char, tag: string, rest: string)
    requires tag != "" && sep !in tag
    ensures Find(v + [sep] + tag + rest, tag, 0) == |v| + 1 <==> !Has(v, tag)
  {
    var s := v + [sep] + tag + rest;
    assert OccursAt(s, tag, |v| + 1);
    var r := Find(s, tag, 0);
    if Has(v, tag) {
      var i :| OccursAt(v, tag, i);
      assert s[i..i + |tag|] == v[i..i + |tag|];
      assert OccursAt(s, tag, i);
    } else if r <= |v| {
      OccursBefore(v, sep, tag, rest, r);
    }
  }

  lemma OccursBefore(v: string, sep: char, tag: string, rest: string, at: nat)
    requires at <= |v| && tag != "" && sep !in tag
    requires OccursAt(v + [sep] + tag + rest, tag, at)
    ensures OccursAt(v, tag, at)
  {
    var s := v + [sep] + tag + rest;
    forall p | at <= p < at + |tag|
      ensures s[p] in tag
    {
      assert s[p] == tag[p - at];
    }
    assert s[|v|] == sep;
    assert s[at..at + |tag|] == v[at..at + |tag|];
  }

  /** Two texts that differ at a position both of them have: neither is a
      prefix of the other, whatever is appended to them. */
  ghost predicate Diverges(a: string, b: string) {
    exists k :: 0 <= k < |a| && k < |b| && a[k] != b[k]
  }

  lemma DivergesForever(a: string, b: string, x: string, y: string)
    requires Diverges(a, b)
    ensures !(a <= b + y) && !(b <= a + x) && Diverges(a + x, b + y)
  {
    var k :| 0 <= k < |a| && k < |b| && a[k] != b[k];
    assert (a + x)[k] == a[k] && (b + y)[k] == b[k];
  }

  lemma NotBoth(a: string, b: string)
    ensures !(Diverges(a, b) && a <= b)
  {
  }

  lemma DivergesAfter(p: string, a: string, b: string)
    requires Diverges(a, b)
    ensures Diverges(p + a, p + b)
  {
    var k :| 0 <= k < |a| && k < |b| && a[k] != b[k];
    assert (p + a)[|p| + k] == a[k] && (p + b)[|p| + k] == b[k];
  }

  /** A pattern that is nowhere to be found in two copies of `p` is not found
      where an endless repetition of `p` would have to print it. */
  lemma {:induction false} FenceDiverges(p: string, d: string, x: string, y: string, m: string)
    requires 0 < |m| <= |p| && m <= y && !Has(p + p, m)
    ensures Diverges(p + (d + x), d + y)
    decreases |d|
  {
    if p <= d {
      var d' := d[|p|..];
      FenceDiverges(p, d', x, y, m);
      DivergesAfter(p, p + (d' + x), d' + y);
      Peel(p, d', x);
      Peel(p, d', y);
      assert d == p + d';
    } else if k :| 0 <= k < |d| && k < |p| && d[k] != p[k] {
      assert (p + (d + x))[k] == p[k] && (d + y)[k] == d[k];
    } else {
      MissesAt(p, d, m);
      var k :| 0 <= k < |m| && (p + d)[|d| + k] != m[k];
      assert (p + (d + x))[|d| + k] == (p + d)[|d| + k];
      assert (d + y)[|d| + k] == y[k] == m[k];
    }
  }

  lemma Peel(p: string, d: string, x: string)
    ensures (p + d) + x == p + (d + x)
  {
  }

  lemma MissesAt(p: string, d: string, m: string)
    requires d <= p && |m| <= |p| && !Has(p + p, m)
    ensures exists k :: 0 <= k < |m| && (p + d)[|d| + k] != m[k]
  {
    assert !OccursAt(p + p, m, |d|);
    var t := (p + p)[|d|..|d| + |m|];
    assert t != m;
    var k :| 0 <= k < |m| && t[k] != m[k];
    assert (p + p)[|d| + k] == t[k];
    assert (p + d)[|d| + k] == t[k];
  }

  /** A pattern without `sep` does not reach across one. */
  lemma NoAcross(a: string, sep: char, b: string, m: string)
    requires m != "" && sep !in m && !Has(a, m) && !Has(b, m)
    ensures !Has(a + [sep] + b, m)
  {
    var s := a + [sep] + b;
    forall i
      ensures !OccursAt(s, m, i)
    {
      if i < 0 || i + |m| > |s| {
      } else if i + |m| <= |a| {
        assert !OccursAt(a, m, i);
        assert s[i..i + |m|] == a[i..i + |m|];
      } else if i > |a| {
        assert !OccursAt(b, m, i - |a| - 1);
        assert s[i..i + |m|] == b[i - |a| - 1..i - |a| - 1 + |m|];
      } else {
        assert s[i..i + |m|][|a| - i] == s[|a|] == sep;
      }
    }
  }

  lemma HasSuffix(s: string, u: string, v: string)
    requires !Has(s, v)
    ensures !Has(s, u + v)
  {
    forall i
      ensures !OccursAt(s, u + v, i)
    {
      if 0 <= i && i + |u + v| <= |s| {
        assert !OccursAt(s, v, i + |u|);
        assert s[i..i + |u + v|][|u|..] == s[i + |u|..i + |u| + |v|];
        assert (u + v)[|u|..] == v;
      }
    }
  }

  predicate Blank(s: string) {
    forall i :: 0 <= i < |s| ==> s[i] in ASCII_SPACE
  }

  /** Texts that begin with unlike amounts of white space. */
  lemma BlanksDiverge(w: string, s: string, w': string, s': string)
    requires Blank(w') && |w| < |w'| && s != "" && s[0] !in ASCII_SPACE
    ensures Diverges(w + s, w' + s') && Diverges(w' + s', w + s)
  {
    assert (w + s)[|w|] == s[0];
    assert (w' + s')[|w|] == w'[|w|];
  }

  lemma TrimEnds(a: string, b: string)
    requires a != "" && a[0] !in ASCII_SPACE && b != "" && b[|b| - 1] !in ASCII_SPACE
    ensures Trimmed(a + b)
  {
  }

  /** A text is its white space in front, what trimming leaves, and the rest. */
  lemma TrimParts(s: string) returns (w: string, w': string)
    ensures s == w + Trim(s) + w' && Blank(w) && Blank(w')
    ensures Trimmed(s) ==> w == w' == ""
    ensures !Trimmed(s) ==> w != "" || w' != ""
    ensures Trim(s) == "" ==> w' == ""
  {
    var left := StripLeft(s, ASCII_SPACE);
    w := LeftPart(s);
    w' := RightPart(left);
    TrimProperties(s);
    assert StripRight(left, ASCII_SPACE) == Trim(s);
    Peel(w, Trim(s), w');
  }

  lemma LeftPart(s: string) returns (w: string)
    ensures s == w + StripLeft(s, ASCII_SPACE) && Blank(w)
    ensures var left := StripLeft(s, ASCII_SPACE); left != "" ==> left[0] !in ASCII_SPACE
  {
    StripLeftProperties(s, ASCII_SPACE);
    w := s[..|s| - |StripLeft(s, ASCII_SPACE)|];
  }

  lemma RightPart(s: string) returns (w: string)
    ensures s == StripRight(s, ASCII_SPACE) + w && Blank(w)
    ensures s != "" && s[0] !in ASCII_SPACE ==> StripRight(s, ASCII_SPACE) != ""
  {
    StripRightProperties(s, ASCII_SPACE);
    w := s[|StripRight(s, ASCII_SPACE)|..];
  }
}
