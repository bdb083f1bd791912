/** The range-table compiler for Unicode membership and the binary search it
    emits: a compressed index of a set of code points. */
module UnicodeTables {

  newtype uint32 = x: int | 0 <= x < 0x1_0000_0000
  newtype size_t = x: int | 0 <= x < 0x1_0000_0000_0000_0000

  /** Plain integers in the generator; the emitted table holds them in 32 bits. */
  datatype Range = Range(first: int, last: int)

  const LIMIT := 0x110000

  /** Unicode scalar values: code points that are not surrogates (section 3.9
      of the Unicode Standard). */
  predicate IsScalar(cp: int) {
    0 <= cp < LIMIT && !(0xD800 <= cp <= 0xDFFF)
  }

  ghost predicate Ascending(cps: seq<int>) {
    forall i, j :: 0 <= i < j < |cps| ==> cps[i] < cps[j]
  }

  predicate InRange(r: Range, cp: int) {
    r.first <= cp <= r.last
  }

  ghost predicate Covered(t: seq<Range>, cp: int) {
    exists i :: 0 <= i < |t| && InRange(t[i], cp)
  }

  /** Sorted, disjoint and not even adjacent: no two ranges could be merged. */
  ghost predicate Canonical(t: seq<Range>) {
    && (forall i :: 0 <= i < |t| ==> t[i].first <= t[i].last)
    && (forall i, j :: 0 <= i < j < |t| ==> t[i].last + 1 < t[j].first)
  }

  function Size(t: seq<Range>): int {
    if t == [] then 0 else Size(t[..|t| - 1]) + (t[|t| - 1].last - t[|t| - 1].first + 1)
  }

  // --------------------------------------------------------------- compiling

  function Extend(t: seq<Range>, cp: int): seq<Range> {
    if t != [] && cp == t[|t| - 1].last + 1 then
      t[|t| - 1 := t[|t| - 1].(last := cp)]
    else t + [Range(cp, cp)]
  }

  function Compile(cps: seq<int>): seq<Range> {
    if cps == [] then [] else Extend(Compile(cps[..|cps| - 1]), cps[|cps| - 1])
  }

  function Concat(pieces: seq<seq<int>>): seq<int> {
    if pieces == [] then [] else Concat(pieces[..|pieces| - 1]) + pieces[|pieces| - 1]
  }

  /** The generator's loops over the matched pieces and their characters. */
  method CompileTable(pieces: seq<seq<int>>) returns (ranges: seq<Range>, count: nat)
    ensures ranges == Compile(Concat(pieces)) && count == |Concat(pieces)|
  {
    ranges, count := [], 0;
    ghost var done: seq<int> := [];
    for p := 0 to |pieces|
      invariant done == Concat(pieces[..p]) && count == |done| && ranges == Compile(done)
    {
      assert pieces[..p + 1][..p] == pieces[..p];
      ghost var start := done;
      for k := 0 to |pieces[p]|
        invariant done == start + pieces[p][..k] && count == |done| && ranges == Compile(done)
      {
        var cp := pieces[p][k];
        count := count + 1;
        if ranges != [] && cp == ranges[|ranges| - 1].last + 1 {
          ranges := ranges[|ranges| - 1 := ranges[|ranges| - 1].(last := cp)];
        } else {
          ranges := ranges + [Range(cp, cp)];
        }
        assert (done + [cp])[..|done|] == done;
        done := done + [cp];
      }
    }
    assert pieces[..|pieces|] == pieces;
  }

  /** The table of an ascending input is canonical, covers exactly the input,
      and its ranges have as many members as there were inputs. */
  lemma {:induction false} CompileCorrect(cps: seq<int>)
    requires Ascending(cps)
    ensures var t := Compile(cps);
      && Canonical(t)
      && (forall cp :: Covered(t, cp) <==> cp in cps)
      && Size(t) == |cps|
      && (t == [] <==> cps == [])
      && (cps != [] ==> t[|t| - 1].last == cps[|cps| - 1])
  {
    if cps != [] {
      var n := |cps| - 1;
      CompileCorrect(cps[..n]);
      ExtendCorrect(Compile(cps[..n]), cps[..n], cps[n]);
      assert cps[..n] + [cps[n]] == cps;
    }
  }

  lemma ExtendCorrect(t: seq<Range>, cps: seq<int>, cp: int)
    requires Canonical(t) && (forall x :: Covered(t, x) <==> x in cps)
    requires t == [] <==> cps == []
    requires cps != [] ==> t[|t| - 1].last == cps[|cps| - 1] < cp
    ensures var u := Extend(t, cp);
      Canonical(u) && Size(u) == Size(t) + 1 && u[|u| - 1].last == cp
      && (forall x :: Covered(u, x) <==> x in cps + [cp])
  {
    var u := Extend(t, cp);
    var n := |t| - 1;
    if t != [] && cp == t[n].last + 1 {
      assert u[..n] == t[..n];
      forall x
        ensures Covered(u, x) <==> Covered(t, x) || x == cp
      {
        assert InRange(u[n], x) <==> InRange(t[n], x) || x == cp;
        assert forall i :: 0 <= i < n ==> u[i] == t[i];
      }
    } else {
      assert u[..|t|] == t;
      forall x
        ensures Covered(u, x) <==> Covered(t, x) || x == cp
      {
        assert InRange(u[|t|], x) <==> x == cp;
        assert forall i :: 0 <= i < |t| ==> u[i] == t[i];
      }
    }
  }

  /** No compiled range contains a surrogate, or anything past the last code point. */
  lemma NoSurrogates(cps: seq<int>, i: nat, cp: int)
    requires Ascending(cps)
    requires forall k :: 0 <= k < |cps| ==> IsScalar(cps[k])
    requires i < |Compile(cps)| && InRange(Compile(cps)[i], cp)
    ensures 0 <= cp <= 0x10FFFF && !(0xD800 <= cp <= 0xDFFF)
  {
    CompileCorrect(cps);
    assert Covered(Compile(cps), cp);
  }

  // -------------------------------------------------------------- canonicity

  lemma LastIsLargest(t: seq<Range>, cp: int)
    requires Canonical(t) && Covered(t, cp)
    ensures cp <= t[|t| - 1].last
  {
    var i :| 0 <= i < |t| && InRange(t[i], cp);
    if i < |t| - 1 {
      assert t[i].last + 1 < t[|t| - 1].first;
    }
  }

  lemma FrontCovers(t: seq<Range>, cp: int)
    requires Canonical(t) && t != []
    ensures Covered(t[..|t| - 1], cp) <==> Covered(t, cp) && cp < t[|t| - 1].first
    ensures Covered(t[..|t| - 1], cp) ==> cp + 1 < t[|t| - 1].first
  {
    var n := |t| - 1;
    if i :| 0 <= i < n && InRange(t[..n][i], cp) {
      assert InRange(t[i], cp) && t[i].last + 1 < t[n].first;
    }
    if i :| 0 <= i < |t| && InRange(t[i], cp) && cp < t[n].first {
      assert InRange(t[..n][i], cp);
    }
  }

  /** Equal membership leaves no freedom: the last ranges agree. */
  lemma LastAgrees(t: seq<Range>, u: seq<Range>)
    requires Canonical(t) && Canonical(u) && t != [] && u != []
    requires forall cp :: Covered(t, cp) <==> Covered(u, cp)
    ensures t[|t| - 1] == u[|u| - 1]
  {
    var a, b := t[|t| - 1], u[|u| - 1];
    assert InRange(a, a.last) && InRange(b, b.last);
    assert Covered(t, a.last) && Covered(u, b.last);
    LastIsLargest(t, b.last);
    LastIsLargest(u, a.last);
    FirstNotLater(t, u);
    FirstNotLater(u, t);
  }

  lemma FirstNotLater(t: seq<Range>, u: seq<Range>)
    requires Canonical(t) && Canonical(u) && t != [] && u != []
    requires forall cp :: Covered(t, cp) <==> Covered(u, cp)
    requires t[|t| - 1].last == u[|u| - 1].last
    ensures u[|u| - 1].first <= t[|t| - 1].first
  {
    var a, b := t[|t| - 1], u[|u| - 1];
    if a.first < b.first {
      var cp := b.first - 1;
      assert InRange(a, cp) && Covered(t, cp);
      FrontCovers(u, cp);
    }
  }

  /** The table form is canonical: equal membership means equal tables. */
  lemma {:induction false} CanonicalUnique(t: seq<Range>, u: seq<Range>)
    requires Canonical(t) && Canonical(u)
    requires forall cp :: Covered(t, cp) <==> Covered(u, cp)
    ensures t == u
    decreases |t|
  {
    if t == [] {
      SameEmpty(t, u);
    } else if u == [] {
      SameEmpty(u, t);
    } else {
      LastAgrees(t, u);
      var t', u' := t[..|t| - 1], u[..|u| - 1];
      forall cp
        ensures Covered(t', cp) <==> Covered(u', cp)
      {
        FrontCovers(t, cp);
        FrontCovers(u, cp);
      }
      CanonicalUnique(t', u');
      assert t == t' + [t[|t| - 1]] && u == u' + [u[|u| - 1]];
    }
  }

  lemma SameEmpty(t: seq<Range>, u: seq<Range>)
    requires t == [] && Canonical(u)
    requires forall cp :: Covered(t, cp) <==> Covered(u, cp)
    ensures u == []
  {
    if u != [] {
      assert InRange(u[0], u[0].first);
      assert Covered(u, u[0].first);
    }
  }

  // ------------------------------------------------------------------ search

  /** Every number of the table fits the emitted 32-bit fields. */
  ghost predicate Fits(t: seq<Range>) {
    forall i :: 0 <= i < |t| ==> 0 <= t[i].first < 0x1_0000_0000 && 0 <= t[i].last < 0x1_0000_0000
  }

  /** The emitted lookup, in the machine's own integer widths. */
  method Contains(cp: uint32, ranges: array<Range>) returns (found: bool)
    requires ranges.Length < 0x1_0000_0000_0000_0000 && Fits(ranges[..]) && Canonical(ranges[..])
    ensures found <==> Covered(ranges[..], cp as int)
  {
    var n := ranges.Length as size_t;
    var lo: size_t, hi: size_t := 0, n;
    ghost var t := ranges[..];
    while lo < hi
      invariant 0 <= lo <= hi <= n
      invariant forall i :: 0 <= i < lo as int ==> t[i].last < cp as int
      invariant forall i :: hi as int <= i < |t| ==> cp as int <= t[i].last
    {
      var mid := lo + (hi - lo) / 2;
      assert t[mid] == ranges[mid];
      if ranges[mid].last as uint32 < cp {
        lo := mid + 1;
      } else {
        hi := mid;
      }
    }
    found := lo < n && ranges[lo].first as uint32 <= cp;
    assert lo < n ==> t[lo] == ranges[lo];
    if found {
      assert InRange(t[lo], cp as int);
    } else {
      OutsideAll(t, lo as int, cp as int);
    }
  }

  /** A number past the ranges before `k` and short of range `k` is in none. */
  lemma OutsideAll(t: seq<Range>, k: nat, cp: int)
    requires Canonical(t) && k <= |t|
    requires forall i :: 0 <= i < k ==> t[i].last < cp
    requires k < |t| ==> cp < t[k].first
    ensures !Covered(t, cp)
  {
    forall i | 0 <= i < |t|
      ensures !InRange(t[i], cp)
    {
      assert i > k ==> t[k].last + 1 < t[i].first;
    }
  }

  /** A table compiled from the matched pieces answers for the pieces themselves. */
  method Lookup(cp: uint32, pieces: seq<seq<int>>) returns (found: bool)
    requires Ascending(Concat(pieces))
    requires forall i :: 0 <= i < |Concat(pieces)| ==> IsScalar(Concat(pieces)[i])
    ensures found <==> cp as int in Concat(pieces)
  {
    var t, count := CompileTable(pieces);
    TableAnswers(Concat(pieces), cp as int);
    var ranges := new Range[|t|](i requires 0 <= i < |t| => t[i]);
    assert ranges[..] == t;
    found := Contains(cp, ranges);
  }

  lemma TableAnswers(cps: seq<int>, cp: int)
    requires Ascending(cps) && forall i :: 0 <= i < |cps| ==> IsScalar(cps[i])
    ensures Canonical(Compile(cps)) && Fits(Compile(cps)) && |Compile(cps)| <= LIMIT
    ensures Covered(Compile(cps), cp) <==> cp in cps
  {
    CompileCorrect(cps);
    TableFits(cps);
  }

  /** A table of scalar values fits, in number and in width. */
  lemma TableFits(cps: seq<int>)
    requires Ascending(cps) && forall i :: 0 <= i < |cps| ==> IsScalar(cps[i])
    ensures Fits(Compile(cps)) && |Compile(cps)| <= LIMIT
  {
    var t := Compile(cps);
    CompileCorrect(cps);
    forall i | 0 <= i < |t|
      ensures 0 <= t[i].first < LIMIT && 0 <= t[i].last < LIMIT
    {
      assert InRange(t[i], t[i].first) && Covered(t, t[i].first);
      assert InRange(t[i], t[i].last) && Covered(t, t[i].last);
    }
    FirstsGrow(t, |t|);
  }

  lemma {:induction false} FirstsGrow(t: seq<Range>, n: nat)
    requires Canonical(t) && n <= |t|
    requires forall i :: 0 <= i < |t| ==> 0 <= t[i].first < LIMIT
    ensures n > 0 ==> n - 1 <= t[n - 1].first
    ensures n <= LIMIT
  {
    if n > 1 {
      FirstsGrow(t, n - 1);
      assert t[n - 2].last + 1 < t[n - 1].first;
    }
  }
}
