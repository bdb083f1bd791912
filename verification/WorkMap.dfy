/** Which sequence, heads and tokens each block of the prefill grid works on. */
module WorkMap {
  import opened Arithmetic

  datatype Work = Work(seqIdx: int, qHead: int, vHead: int, tokOffset: int, seqLen: int, tile: int)

  /** Sequences times heads: the blocks of the grid. */
  function Grid(cu: seq<int>, heads: nat): nat
    requires |cu| > 0
  {
    (|cu| - 1) * heads
  }

  function OutputHead(heads: nat, block: nat): nat
    requires heads > 0
  {
    block % heads
  }

  lemma SequenceInRange(cu: seq<int>, heads: nat, block: nat)
    requires |cu| > 0 && heads > 0 && block < Grid(cu, heads)
    ensures 0 <= block / heads < |cu| - 1
  {
    if block / heads >= |cu| - 1 {
      TimesMonotone(|cu| - 1, block / heads, heads);
    }
  }

  function GetNextWork(cu: seq<int>, qHeads: nat, vHeads: nat, heads: nat, block: nat): Work
    requires |cu| > 0 && qHeads > 0 && vHeads > 0 && heads > 0 && block < Grid(cu, heads)
  {
    SequenceInRange(cu, heads, block);
    var seqIdx := block / heads;
    var outputHead := OutputHead(heads, block);
    var start := cu[seqIdx];
    var end := cu[seqIdx + 1];
    Work(seqIdx, outputHead % qHeads, outputHead % vHeads, start, end - start, 0)
  }

  predicate HasToken(w: Work, t: int) {
    w.tokOffset <= t < w.tokOffset + w.seqLen
  }

  // ------------------------------------------------------- blocks and their work

  function BlockOf(cu: seq<int>, heads: nat, s: nat, h: nat): (b: nat)
    requires |cu| > 0 && s < |cu| - 1 && h < heads
    ensures b < Grid(cu, heads)
  {
    TimesMonotone(s + 1, |cu| - 1, heads);
    assert (s + 1) * heads == s * heads + heads;
    s * heads + h
  }

  /** Every sequence and output head has exactly one block of the grid. */
  lemma OneBlockEach(cu: seq<int>, qHeads: nat, vHeads: nat, heads: nat, s: nat, h: nat)
    requires |cu| > 0 && qHeads > 0 && vHeads > 0 && heads > 0 && s < |cu| - 1 && h < heads
    ensures forall b: nat :: b < Grid(cu, heads) ==>
      (GetNextWork(cu, qHeads, vHeads, heads, b).seqIdx == s && OutputHead(heads, b) == h <==> b == BlockOf(cu, heads, s, h))
  {
    forall b: nat | b < Grid(cu, heads)
      ensures GetNextWork(cu, qHeads, vHeads, heads, b).seqIdx == s && OutputHead(heads, b) == h
          <==> b == BlockOf(cu, heads, s, h)
    {
      DivMod(b, heads, s, h);
    }
  }

  /** That block works on its sequence's tokens, from the first tile on. */
  lemma WorkAt(cu: seq<int>, qHeads: nat, vHeads: nat, heads: nat, s: nat, h: nat)
    requires |cu| > 0 && qHeads > 0 && vHeads > 0 && s < |cu| - 1 && h < heads
    ensures var w := GetNextWork(cu, qHeads, vHeads, heads, BlockOf(cu, heads, s, h));
      w.seqIdx == s && w.tokOffset == cu[s] && w.tokOffset + w.seqLen == cu[s + 1] && w.tile == 0
  {
    OneBlockEach(cu, qHeads, vHeads, heads, s, h);
  }

  // -------------------------------------------------------------------- tokens

  function One(c: bool): nat {
    if c then 1 else 0
  }

  /** How many of the first `n` sequences hold token `t`. */
  function Holders(cu: seq<int>, n: nat, t: int): nat
    requires n < |cu|
  {
    if n == 0 then 0 else Holders(cu, n - 1, t) + One(cu[n - 1] <= t < cu[n])
  }

  /** How many of the first `n` steps of the offsets fall past token `t`. */
  function Falls(cu: seq<int>, n: nat, t: int): nat
    requires n < |cu|
  {
    if n == 0 then 0 else Falls(cu, n - 1, t) + One(cu[n] <= t < cu[n - 1])
  }

  lemma {:induction false} HoldersBalance(cu: seq<int>, n: nat, t: int)
    requires n < |cu|
    ensures Holders(cu, n, t) == Falls(cu, n, t) + One(cu[n] > t) - One(cu[0] > t)
  {
    if n > 0 {
      HoldersBalance(cu, n - 1, t);
    }
  }

  lemma {:induction false} FallCounts(cu: seq<int>, n: nat, t: int, i: nat)
    requires 0 < i <= n < |cu| && cu[i] <= t < cu[i - 1]
    ensures Falls(cu, n, t) >= 1
  {
    if i < n {
      FallCounts(cu, n - 1, t, i);
    }
  }

  lemma {:induction false} NoFalls(cu: seq<int>, n: nat, t: int)
    requires n < |cu| && Monotone(cu)
    ensures Falls(cu, n, t) == 0
  {
    if n > 0 {
      NoFalls(cu, n - 1, t);
    }
  }

  ghost predicate Monotone(cu: seq<int>) {
    forall i, j :: 0 <= i < j < |cu| && j == i + 1 ==> cu[i] <= cu[j]
  }

  /** How many of the first `n` blocks work on token `t` for output head `h`. */
  function Workers(cu: seq<int>, qHeads: nat, vHeads: nat, heads: nat, n: nat, h: nat, t: int): nat
    requires |cu| > 0 && qHeads > 0 && vHeads > 0 && heads > 0 && n <= Grid(cu, heads)
  {
    if n == 0 then 0
    else
      Workers(cu, qHeads, vHeads, heads, n - 1, h, t)
      + One(OutputHead(heads, n - 1) == h && HasToken(GetNextWork(cu, qHeads, vHeads, heads, n - 1), t))
  }

  lemma WorkersStep(cu: seq<int>, qHeads: nat, vHeads: nat, heads: nat, s: nat, k: nat, n: nat, h: nat, t: int)
    requires |cu| > 0 && qHeads > 0 && vHeads > 0 && heads > 0
    requires k < heads && n == s * heads + k < Grid(cu, heads)
    ensures s + 1 < |cu|
    ensures Workers(cu, qHeads, vHeads, heads, n + 1, h, t)
         == Workers(cu, qHeads, vHeads, heads, n, h, t) + One(k == h && cu[s] <= t < cu[s + 1])
  {
    DivMod(n, heads, s, k);
    SequenceInRange(cu, heads, n);
  }

  /** The blocks before block `n`, which is block `k` of sequence `s`: one holder for
      each sequence done, and this sequence's if its head `h` is done. */
  lemma {:induction false} WorkersAreHolders(
    cu: seq<int>, qHeads: nat, vHeads: nat, heads: nat, s: nat, k: nat, n: nat, h: nat, t: int)
    requires |cu| > 0 && qHeads > 0 && vHeads > 0 && heads > 0 && h < heads
    requires s < |cu| && k < heads && n == s * heads + k <= Grid(cu, heads)
    ensures Workers(cu, qHeads, vHeads, heads, n, h, t)
         == Holders(cu, s, t) + One(h < k && s + 1 < |cu| && cu[s] <= t < cu[s + 1])
    decreases n
  {
    if k > 0 {
      WorkersAreHolders(cu, qHeads, vHeads, heads, s, k - 1, n - 1, h, t);
      WorkersStep(cu, qHeads, vHeads, heads, s, k - 1, n - 1, h, t);
    } else if s > 0 {
      LastBlock(s, heads);
      WorkersAreHolders(cu, qHeads, vHeads, heads, s - 1, heads - 1, n - 1, h, t);
      WorkersStep(cu, qHeads, vHeads, heads, s - 1, heads - 1, n - 1, h, t);
    }
  }

  lemma LastBlock(s: nat, heads: nat)
    requires s > 0 && heads > 0
    ensures (s - 1) * heads + (heads - 1) == s * heads - 1 >= 0
  {
    assert (s - 1) * heads == s * heads - heads;
  }

  lemma GridBalance(cu: seq<int>, qHeads: nat, vHeads: nat, heads: nat, h: nat, t: int)
    requires |cu| > 0 && qHeads > 0 && vHeads > 0 && heads > 0 && h < heads
    ensures Workers(cu, qHeads, vHeads, heads, Grid(cu, heads), h, t)
         == Falls(cu, |cu| - 1, t) + One(cu[|cu| - 1] > t) - One(cu[0] > t)
  {
    WorkersAreHolders(cu, qHeads, vHeads, heads, |cu| - 1, 0, Grid(cu, heads), h, t);
    HoldersBalance(cu, |cu| - 1, t);
  }

  /** For every output head, each token is worked on by exactly one block and no
      other token by any, exactly when the offsets never fall. */
  lemma TokensPartitioned(cu: seq<int>, qHeads: nat, vHeads: nat, heads: nat, h: nat)
    requires |cu| > 0 && qHeads > 0 && vHeads > 0 && heads > 0 && h < heads
    requires cu[0] == 0 <= cu[|cu| - 1]
    ensures (forall t :: Workers(cu, qHeads, vHeads, heads, Grid(cu, heads), h, t) == One(0 <= t < cu[|cu| - 1]))
            <==> Monotone(cu)
  {
    var n := |cu| - 1;
    if Monotone(cu) {
      forall t
        ensures Workers(cu, qHeads, vHeads, heads, Grid(cu, heads), h, t) == One(0 <= t < cu[n])
      {
        GridBalance(cu, qHeads, vHeads, heads, h, t);
        NoFalls(cu, n, t);
      }
    } else {
      var i, j :| 0 <= i < j < |cu| && j == i + 1 && cu[i] > cu[j];
      FallCounts(cu, n, cu[j], j);
      GridBalance(cu, qHeads, vHeads, heads, h, cu[j]);
      assert Workers(cu, qHeads, vHeads, heads, Grid(cu, heads), h, cu[j]) != One(0 <= cu[j] < cu[n]);
    }
  }

  // ------------------------------------------------------------- head sharing

  /** The query head a block reads, or the value head. */
  function HeadRead(w: Work, value: bool): int {
    if value then w.vHead else w.qHead
  }

  function HeadCount(qHeads: nat, vHeads: nat, value: bool): nat {
    if value then vHeads else qHeads
  }

  function HeadOf(cu: seq<int>, qHeads: nat, vHeads: nat, heads: nat, value: bool, s: nat, h: nat): int
    requires |cu| > 0 && qHeads > 0 && vHeads > 0 && s < |cu| - 1 && h < heads
  {
    HeadRead(GetNextWork(cu, qHeads, vHeads, heads, BlockOf(cu, heads, s, h)), value)
  }

  /** The heads are interleaved: the first output heads read one head each, in order,
      and from there on the order begins again. */
  lemma Interleaved(cu: seq<int>, qHeads: nat, vHeads: nat, heads: nat, value: bool, s: nat, h: nat)
    requires |cu| > 0 && qHeads > 0 && vHeads > 0 && s < |cu| - 1 && h < heads
    ensures var d := HeadCount(qHeads, vHeads, value);
      HeadOf(cu, qHeads, vHeads, heads, value, s, h) == if h < d then h else HeadOf(cu, qHeads, vHeads, heads, value, s, h - d)
  {
    var d := HeadCount(qHeads, vHeads, value);
    HeadIs(cu, qHeads, vHeads, heads, value, s, h);
    if h < d {
      DivMod(h, d, 0, h);
    } else {
      HeadIs(cu, qHeads, vHeads, heads, value, s, h - d);
      OneStride(h, d);
    }
  }

  lemma HeadIs(cu: seq<int>, qHeads: nat, vHeads: nat, heads: nat, value: bool, s: nat, h: nat)
    requires |cu| > 0 && qHeads > 0 && vHeads > 0 && s < |cu| - 1 && h < heads
    ensures HeadOf(cu, qHeads, vHeads, heads, value, s, h) == h % HeadCount(qHeads, vHeads, value)
  {
    OneBlockEach(cu, qHeads, vHeads, heads, s, h);
  }

  /** How many of the first `n` output heads of a sequence read head `q`. */
  function Served(cu: seq<int>, qHeads: nat, vHeads: nat, heads: nat, value: bool, s: nat, n: nat, q: nat): nat
    requires |cu| > 0 && qHeads > 0 && vHeads > 0 && s < |cu| - 1 && n <= heads
  {
    if n == 0 then 0
    else Served(cu, qHeads, vHeads, heads, value, s, n - 1, q) + One(HeadOf(cu, qHeads, vHeads, heads, value, s, n - 1) == q)
  }

  lemma {:induction false} ServedIs(cu: seq<int>, qHeads: nat, vHeads: nat, heads: nat, value: bool, s: nat, n: nat, q: nat)
    requires |cu| > 0 && qHeads > 0 && vHeads > 0 && s < |cu| - 1 && n <= heads && q < HeadCount(qHeads, vHeads, value)
    ensures var d := HeadCount(qHeads, vHeads, value);
      Served(cu, qHeads, vHeads, heads, value, s, n, q) == n / d + One(q < n % d)
  {
    var d := HeadCount(qHeads, vHeads, value);
    if n > 0 {
      ServedIs(cu, qHeads, vHeads, heads, value, s, n - 1, q);
      HeadIs(cu, qHeads, vHeads, heads, value, s, n - 1);
      NextDivMod(n - 1, d);
    } else {
      DivMod(0, d, 0, 0);
    }
  }

  lemma NextDivMod(n: nat, d: nat)
    requires d > 0
    ensures n % d == d - 1 ==> (n + 1) / d == n / d + 1 && (n + 1) % d == 0
    ensures n % d < d - 1 ==> (n + 1) / d == n / d && (n + 1) % d == n % d + 1
  {
    var q, r := n / d, n % d;
    assert n == q * d + r;
    assert (q + 1) * d == q * d + d;
    if r == d - 1 {
      DivMod(n + 1, d, q + 1, 0);
    } else {
      DivMod(n + 1, d, q, r + 1);
    }
  }

  /** In every sequence each query head serves the same number of output heads exactly
      when the query heads divide the output heads; and so do the value heads. */
  lemma EvenShares(cu: seq<int>, qHeads: nat, vHeads: nat, heads: nat, value: bool, s: nat)
    requires |cu| > 0 && qHeads > 0 && vHeads > 0 && s < |cu| - 1
    ensures var d := HeadCount(qHeads, vHeads, value);
      (forall q: nat :: q < d ==> Served(cu, qHeads, vHeads, heads, value, s, heads, q) == heads / d) <==> heads % d == 0
  {
    var d := HeadCount(qHeads, vHeads, value);
    forall q: nat | q < d
      ensures Served(cu, qHeads, vHeads, heads, value, s, heads, q) == heads / d + One(q < heads % d)
    {
      ServedIs(cu, qHeads, vHeads, heads, value, s, heads, q);
    }
    assert Served(cu, qHeads, vHeads, heads, value, s, heads, 0) == heads / d + One(0 < heads % d);
  }
}
