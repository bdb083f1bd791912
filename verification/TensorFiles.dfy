/** The tensor file format: an 8-byte little-endian header length, the header,
    then the data that the header's offsets point into. */
module TensorFiles {

  type byte = x: int | 0 <= x < 256

  function Pow256(k: nat): nat {
    if k == 0 then 1 else 256 * Pow256(k - 1)
  }

  function ToLE(n: nat, k: nat): (s: seq<byte>)
    ensures |s| == k
  {
    if k == 0 then [] else [n % 256] + ToLE(n / 256, k - 1)
  }

  /** The little-endian number in the `k` bytes from `at` on. */
  function ReadLE(s: seq<byte>, at: nat, k: nat): nat
    requires at + k <= |s|
    decreases k
  {
    if k == 0 then 0 else s[at] + 256 * ReadLE(s, at + 1, k - 1)
  }

  lemma {:induction false} RoundTripLE(n: nat, k: nat, s: seq<byte>, at: nat)
    requires n < Pow256(k) && at + k <= |s| && s[at..at + k] == ToLE(n, k)
    ensures ReadLE(s, at, k) == n
    decreases k
  {
    if k > 0 {
      assert s[at..at + k][0] == s[at];
      assert s[at + 1..at + k] == s[at..at + k][1..] == ToLE(n / 256, k - 1);
      RoundTripLE(n / 256, k - 1, s, at + 1);
    }
  }

  lemma {:induction false} SameLE(s: seq<byte>, t: seq<byte>, at: nat, k: nat)
    requires at + k <= |s| && at + k <= |t| && forall i :: at <= i < at + k ==> s[i] == t[i]
    ensures ReadLE(s, at, k) == ReadLE(t, at, k)
    decreases k
  {
    if k > 0 {
      SameLE(s, t, at + 1, k - 1);
    }
  }

  /** What the header says of one tensor; `meta` is everything but the offsets. */
  datatype Entry = Entry(meta: string, lo: int, hi: int)

  type Header = map<string, Entry>

  function HeaderBytes(file: seq<byte>): nat
    requires |file| >= 8
  {
    ReadLE(file, 0, 8)
  }

  predicate HasTensor(file: seq<byte>, e: Entry) {
    && |file| >= 8
    && 0 <= 8 + HeaderBytes(file) + e.lo <= 8 + HeaderBytes(file) + e.hi <= |file|
  }

  /** The reading rule of the format. */
  function TensorAt(file: seq<byte>, e: Entry): (bytes: seq<byte>)
    requires HasTensor(file, e)
    ensures |bytes| == e.hi - e.lo
  {
    file[8 + HeaderBytes(file) + e.lo..8 + HeaderBytes(file) + e.hi]
  }

  /** The bytes of an inclusive range request (section 14.1.2 of RFC 9110), or
      nothing when the server cannot return exactly those. */
  datatype Fetched = Bytes(bytes: seq<byte>) | NotServed

  function Fetch(file: seq<byte>, first: int, last: int): (r: Fetched)
    ensures r.Bytes? <==> 0 <= first <= last < |file|
    ensures r.Bytes? ==> |r.bytes| == last - first + 1
  {
    if 0 <= first <= last < |file| then Bytes(file[first..last + 1]) else NotServed
  }

  const SPACE: byte := 32

  function Padding(n: nat): nat {
    var negated: int := -(n as int);
    negated % 8
  }

  function Pad(encoded: seq<byte>): (r: seq<byte>)
    ensures encoded <= r && |r| % 8 == 0 && |r| < |encoded| + 8
    ensures forall i :: |encoded| <= i < |r| ==> r[i] == SPACE
  {
    encoded + seq(Padding(|encoded|), _ => SPACE)
  }

  /** The written file; packing fails when the header length needs more than 8 bytes. */
  function Assemble(encoded: seq<byte>, payload: seq<byte>): seq<byte> {
    ToLE(|encoded|, 8) + encoded + payload
  }

  /** Reading the written file finds the header and the payload again. */
  lemma AssembleReads(encoded: seq<byte>, payload: seq<byte>, e: Entry)
    requires |encoded| < Pow256(8) && 0 <= e.lo <= e.hi <= |payload|
    ensures var file := Assemble(encoded, payload);
      && |file| >= 8 && HeaderBytes(file) == |encoded|
      && file[8..8 + |encoded|] == encoded
      && HasTensor(file, e) && TensorAt(file, e) == payload[e.lo..e.hi]
  {
    var file := Assemble(encoded, payload);
    ThreeParts(ToLE(|encoded|, 8), encoded, payload, e.lo, e.hi);
    RoundTripLE(|encoded|, 8, file, 0);
  }

  lemma ThreeParts(size: seq<byte>, header: seq<byte>, payload: seq<byte>, lo: nat, hi: nat)
    requires lo <= hi <= |payload|
    ensures var file, start := size + header + payload, |size| + |header|;
      && file[0..0 + |size|] == size && file[|size|..start] == header
      && start + hi <= |file| && file[start + lo..start + hi] == payload[lo..hi]
  {
  }
}
