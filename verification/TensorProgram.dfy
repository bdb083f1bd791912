/** The whole extraction: shard after shard, the new file, and what it holds. */
module TensorProgram {
  import opened Wrappers
  import opened TensorFiles
  import opened RangeGroups
  import opened TensorExtract
  import opened Sorting
  import opened Lists

  /** The order in which the selected tensors are taken from the given shards. */
  function PlanFor(shards: map<string, Shard>, selected: seq<(string, string)>, order: seq<string>): seq<Pick>
    requires Known(shards, order)
  {
    if order == [] then []
    else
      var s := order[|order| - 1];
      PlanFor(shards, selected, order[..|order| - 1])
      + PicksOf(s, Sort(NamesOf(selected, s), ByOffset(shards[s].header)))
  }

  function SortedShards(selected: seq<(string, string)>): seq<string> {
    Sort(ShardsOf(selected), TextLe)
  }

  predicate Known(shards: map<string, Shard>, order: seq<string>) {
    forall i :: 0 <= i < |order| ==> order[i] in shards
  }

  predicate ShardsKnown(shards: map<string, Shard>, selected: seq<(string, string)>) {
    Known(shards, SortedShards(selected))
  }

  lemma KnownStep(shards: map<string, Shard>, order: seq<string>, i: nat)
    requires i < |order| && Known(shards, order[..i]) && order[i] in shards
    ensures Known(shards, order[..i + 1])
  {
    Prefix(order, i);
  }

  function Plan(shards: map<string, Shard>, selected: seq<(string, string)>): seq<Pick>
    requires ShardsKnown(shards, selected)
  {
    PlanFor(shards, selected, SortedShards(selected))
  }

  datatype Output = Output(file: seq<byte>, placement: Placement)

  ghost predicate ServedBy(shards: map<string, Shard>, selected: seq<(string, string)>, s: string) {
    s in shards && Serves(shards[s], NamesOf(selected, s))
  }

  /** Every shard of the list is there and serves what is selected from it. */
  ghost predicate AllServed(shards: map<string, Shard>, selected: seq<(string, string)>, order: seq<string>) {
    order == [] || (AllServed(shards, selected, Front(order)) && ServedBy(shards, selected, Last(order)))
  }

  /** The outer loop over the sorted shards. */
  method ExtractShards(selected: seq<(string, string)>, shards: map<string, Shard>, byShard: map<string, seq<string>>, order: seq<string>)
    returns (r: Result<Placement, Error>)
    requires DistinctNames(selected) && forall s :: Lookup(byShard, s) == NamesOf(selected, s)
    ensures r.Ok? <==> AllServed(shards, selected, order)
    ensures r.Ok? ==> Known(shards, order)
    ensures r.Ok? ==> HaveAll(shards, PlanFor(shards, selected, order)) && r.value == PlaceAll(shards, PlanFor(shards, selected, order))
    ensures r != Err(HeaderTooLong)
  {
    var st := NOTHING;
    ghost var done: seq<Pick> := [];
    for i := 0 to |order|
      invariant AllServed(shards, selected, order[..i])
      invariant Known(shards, order[..i])
      invariant done == PlanFor(shards, selected, order[..i])
      invariant HaveAll(shards, done) && st == PlaceAll(shards, done)
    {
      var s := order[i];
      ServedStep(shards, selected, order, i);
      if s !in shards {
        return Err(MissingShard);
      }
      NamesOfDistinct(selected, s);
      Prefix(order, i);
      PlanForStep(shards, selected, order[..i], s);
      var next := ExtractShard(st, shards, done, s, shards[s], Lookup(byShard, s));
      if next.Err? {
        return Err(next.error);
      }
      st := next.value;
      done := done + PicksOf(s, Sort(NamesOf(selected, s), ByOffset(shards[s].header)));
      KnownStep(shards, order, i);
    }
    TakeAll(order);
    r := Ok(st);
  }

  lemma ServedStep(shards: map<string, Shard>, selected: seq<(string, string)>, order: seq<string>, i: nat)
    requires i < |order|
    ensures AllServed(shards, selected, order[..i + 1])
        <==> AllServed(shards, selected, order[..i]) && ServedBy(shards, selected, order[i])
    ensures AllServed(shards, selected, order) ==> AllServed(shards, selected, order[..i + 1])
  {
    Prefix(order, i);
    Snoc(order[..i], order[i]);
    ServedPrefix(shards, selected, order, i + 1);
  }

  lemma {:induction false} ServedPrefix(shards: map<string, Shard>, selected: seq<(string, string)>, order: seq<string>, i: nat)
    requires i <= |order|
    ensures AllServed(shards, selected, order) ==> AllServed(shards, selected, order[..i])
  {
    if i == |order| {
      TakeAll(order);
    } else {
      ServedPrefix(shards, selected, Front(order), i);
      assert Front(order)[..i] == order[..i];
    }
  }

  /** So each of its shards serves its part. */
  lemma {:induction false} ServedEach(shards: map<string, Shard>, selected: seq<(string, string)>, order: seq<string>)
    ensures AllServed(shards, selected, order) <==> forall i :: 0 <= i < |order| ==> ServedBy(shards, selected, order[i])
  {
    if order != [] {
      ServedEach(shards, selected, Front(order));
      assert forall i :: 0 <= i < |order| - 1 ==> Front(order)[i] == order[i];
    }
  }

  lemma PlanForStep(shards: map<string, Shard>, selected: seq<(string, string)>, order: seq<string>, s: string)
    requires Known(shards, order) && s in shards
    ensures PlanFor(shards, selected, order + [s])
         == PlanFor(shards, selected, order) + PicksOf(s, Sort(NamesOf(selected, s), ByOffset(shards[s].header)))
  {
    Snoc(order, s);
  }

  /** From the selection to the new file. `encode` is the JSON text of a header, and
      `decode` what a reader of the file makes of such a text. */
  method Extract(selected: seq<(string, string)>, shards: map<string, Shard>, encode: Header -> seq<byte>,
                 ghost decode: seq<byte> -> Header)
    returns (r: Result<Output, Error>)
    requires DistinctNames(selected)
    ensures r.Ok? ==> ShardsKnown(shards, selected) && HaveAll(shards, Plan(shards, selected))
    ensures r.Ok? ==> r.value.placement == PlaceAll(shards, Plan(shards, selected))
    ensures r.Ok? ==> |Pad(encode(r.value.placement.header))| < Pow256(8)
    ensures r.Ok? ==> r.value.file == Assemble(Pad(encode(r.value.placement.header)), r.value.placement.payload)
    ensures r == Err(HeaderTooLong) ==> ShardsKnown(shards, selected) && HaveAll(shards, Plan(shards, selected))
                                        && |Pad(encode(PlaceAll(shards, Plan(shards, selected)).header))| >= Pow256(8)
    ensures r.Ok? || r.error == HeaderTooLong <==> AllServed(shards, selected, SortedShards(selected))
    ensures r.Ok? && decode(Pad(encode(r.value.placement.header))) == r.value.placement.header ==>
      forall i :: 0 <= i < |selected| ==> ReadsBack(shards, r.value.file, decode, selected[i].0, selected[i].1)
  {
    var byShard, first := GroupByShard(selected);
    var order := Sort(first, TextLe);
    var st := ExtractShards(selected, shards, byShard, order);
    if st.Err? {
      return Err(st.error);
    }
    var encoded := Pad(encode(st.value.header));
    if |encoded| >= Pow256(8) {
      return Err(HeaderTooLong);
    }
    var data := new Reader(st.value.payload);
    var file := CopyAll(data, ToLE(|encoded|, 8) + encoded);
    if decode(encoded) == st.value.header {
      forall i | 0 <= i < |selected|
        ensures ReadsBack(shards, file, decode, selected[i].0, selected[i].1)
      {
        EndToEnd(shards, selected, encoded, decode, selected[i].0, selected[i].1);
      }
    }
    r := Ok(Output(file, st.value));
  }

  // ------------------------------------------------------- what it comes to

  ghost predicate DistinctPicks(picks: seq<Pick>) {
    forall i, j :: 0 <= i < j < |picks| ==> picks[i].1 != picks[j].1
  }

  ghost function CursorAt(shards: map<string, Shard>, picks: seq<Pick>, k: nat): int
    requires HaveAll(shards, picks) && k <= |picks|
  {
    PlaceAll(shards, picks[..k]).cursor
  }

  lemma {:induction false} PlacedShape(shards: map<string, Shard>, picks: seq<Pick>)
    requires HaveAll(shards, picks)
    ensures var st := PlaceAll(shards, picks);
      && |st.payload| == st.cursor && |st.records| == |picks|
      && (forall n :: n in st.header <==> exists k :: 0 <= k < |picks| && picks[k].1 == n)
  {
    if picks != [] {
      var n := |picks| - 1;
      PlacedShape(shards, picks[..n]);
      assert Have(shards, picks[n]);
      forall m
        ensures m in PlaceAll(shards, picks).header <==> exists k :: 0 <= k < |picks| && picks[k].1 == m
      {
        if k :| 0 <= k < |picks| && picks[k].1 == m {
          assert k < n ==> picks[..n][k].1 == m;
        }
      }
    }
  }

  predicate Holds(st: Placement, name: string, meta: string, lo: int, hi: int, bytes: seq<byte>) {
    && name in st.header && st.header[name] == Entry(meta, lo, hi)
    && 0 <= lo <= hi <= |st.payload| && st.payload[lo..hi] == bytes
  }

  /** Placing another tensor leaves the earlier ones where they are. */
  lemma PlaceOlder(st: Placement, p: Pick, source: Entry, added: seq<byte>,
                   name: string, meta: string, lo: int, hi: int, bytes: seq<byte>)
    requires Holds(st, name, meta, lo, hi, bytes) && name != p.1
    ensures Holds(Place(st, p, source, added), name, meta, lo, hi, bytes)
  {
    assert (st.payload + added)[lo..hi] == st.payload[lo..hi];
  }

  lemma PlaceNewest(st: Placement, p: Pick, source: Entry, added: seq<byte>)
    requires |st.payload| == st.cursor && |added| == source.hi - source.lo
    ensures Holds(Place(st, p, source, added), p.1, source.meta, st.cursor, st.cursor + |added|, added)
  {
    assert (st.payload + added)[st.cursor..st.cursor + |added|] == added;
  }

  /** Pick `k` occupies the bytes from cursor `k` to cursor `k + 1`, and they are
      the bytes of its source. */
  lemma {:induction false} PlacedAt(shards: map<string, Shard>, picks: seq<Pick>, k: nat)
    requires HaveAll(shards, picks) && DistinctPicks(picks) && k < |picks|
    ensures Have(shards, picks[k])
    ensures PlacedIn(shards, PlaceAll(shards, picks), picks[k], CursorAt(shards, picks, k), CursorAt(shards, picks, k + 1))
  {
    if k < |picks| - 1 {
      PlacedAt(shards, Front(picks), k);
      CursorOfFront(shards, picks, k);
      CursorOfFront(shards, picks, k + 1);
      StillPlaced(shards, picks, k, CursorAt(shards, picks, k), CursorAt(shards, picks, k + 1));
    } else {
      CursorOfFront(shards, picks, k);
      CursorEnds(shards, picks);
      LastPlaced(shards, picks);
    }
  }

  /** Pick `k` lies at [lo, hi) with the bytes of its source. */
  ghost predicate PlacedIn(shards: map<string, Shard>, st: Placement, p: Pick, lo: int, hi: int)
    requires Have(shards, p)
  {
    Holds(st, p.1, SourceOf(shards, p).meta, lo, hi, TensorAt(shards[p.0].file, SourceOf(shards, p)))
  }

  lemma StillPlaced(shards: map<string, Shard>, picks: seq<Pick>, k: nat, lo: int, hi: int)
    requires HaveAll(shards, picks) && DistinctPicks(picks) && k < |picks| - 1
    requires HaveAll(shards, Front(picks)) && Have(shards, picks[k])
    requires PlacedIn(shards, PlaceAll(shards, Front(picks)), picks[k], lo, hi)
    ensures PlacedIn(shards, PlaceAll(shards, picks), picks[k], lo, hi)
  {
    var p, last := picks[k], Last(picks);
    PlaceLast(shards, picks);
    PlaceOlder(PlaceAll(shards, Front(picks)), last, SourceOf(shards, last), TensorAt(shards[last.0].file, SourceOf(shards, last)),
               p.1, SourceOf(shards, p).meta, lo, hi, TensorAt(shards[p.0].file, SourceOf(shards, p)));
  }

  lemma LastPlaced(shards: map<string, Shard>, picks: seq<Pick>)
    requires HaveAll(shards, picks) && picks != []
    ensures HaveAll(shards, Front(picks)) && Have(shards, Last(picks))
    ensures PlacedIn(shards, PlaceAll(shards, picks), Last(picks),
                     PlaceAll(shards, Front(picks)).cursor, PlaceAll(shards, picks).cursor)
  {
    var last := Last(picks);
    PlaceLast(shards, picks);
    PlacedShape(shards, Front(picks));
    PlaceNewest(PlaceAll(shards, Front(picks)), last, SourceOf(shards, last), TensorAt(shards[last.0].file, SourceOf(shards, last)));
  }

  lemma PlaceLast(shards: map<string, Shard>, picks: seq<Pick>)
    requires HaveAll(shards, picks) && picks != []
    ensures var p := Last(picks);
      && HaveAll(shards, Front(picks)) && Have(shards, p)
      && PlaceAll(shards, picks)
         == Place(PlaceAll(shards, Front(picks)), p, SourceOf(shards, p), TensorAt(shards[p.0].file, SourceOf(shards, p)))
  {
  }

  lemma CursorOfFront(shards: map<string, Shard>, picks: seq<Pick>, k: nat)
    requires HaveAll(shards, picks) && k < |picks|
    ensures HaveAll(shards, Front(picks)) && CursorAt(shards, Front(picks), k) == CursorAt(shards, picks, k)
    ensures k == |picks| - 1 ==> CursorAt(shards, picks, k) == PlaceAll(shards, Front(picks)).cursor
  {
    assert Front(picks)[..k] == picks[..k];
  }

  lemma CursorEnds(shards: map<string, Shard>, picks: seq<Pick>)
    requires HaveAll(shards, picks)
    ensures CursorAt(shards, picks, |picks|) == PlaceAll(shards, picks).cursor
  {
    TakeAll(picks);
  }

  /** Record `k` says where pick `k` came from. */
  lemma {:induction false} RecordedAt(shards: map<string, Shard>, picks: seq<Pick>, k: nat)
    requires HaveAll(shards, picks) && k < |picks|
    ensures Have(shards, picks[k]) && |PlaceAll(shards, picks).records| == |picks|
    ensures var source := SourceOf(shards, picks[k]);
      PlaceAll(shards, picks).records[k] == Record(picks[k].1, picks[k].0, source.lo, source.hi, source.hi - source.lo)
  {
    var front := Front(picks);
    PlaceLast(shards, picks);
    PlacedShape(shards, front);
    assert Have(shards, picks[k]);
    if k < |front| {
      RecordedAt(shards, front, k);
    }
  }

  lemma CursorsGrow(shards: map<string, Shard>, picks: seq<Pick>, j: nat, k: nat)
    requires HaveAll(shards, picks) && j <= k <= |picks|
    ensures CursorAt(shards, picks, j) <= CursorAt(shards, picks, k)
  {
    var cursors := Cursors(shards, picks);
    forall i | 0 <= i < |picks|
      ensures cursors[i] <= cursors[i + 1]
    {
      CursorStep(shards, picks, i);
    }
    NeverFalls(cursors, j, k);
  }

  ghost function Cursors(shards: map<string, Shard>, picks: seq<Pick>): seq<int>
    requires HaveAll(shards, picks)
  {
    seq(|picks| + 1, k requires 0 <= k <= |picks| => CursorAt(shards, picks, k))
  }

  lemma {:induction false} NeverFalls(s: seq<int>, j: nat, k: nat)
    requires j <= k < |s| && forall i :: 0 <= i < |s| - 1 ==> s[i] <= s[i + 1]
    ensures s[j] <= s[k]
  {
    if j < k {
      NeverFalls(s, j, k - 1);
    }
  }

  lemma {:induction false} Bracketed(s: seq<int>, at: int, n: nat) returns (k: nat)
    requires n < |s| && s[0] <= at < s[n]
    ensures k < n && s[k] <= at < s[k + 1]
  {
    if at < s[n - 1] {
      k := Bracketed(s, at, n - 1);
    } else {
      k := n - 1;
    }
  }

  lemma CursorStep(shards: map<string, Shard>, picks: seq<Pick>, k: nat)
    requires HaveAll(shards, picks) && k < |picks|
    ensures CursorAt(shards, picks, k) <= CursorAt(shards, picks, k + 1)
  {
    Prefix(picks, k);
    PlaceNext(shards, picks[..k], picks[k]);
  }

  /** The new offsets cut [0, cursor) into consecutive pieces: each byte of the
      payload lies in the range of exactly one of the written tensors. */
  lemma OffsetsPartition(shards: map<string, Shard>, picks: seq<Pick>, at: int)
    requires HaveAll(shards, picks) && DistinctPicks(picks) && 0 <= at < PlaceAll(shards, picks).cursor
    ensures exists k :: 0 <= k < |picks| && Owns(shards, picks, k, at)
    ensures forall j, k :: 0 <= j < |picks| && 0 <= k < |picks| && Owns(shards, picks, j, at) && Owns(shards, picks, k, at) ==> j == k
  {
    CursorEnds(shards, picks);
    var k := FindOwner(shards, picks, at, |picks|);
    OwnsByCursor(shards, picks, k, at);
    forall j | 0 <= j < |picks| && Owns(shards, picks, j, at)
      ensures j == k
    {
      OneOwner(shards, picks, j, k, at);
    }
  }

  lemma OneOwner(shards: map<string, Shard>, picks: seq<Pick>, j: nat, k: nat, at: int)
    requires HaveAll(shards, picks) && DistinctPicks(picks) && j < |picks| && k < |picks|
    requires Owns(shards, picks, j, at) && Owns(shards, picks, k, at)
    ensures j == k
  {
    OwnsByCursor(shards, picks, j, at);
    OwnsByCursor(shards, picks, k, at);
    if j < k {
      CursorsGrow(shards, picks, j + 1, k);
    } else if k < j {
      CursorsGrow(shards, picks, k + 1, j);
    }
  }

  lemma OwnsByCursor(shards: map<string, Shard>, picks: seq<Pick>, k: nat, at: int)
    requires HaveAll(shards, picks) && DistinctPicks(picks) && k < |picks|
    ensures Owns(shards, picks, k, at) <==> CursorAt(shards, picks, k) <= at < CursorAt(shards, picks, k + 1)
  {
    PlacedAt(shards, picks, k);
  }

  ghost predicate Owns(shards: map<string, Shard>, picks: seq<Pick>, k: int, at: int)
    requires HaveAll(shards, picks) && 0 <= k < |picks|
  {
    var st := PlaceAll(shards, picks);
    picks[k].1 in st.header && st.header[picks[k].1].lo <= at < st.header[picks[k].1].hi
  }

  lemma CursorStart(shards: map<string, Shard>, picks: seq<Pick>)
    requires HaveAll(shards, picks)
    ensures CursorAt(shards, picks, 0) == 0
  {
    assert picks[..0] == [];
  }

  lemma FindOwner(shards: map<string, Shard>, picks: seq<Pick>, at: int, n: nat) returns (k: nat)
    requires HaveAll(shards, picks) && n <= |picks| && 0 <= at < CursorAt(shards, picks, n)
    ensures k < n && CursorAt(shards, picks, k) <= at < CursorAt(shards, picks, k + 1)
  {
    CursorStart(shards, picks);
    k := Bracketed(Cursors(shards, picks), at, n);
  }

  // ------------------------------------------------------ plan and selection

  lemma SortedShardsProperties(selected: seq<(string, string)>)
    ensures Distinct(SortedShards(selected))
    ensures forall s :: s in SortedShards(selected) <==> exists i :: 0 <= i < |selected| && selected[i].1 == s
  {
    ShardsOfProperties(selected);
    SortKeeps(ShardsOf(selected), TextLe);
    SortDistinct(ShardsOf(selected), TextLe);
  }

  lemma {:induction false} PlanMembers(shards: map<string, Shard>, selected: seq<(string, string)>, order: seq<string>, p: Pick)
    requires Known(shards, order)
    ensures p in PlanFor(shards, selected, order) <==> p.0 in order && (p.1, p.0) in selected
  {
    if order != [] {
      var front, s := Front(order), Last(order);
      assert s in shards;
      PlanMembers(shards, selected, front, p);
      LastMembers(PlanFor(shards, selected, front), selected, shards[s].header, s, p);
      MemberSnoc(order, p.0);
    }
  }

  lemma LastMembers(front: seq<Pick>, selected: seq<(string, string)>, header: Header, s: string, p: Pick)
    ensures p in front + PicksOf(s, Sort(NamesOf(selected, s), ByOffset(header)))
        <==> p in front || (p.0 == s && (p.1, p.0) in selected)
  {
    ShardMembers(selected, header, s, p);
    InEither(front, PicksOf(s, Sort(NamesOf(selected, s), ByOffset(header))), p);
  }

  lemma InEither(a: seq<Pick>, b: seq<Pick>, p: Pick)
    ensures p in a + b <==> p in a || p in b
  {
  }

  lemma ShardMembers(selected: seq<(string, string)>, header: Header, s: string, p: Pick)
    ensures p in PicksOf(s, Sort(NamesOf(selected, s), ByOffset(header))) <==> p.0 == s && (p.1, s) in selected
  {
    SortKeeps(NamesOf(selected, s), ByOffset(header));
    NamesOfMember(selected, s, p.1);
    PicksMember(s, Sort(NamesOf(selected, s), ByOffset(header)), p);
  }

  lemma PicksMember(shard: string, names: seq<string>, p: Pick)
    ensures p in PicksOf(shard, names) <==> p.0 == shard && p.1 in names
  {
    if p.0 == shard && p.1 in names {
      var i :| 0 <= i < |names| && names[i] == p.1;
      assert PicksOf(shard, names)[i] == p;
    }
  }

  lemma {:induction false} PlanDistinct(shards: map<string, Shard>, selected: seq<(string, string)>, order: seq<string>)
    requires Known(shards, order)
    requires Distinct(order) && DistinctNames(selected)
    ensures DistinctPicks(PlanFor(shards, selected, order))
  {
    if order != [] {
      var n := |order| - 1;
      var s := order[n];
      PlanDistinct(shards, selected, order[..n]);
      var front := PlanFor(shards, selected, order[..n]);
      var names := Sort(NamesOf(selected, s), ByOffset(shards[s].header));
      NamesOfDistinct(selected, s);
      SortDistinct(NamesOf(selected, s), ByOffset(shards[s].header));
      forall i, j | 0 <= i < |front| && 0 <= j < |names|
        ensures front[i].1 != names[j]
      {
        PlanMembers(shards, selected, order[..n], front[i]);
        SortKeeps(NamesOf(selected, s), ByOffset(shards[s].header));
        NamesOfMember(selected, s, names[j]);
        OneShard(selected, front[i].1, front[i].0, names[j], s);
      }
      JoinDistinct(front, s, names);
    }
  }

  lemma OneShard(selected: seq<(string, string)>, n: string, s: string, n': string, s': string)
    requires DistinctNames(selected) && (n, s) in selected && (n', s') in selected && s != s'
    ensures n != n'
  {
    var i :| 0 <= i < |selected| && selected[i] == (n, s);
    var j :| 0 <= j < |selected| && selected[j] == (n', s');
    assert i != j;
  }

  lemma JoinDistinct(front: seq<Pick>, s: string, names: seq<string>)
    requires DistinctPicks(front) && Distinct(names)
    requires forall i, j :: 0 <= i < |front| && 0 <= j < |names| ==> front[i].1 != names[j]
    ensures DistinctPicks(front + PicksOf(s, names))
  {
  }

  /** The plan takes every selected tensor, nothing else, and none twice. */
  lemma PlanIsSelection(shards: map<string, Shard>, selected: seq<(string, string)>)
    requires DistinctNames(selected) && ShardsKnown(shards, selected)
    ensures DistinctPicks(Plan(shards, selected))
    ensures forall n, s :: (s, n) in Plan(shards, selected) <==> (n, s) in selected
  {
    SortedShardsProperties(selected);
    PlanDistinct(shards, selected, SortedShards(selected));
    forall n, s
      ensures (s, n) in Plan(shards, selected) <==> (n, s) in selected
    {
      PlanMembers(shards, selected, SortedShards(selected), (s, n));
      if (n, s) in selected {
        var i :| 0 <= i < |selected| && selected[i] == (n, s);
        assert selected[i].1 == s;
      }
    }
  }

  /** A tensor read from `file` alone, its header decoded from the bytes that the
      first eight announce, has the bytes and the meaning it has on its shard. */
  ghost predicate ReadsBack(shards: map<string, Shard>, file: seq<byte>, decode: seq<byte> -> Header, name: string, shard: string) {
    && |file| >= 8 && 8 + HeaderBytes(file) <= |file|
    && var header := decode(file[8..8 + HeaderBytes(file)]);
    && Have(shards, (shard, name)) && name in header && HasTensor(file, header[name])
    && header[name].meta == SourceOf(shards, (shard, name)).meta
    && TensorAt(file, header[name]) == TensorAt(shards[shard].file, SourceOf(shards, (shard, name)))
  }

  /** End to end: reading a selected tensor from the written file by the format's
      own rule gives the bytes that the same rule gives on its source shard. */
  lemma EndToEnd(shards: map<string, Shard>, selected: seq<(string, string)>, encoded: seq<byte>, decode: seq<byte> -> Header,
                 name: string, shard: string)
    requires DistinctNames(selected) && ShardsKnown(shards, selected) && HaveAll(shards, Plan(shards, selected))
    requires decode(encoded) == PlaceAll(shards, Plan(shards, selected)).header
    requires |encoded| < Pow256(8) && (name, shard) in selected
    ensures ReadsBack(shards, Assemble(encoded, PlaceAll(shards, Plan(shards, selected)).payload), decode, name, shard)
  {
    var plan := Plan(shards, selected);
    PlanIsSelection(shards, selected);
    assert (shard, name) in plan;
    var k :| 0 <= k < |plan| && plan[k] == (shard, name);
    PlacedAt(shards, plan, k);
    var st := PlaceAll(shards, plan);
    AssembleReads(encoded, st.payload, st.header[name]);
  }

  /** Empty tensors can fail, and it is the order of the selection that decides: the
      sort is stable, so a tensor of no bytes that shares its start with another is
      taken into its request only if it was selected first. */
  lemma EmptyTensorExample(header: Header, full: string, empty: string)
    requires full in header && empty in header && full != empty
    requires header[empty].lo == header[empty].hi == header[full].lo < header[full].hi
    ensures !Filled(GroupsOf(header, [full, empty])) && Filled(GroupsOf(header, [empty, full]))
  {
    TwoGroups(header, full, empty);
    TwoGroups(header, empty, full);
    var gs := GroupsOf(header, [full, empty]);
    assert gs[1].lo == gs[1].hi;
  }

  lemma TwoGroups(header: Header, a: string, b: string)
    requires a in header && b in header && header[a].lo == header[b].lo
    ensures GroupsOf(header, [a, b])
         == if header[b].lo == header[a].hi then [Group(header[a].lo, header[b].hi, [a] + [b])]
            else [Group(header[a].lo, header[a].hi, [a]), Group(header[b].lo, header[b].hi, [b])]
  {
    SortedPair(header, a, b);
    assert Front([a, b]) == [a] && Front([a]) == [];
    var first := Group(header[a].lo, header[a].hi, [a]);
    assert Coalesce(header, [a]) == [first] by {
      assert Coalesce(header, []) == [];
    }
    assert Coalesce(header, [a, b]) == Join([first], b, header[b].lo, header[b].hi);
  }

  lemma SortedPair(header: Header, a: string, b: string)
    requires a in header && b in header && header[a].lo == header[b].lo
    ensures Sort([a, b], ByOffset(header)) == [a, b]
  {
    var le := ByOffset(header);
    assert [a, b][1..] == [b] && [b][1..] == [];
    assert Sort([b], le) == Insert(b, [], le) == [b];
    assert Insert(a, [b], le) == [a] + [b];
  }
}
