/** Extraction of selected tensors from several shard files into one new file. */
module TensorExtract {
  import opened Wrappers
  import opened TensorFiles
  import opened RangeGroups
  import opened Sorting
  import opened Lists

  /** A shard as it is served, with its header already decoded. */
  datatype Shard = Shard(file: seq<byte>, header: Header)

  datatype Error = BadHeaderSize | RangeNotServed | MissingTensor | MissingShard | Truncated | HeaderTooLong

  datatype Record = Record(name: string, shard: string, lo: int, hi: int, size: int)

  /** What has been written so far: the payload, the new header, the records in
      the order of writing, and the next free offset. */
  datatype Placement = Placement(payload: seq<byte>, header: Header, records: seq<Record>, cursor: int)

  // --------------------------------------------------------- what is written

  const NOTHING := Placement([], map[], [], 0)

  /** A tensor to be taken from a shard. */
  type Pick = (string, string)

  ghost predicate Have(shards: map<string, Shard>, p: Pick) {
    && p.0 in shards && p.1 in shards[p.0].header
    && HasTensor(shards[p.0].file, shards[p.0].header[p.1])
  }

  ghost predicate HaveAll(shards: map<string, Shard>, picks: seq<Pick>) {
    forall k :: 0 <= k < |picks| ==> Have(shards, picks[k])
  }

  function SourceOf(shards: map<string, Shard>, p: Pick): Entry
    requires p.0 in shards && p.1 in shards[p.0].header
  {
    shards[p.0].header[p.1]
  }

  /** One tensor more: its bytes, its new header entry, its record. */
  function Place(st: Placement, p: Pick, source: Entry, bytes: seq<byte>): Placement {
    var size := source.hi - source.lo;
    Placement(st.payload + bytes,
              st.header[p.1 := Entry(source.meta, st.cursor, st.cursor + size)],
              st.records + [Record(p.1, p.0, source.lo, source.hi, size)],
              st.cursor + size)
  }

  /** The picked tensors one behind the other. */
  ghost function PlaceAll(shards: map<string, Shard>, picks: seq<Pick>): Placement
    requires HaveAll(shards, picks)
  {
    if picks == [] then NOTHING
    else
      var p := picks[|picks| - 1];
      assert Have(shards, p);
      Place(PlaceAll(shards, picks[..|picks| - 1]), p, SourceOf(shards, p), TensorAt(shards[p.0].file, SourceOf(shards, p)))
  }

  function PicksOf(shard: string, names: seq<string>): seq<Pick> {
    seq(|names|, i requires 0 <= i < |names| => (shard, names[i]))
  }

  // ------------------------------------------------------------ copying bytes

  /** A file being read; a read may return fewer bytes than asked for. */
  class Reader {
    const data: seq<byte>
    var pos: nat

    ghost predicate Valid()
      reads this
    {
      pos <= |data|
    }

    constructor (data: seq<byte>)
      ensures Valid() && this.data == data && pos == 0
    {
      this.data, pos := data, 0;
    }

    method Read(limit: nat) returns (part: seq<byte>)
      requires Valid() && limit > 0
      modifies this
      ensures Valid() && old(pos) <= pos <= old(pos) + limit
      ensures part == data[old(pos)..pos]
      ensures pos == old(pos) <==> old(pos) == |data|
    {
      var n :| 0 <= n <= limit && pos + n <= |data| && (n == 0 <==> pos == |data|);
      part, pos := data[pos..pos + n], pos + n;
    }
  }

  const CHUNK: nat := 0x80_0000

  /** The inner copy loop: `size` bytes, in parts of any length. */
  method CopyTensor(data: Reader, size: nat, output: seq<byte>) returns (r: Result<seq<byte>, Error>)
    requires data.Valid()
    modifies data
    ensures data.Valid()
    ensures if old(data.pos) + size <= |data.data|
            then data.pos == old(data.pos) + size && r == Ok(output + data.data[old(data.pos)..old(data.pos) + size])
            else r == Err(Truncated)
  {
    var remaining := size;
    var written := output;
    while remaining > 0
      invariant data.Valid() && 0 <= remaining <= size
      invariant data.pos == old(data.pos) + (size - remaining)
      invariant written == output + data.data[old(data.pos)..data.pos]
    {
      ghost var start := data.pos;
      var part := data.Read(if CHUNK < remaining then CHUNK else remaining);
      if part == [] {
        return Err(Truncated);
      }
      written := written + part;
      assert data.data[old(data.pos)..data.pos] == data.data[old(data.pos)..start] + part;
      remaining := remaining - |part|;
    }
    return Ok(written);
  }

  /** The closing copy of the payload into the new file, until a read is empty. */
  method CopyAll(data: Reader, output: seq<byte>) returns (written: seq<byte>)
    requires data.Valid() && data.pos == 0
    modifies data
    ensures written == output + data.data
  {
    written := output;
    var part := data.Read(CHUNK);
    while part != []
      invariant data.Valid() && |part| <= data.pos && part == data.data[data.pos - |part|..data.pos]
      invariant part == [] ==> data.pos == |data.data|
      invariant written == output + data.data[..data.pos - |part|]
      decreases |data.data| - data.pos, |part|
    {
      ghost var end := data.pos;
      assert data.data[..end] == data.data[..end - |part|] + part;
      written := written + part;
      part := data.Read(CHUNK);
    }
    assert data.data[..data.pos] == data.data;
  }

  // ----------------------------------------------------- shards and selection

  /** The selected names of one shard, in selection order. */
  function NamesOf(selected: seq<(string, string)>, shard: string): seq<string> {
    if selected == [] then []
    else
      NamesOf(selected[..|selected| - 1], shard)
      + (if selected[|selected| - 1].1 == shard then [selected[|selected| - 1].0] else [])
  }

  ghost predicate DistinctNames(selected: seq<(string, string)>) {
    forall i, j :: 0 <= i < j < |selected| ==> selected[i].0 != selected[j].0
  }

  function Lookup(byShard: map<string, seq<string>>, shard: string): seq<string> {
    if shard in byShard then byShard[shard] else []
  }

  lemma NamesOfStep(selected: seq<(string, string)>, i: nat, shard: string)
    requires i < |selected|
    ensures NamesOf(selected[..i + 1], shard)
         == NamesOf(selected[..i], shard) + (if selected[i].1 == shard then [selected[i].0] else [])
  {
    assert selected[..i + 1][..i] == selected[..i];
  }

  /** Shards in the order of their first selected tensor: a dict's key order. */
  function ShardsOf(selected: seq<(string, string)>): seq<string> {
    if selected == [] then []
    else
      var front, shard := ShardsOf(selected[..|selected| - 1]), selected[|selected| - 1].1;
      if shard in front then front else front + [shard]
  }

  lemma {:induction false} ShardsOfProperties(selected: seq<(string, string)>)
    ensures Distinct(ShardsOf(selected))
    ensures forall s :: s in ShardsOf(selected) <==> exists i :: 0 <= i < |selected| && selected[i].1 == s
  {
    if selected != [] {
      var n := |selected| - 1;
      ShardsOfProperties(selected[..n]);
      forall s
        ensures s in ShardsOf(selected) <==> exists i :: 0 <= i < |selected| && selected[i].1 == s
      {
        assert s in ShardsOf(selected) <==> s in ShardsOf(selected[..n]) || s == selected[n].1;
        if i :| 0 <= i < |selected| && selected[i].1 == s {
          assert i < n ==> selected[..n][i].1 == s;
        }
      }
    }
  }

  method GroupByShard(selected: seq<(string, string)>) returns (byShard: map<string, seq<string>>, order: seq<string>)
    ensures order == ShardsOf(selected)
    ensures forall s :: Lookup(byShard, s) == NamesOf(selected, s)
  {
    byShard, order := map[], [];
    for i := 0 to |selected|
      invariant forall s :: s in byShard <==> s in order
      invariant order == ShardsOf(selected[..i])
      invariant forall s :: Lookup(byShard, s) == NamesOf(selected[..i], s)
    {
      var name, shard := selected[i].0, selected[i].1;
      ghost var before := byShard;
      assert selected[..i + 1][..i] == selected[..i];
      if shard !in byShard {
        order := order + [shard];
      }
      byShard := byShard[shard := Lookup(byShard, shard) + [name]];
      forall s
        ensures Lookup(byShard, s) == NamesOf(selected[..i + 1], s)
      {
        NamesOfStep(selected, i, s);
        assert Lookup(before, s) == NamesOf(selected[..i], s);
      }
    }
    assert selected[..|selected|] == selected;
  }

  lemma {:induction false} NamesOfMember(selected: seq<(string, string)>, shard: string, name: string)
    ensures name in NamesOf(selected, shard) <==> (name, shard) in selected
  {
    if selected != [] {
      var n := |selected| - 1;
      NamesOfMember(selected[..n], shard, name);
      assert selected == selected[..n] + [selected[n]];
    }
  }

  lemma {:induction false} NamesOfDistinct(selected: seq<(string, string)>, shard: string)
    requires DistinctNames(selected)
    ensures Distinct(NamesOf(selected, shard))
  {
    if selected != [] {
      var n := |selected| - 1;
      NamesOfDistinct(selected[..n], shard);
      forall m | m in NamesOf(selected[..n], shard)
        ensures m != selected[n].0
      {
        NamesOfMember(selected[..n], shard, m);
      }
      AppendDistinct(NamesOf(selected[..n], shard), selected[n].0);
    }
  }

  lemma AppendDistinct(s: seq<string>, x: string)
    requires Distinct(s)
    ensures x !in s ==> Distinct(s + [x])
    ensures s + [] == s
  {
  }

  /** The order of strings that sorts the shards. */
  predicate TextLe(a: string, b: string) {
    a == "" || (b != "" && (a[0] < b[0] || (a[0] == b[0] && TextLe(a[1..], b[1..]))))
  }

  // ---------------------------------------------------------------- one shard

  predicate ValidHeaderSize(h: int) {
    0 < h < 0x1000_0000
  }

  /** The shard has a readable header and the bytes of every one of the names. */
  ghost predicate Available(shard: Shard, names: seq<string>) {
    && ReadableHeader(shard.file)
    && forall k :: 0 <= k < |names| ==> names[k] in shard.header && HasTensor(shard.file, shard.header[names[k]])
  }

  /** The requests made for some names: sorted by offset, then coalesced. */
  function GroupsOf(header: Header, names: seq<string>): seq<Group>
    requires forall n :: n in names ==> n in header
  {
    SortedByOffset(header, names);
    Coalesce(header, Sort(names, ByOffset(header)))
  }

  /** The shard has the bytes of every one of the names, and no request would be
      for an empty range: a name with an empty range must sort next to another
      whose range it touches. */
  ghost predicate Serves(shard: Shard, names: seq<string>) {
    Available(shard, names) && Filled(GroupsOf(shard.header, names))
  }

  predicate Increasing(header: Header, names: seq<string>) {
    && (forall k :: 0 <= k < |names| ==> names[k] in header)
    && forall j, k :: 0 <= j < k < |names| ==> header[names[j]].lo <= header[names[k]].lo
  }

  predicate PartOf(part: seq<byte>, file: seq<byte>, base: int) {
    0 <= base && base + |part| <= |file| && part == file[base..base + |part|]
  }

  /** The copy of one tensor of a group, and what is noted about it. `base` is
      the position in the file of the first byte of the group's range. */
  method ExtractTensor(st: Placement, name: string, shard: Shard, tensor: string, data: Reader, ghost start: int, ghost base: int)
    returns (r: Result<Placement, Error>)
    requires |shard.file| >= 8 && tensor in shard.header && shard.header[tensor].lo <= shard.header[tensor].hi
    requires base == 8 + HeaderBytes(shard.file) + start && PartOf(data.data, shard.file, base)
    requires data.Valid()
    requires data.pos == shard.header[tensor].lo - start
    modifies data
    ensures data.Valid()
    ensures r.Ok? <==> shard.header[tensor].hi - start <= |data.data|
    ensures r != Err(HeaderTooLong)
    ensures r.Ok? ==> data.pos == shard.header[tensor].hi - start
    ensures r.Ok? ==> HasTensor(shard.file, shard.header[tensor])
    ensures r.Ok? ==> r.value == Place(st, (name, tensor), shard.header[tensor], TensorAt(shard.file, shard.header[tensor]))
  {
    var entry := shard.header[tensor];
    var size := entry.hi - entry.lo;
    ghost var first := data.pos;
    var newHeader := st.header[tensor := Entry(entry.meta, st.cursor, st.cursor + size)];
    var copied := CopyTensor(data, size, st.payload);
    if copied.Err? {
      return Err(Truncated);
    }
    SliceOfSlice(shard.file, base, base + |data.data|, first, first + size);
    var cursor := st.cursor + size;
    var records := st.records + [Record(tensor, name, entry.lo, entry.hi, size)];
    r := Ok(Placement(copied.value, newHeader, records, cursor));
  }

  /** What one group asks for; the range is served and every copy is complete. */
  lemma GroupServed(shard: Shard, g: Group)
    requires Chain(shard.header, g) && Available(shard, g.names) && g.lo < g.hi
    ensures var h := HeaderBytes(shard.file);
      0 <= 8 + h + g.lo <= 7 + h + g.hi < |shard.file|
    ensures forall k :: 0 <= k < |g.names| ==> shard.header[g.names[k]].hi <= g.hi
  {
    assert forall k :: 0 <= k < |g.names| ==> HasTensor(shard.file, shard.header[g.names[k]]);
    forall k | 0 <= k < |g.names|
      ensures shard.header[g.names[k]].hi <= g.hi
    {
      MemberBounds(shard.header, g, k);
    }
    assert g.names[0] in shard.header && g.names[|g.names| - 1] in shard.header;
  }

  /** Where the next member of a group starts; sorted starts keep its size from
      being negative as long as the reader has not run past the group. */
  lemma ChainStep(header: Header, g: Group, i: nat)
    requires Chain(header, g) && Increasing(header, g.names) && i < |g.names|
    requires header[g.names[i]].lo <= g.hi
    ensures header[g.names[i]].hi == if i + 1 < |g.names| then header[g.names[i + 1]].lo else g.hi
    ensures header[g.names[i]].lo <= header[g.names[i]].hi
  {
    assert i + 1 < |g.names| ==> header[g.names[i]].lo <= header[g.names[i + 1]].lo;
  }

  lemma PlaceNext(shards: map<string, Shard>, picks: seq<Pick>, p: Pick)
    requires HaveAll(shards, picks) && Have(shards, p)
    ensures HaveAll(shards, picks + [p])
    ensures PlaceAll(shards, picks + [p])
         == Place(PlaceAll(shards, picks), p, SourceOf(shards, p), TensorAt(shards[p.0].file, SourceOf(shards, p)))
  {
    assert (picks + [p])[..|picks|] == picks;
  }

  lemma NextPick(done: seq<Pick>, shard: string, names: seq<string>, i: nat)
    requires i < |names|
    ensures done + PicksOf(shard, names[..i + 1]) == done + PicksOf(shard, names[..i]) + [(shard, names[i])]
  {
  }

  /** One request, then one copy per tensor of the group. */
  method ExtractGroup(st: Placement, ghost shards: map<string, Shard>, ghost done: seq<Pick>, name: string, shard: Shard, g: Group)
    returns (r: Result<Placement, Error>)
    requires name in shards && shards[name] == shard && |shard.file| >= 8
    requires HaveAll(shards, done) && st == PlaceAll(shards, done)
    requires Chain(shard.header, g) && Increasing(shard.header, g.names)
    ensures r.Ok? ==> HaveAll(shards, done + PicksOf(name, g.names))
                      && r.value == PlaceAll(shards, done + PicksOf(name, g.names))
    ensures r.Ok? ==> g.lo < g.hi
    ensures Available(shard, g.names) && g.lo < g.hi ==> r.Ok?
    ensures r != Err(HeaderTooLong)
  {
    var h := HeaderBytes(shard.file);
    if Available(shard, g.names) && g.lo < g.hi {
      GroupServed(shard, g);
    }
    var fetched := Fetch(shard.file, 8 + h + g.lo, 7 + h + g.hi);
    if fetched.NotServed? {
      return Err(RangeNotServed);
    }
    var data := new Reader(fetched.bytes);
    r := CopyGroup(st, shards, done, name, shard, g, data);
  }

  /** How far into its response the copying of a group is before member `i`. */
  function PosAt(header: Header, g: Group, i: nat): int
    requires i <= |g.names| && (i < |g.names| ==> g.names[i] in header)
  {
    (if i < |g.names| then header[g.names[i]].lo else g.hi) - g.lo
  }

  /** The copy of one member of a group. */
  method CopyMember(st: Placement, ghost shards: map<string, Shard>, ghost picks: seq<Pick>, name: string, shard: Shard,
                    tensor: string, start: int, data: Reader) returns (r: Result<Placement, Error>)
    requires name in shards && shards[name] == shard && |shard.file| >= 8
    requires HaveAll(shards, picks) && st == PlaceAll(shards, picks)
    requires tensor in shard.header && shard.header[tensor].lo <= shard.header[tensor].hi
    requires PartOf(data.data, shard.file, 8 + HeaderBytes(shard.file) + start)
    requires data.Valid() && data.pos == shard.header[tensor].lo - start
    modifies data
    ensures data.Valid()
    ensures r.Ok? <==> shard.header[tensor].hi - start <= |data.data|
    ensures r != Err(HeaderTooLong)
    ensures r.Ok? ==> data.pos == shard.header[tensor].hi - start
    ensures r.Ok? ==> HaveAll(shards, picks + [(name, tensor)]) && r.value == PlaceAll(shards, picks + [(name, tensor)])
  {
    r := ExtractTensor(st, name, shard, tensor, data, start, 8 + HeaderBytes(shard.file) + start);
    if r.Ok? {
      PlaceNext(shards, picks, (name, tensor));
    }
  }

  method CopyGroup(st: Placement, ghost shards: map<string, Shard>, ghost done: seq<Pick>, name: string, shard: Shard,
                   g: Group, data: Reader) returns (r: Result<Placement, Error>)
    requires name in shards && shards[name] == shard && |shard.file| >= 8
    requires HaveAll(shards, done) && st == PlaceAll(shards, done)
    requires Chain(shard.header, g) && Increasing(shard.header, g.names)
    requires |data.data| == g.hi - g.lo && PartOf(data.data, shard.file, 8 + HeaderBytes(shard.file) + g.lo)
    requires data.Valid() && data.pos == 0
    modifies data
    ensures r.Ok? ==> HaveAll(shards, done + PicksOf(name, g.names))
                      && r.value == PlaceAll(shards, done + PicksOf(name, g.names))
    ensures (forall k :: 0 <= k < |g.names| ==> shard.header[g.names[k]].hi <= g.hi) ==> r.Ok?
    ensures r != Err(HeaderTooLong)
  {
    var now := st;
    ghost var picks := done;
    PicksConcat(done, name, [], []);
    for i := 0 to |g.names|
      invariant data.Valid() && data.pos == PosAt(shard.header, g, i)
      invariant picks == done + PicksOf(name, g.names[..i])
      invariant HaveAll(shards, picks) && now == PlaceAll(shards, picks)
    {
      ChainStep(shard.header, g, i);
      var next := CopyMember(now, shards, picks, name, shard, g.names[i], g.lo, data);
      if next.Err? {
        return next;
      }
      NextPick(done, name, g.names, i);
      picks := picks + [(name, g.names[i])];
      now := next.value;
    }
    TakeAll(g.names);
    return Ok(now);
  }

  function LoOf(header: Header, name: string): int {
    if name in header then header[name].lo else 0
  }

  function ByOffset(header: Header): (string, string) -> bool {
    (a, b) => LoOf(header, a) <= LoOf(header, b)
  }

  /** The members of group `k` are a stretch of the sorted names. */
  lemma {:induction false} FlattenSlice(groups: seq<Group>, k: nat)
    requires k < |groups|
    ensures var done := MembersOf(groups[..k]);
      MembersOf(groups[..k + 1]) == done + groups[k].names
      && MembersOf(groups[..k + 1]) <= MembersOf(groups)
  {
    assert groups[..k + 1][..k] == groups[..k];
    FlattenPrefix(groups, k + 1);
  }

  lemma {:induction false} FlattenPrefix(groups: seq<Group>, k: nat)
    requires k <= |groups|
    ensures MembersOf(groups[..k]) <= MembersOf(groups)
  {
    if k == |groups| {
      assert groups[..k] == groups;
    } else {
      FlattenPrefix(groups[..|groups| - 1], k);
      assert groups[..|groups| - 1][..k] == groups[..k];
    }
  }

  lemma SliceKeeps(ordered: seq<string>, done: seq<string>, names: seq<string>, header: Header)
    requires done + names <= ordered && Distinct(ordered) && Increasing(header, ordered)
    ensures Distinct(names) && Increasing(header, names)
    ensures forall n :: n in names ==> n !in done && n in ordered
    ensures forall k :: 0 <= k < |names| ==> names[k] == ordered[|done| + k]
  {
    assert forall k :: 0 <= k < |names| ==> names[k] == (done + names)[|done| + k] == ordered[|done| + k];
    assert forall k :: 0 <= k < |done| ==> done[k] == (done + names)[k] == ordered[k];
  }

  lemma SortedByOffset(header: Header, names: seq<string>)
    requires forall n :: n in names ==> n in header
    ensures var ordered := Sort(names, ByOffset(header));
      Increasing(header, ordered) && (Distinct(names) ==> Distinct(ordered))
      && (forall n :: n in ordered <==> n in names) && |ordered| == |names|
  {
    SortKeeps(names, ByOffset(header));
    SortSorts(names, ByOffset(header));
    if Distinct(names) {
      SortDistinct(names, ByOffset(header));
    }
  }

  lemma AvailableSame(shard: Shard, names: seq<string>, ordered: seq<string>)
    requires Available(shard, names) && forall n :: n in ordered ==> n in names
    ensures Available(shard, ordered)
  {
    forall k | 0 <= k < |ordered|
      ensures ordered[k] in shard.header && HasTensor(shard.file, shard.header[ordered[k]])
    {
      assert ordered[k] in names;
      var j :| 0 <= j < |names| && names[j] == ordered[k];
    }
  }

  lemma GroupReady(shard: Shard, ordered: seq<string>, groups: seq<Group>, k: nat)
    requires Distinct(ordered) && Increasing(shard.header, ordered)
    requires MembersOf(groups) == ordered && k < |groups|
    ensures Increasing(shard.header, groups[k].names)
    ensures Available(shard, ordered) ==> Available(shard, groups[k].names)
  {
    FlattenSlice(groups, k);
    SliceKeeps(ordered, MembersOf(groups[..k]), groups[k].names, shard.header);
    if Available(shard, ordered) {
      AvailableSame(shard, ordered, groups[k].names);
    }
  }

  lemma PicksConcat(done: seq<Pick>, shard: string, xs: seq<string>, ys: seq<string>)
    ensures done + PicksOf(shard, xs + ys) == done + PicksOf(shard, xs) + PicksOf(shard, ys)
    ensures done + PicksOf(shard, []) == done
  {
  }

  method ExtractGroups(st: Placement, ghost shards: map<string, Shard>, ghost done: seq<Pick>, name: string, shard: Shard,
                       ghost ordered: seq<string>, groups: seq<Group>) returns (r: Result<Placement, Error>)
    requires name in shards && shards[name] == shard && |shard.file| >= 8
    requires HaveAll(shards, done) && st == PlaceAll(shards, done)
    requires Distinct(ordered) && Increasing(shard.header, ordered)
    requires MembersOf(groups) == ordered && forall k :: 0 <= k < |groups| ==> Chain(shard.header, groups[k])
    ensures r.Ok? ==> HaveAll(shards, done + PicksOf(name, ordered))
                      && r.value == PlaceAll(shards, done + PicksOf(name, ordered))
    ensures r.Ok? ==> Filled(groups)
    ensures Available(shard, ordered) && Filled(groups) ==> r.Ok?
    ensures r != Err(HeaderTooLong)
  {
    var now := st;
    ghost var picks := done;
    PicksConcat(done, name, [], []);
    for k := 0 to |groups|
      invariant Filled(groups[..k])
      invariant picks == done + PicksOf(name, MembersOf(groups[..k]))
      invariant HaveAll(shards, picks) && now == PlaceAll(shards, picks)
    {
      GroupReady(shard, ordered, groups, k);
      NextGroup(done, name, groups, k);
      FilledStep(groups, k);
      var next := ExtractGroup(now, shards, picks, name, shard, groups[k]);
      if next.Err? {
        return next;
      }
      picks := picks + PicksOf(name, groups[k].names);
      now := next.value;
    }
    TakeAll(groups);
    return Ok(now);
  }

  lemma NextGroup(done: seq<Pick>, name: string, groups: seq<Group>, k: nat)
    requires k < |groups|
    ensures done + PicksOf(name, MembersOf(groups[..k])) + PicksOf(name, groups[k].names)
         == done + PicksOf(name, MembersOf(groups[..k + 1]))
  {
    FlattenSlice(groups, k);
    PicksConcat(done, name, MembersOf(groups[..k]), groups[k].names);
  }

  lemma FilledStep(groups: seq<Group>, k: nat)
    requires k < |groups|
    ensures Filled(groups[..k + 1]) <==> Filled(groups[..k]) && groups[k].lo < groups[k].hi
    ensures Filled(groups) ==> groups[k].lo < groups[k].hi
  {
    assert groups[..k + 1][k] == groups[k];
    assert forall j :: 0 <= j < k ==> groups[..k + 1][j] == groups[..k][j];
  }

  /** Everything taken from one shard: its header is fetched, its names sorted
      by offset and coalesced, and each group fetched once. */
  method ExtractShard(st: Placement, ghost shards: map<string, Shard>, ghost done: seq<Pick>, name: string, shard: Shard,
                      names: seq<string>) returns (r: Result<Placement, Error>)
    requires name in shards && shards[name] == shard && Distinct(names)
    requires HaveAll(shards, done) && st == PlaceAll(shards, done)
    ensures r.Ok? ==>
      var picks := done + PicksOf(name, Sort(names, ByOffset(shard.header)));
      HaveAll(shards, picks) && r.value == PlaceAll(shards, picks)
    ensures r.Ok? <==> Serves(shard, names)
    ensures r != Err(HeaderTooLong)
  {
    var header := FetchHeader(shard.file);
    if header.Err? {
      return Err(header.error);
    }
    if exists n :: n in names && n !in shard.header {
      return Err(MissingTensor);
    }
    var ordered := Sort(names, ByOffset(shard.header));
    SortedByOffset(shard.header, names);
    if Available(shard, names) {
      AvailableSame(shard, names, ordered);
    }
    var groups := CoalesceRanges(shard.header, ordered);
    assert groups == GroupsOf(shard.header, names);
    CoalesceCorrect(shard.header, ordered);
    r := ExtractGroups(st, shards, done, name, shard, ordered, groups);
    if r.Ok? {
      HadAll(shards, done, name, ordered, names);
      NowAvailable(shards, name, names);
    }
  }

  lemma NowAvailable(shards: map<string, Shard>, name: string, names: seq<string>)
    requires name in shards && ReadableHeader(shards[name].file)
    requires forall k :: 0 <= k < |names| ==> Have(shards, (name, names[k]))
    ensures Available(shards[name], names)
  {
    forall k | 0 <= k < |names|
      ensures names[k] in shards[name].header && HasTensor(shards[name].file, shards[name].header[names[k]])
    {
      assert Have(shards, (name, names[k]));
    }
  }

  predicate ReadableHeader(file: seq<byte>) {
    |file| >= 8 && ValidHeaderSize(HeaderBytes(file)) && 8 + HeaderBytes(file) <= |file|
  }

  /** Two requests: the length of the header, and the header itself. */
  method FetchHeader(file: seq<byte>) returns (r: Result<seq<byte>, Error>)
    ensures r.Ok? <==> ReadableHeader(file)
    ensures r.Ok? ==> r.value == file[8..8 + HeaderBytes(file)]
    ensures r != Err(HeaderTooLong)
  {
    var first := Fetch(file, 0, 7);
    if first.NotServed? {
      return Err(RangeNotServed);
    }
    var h := ReadLE(first.bytes, 0, 8);
    SameLE(first.bytes, file, 0, 8);
    if !ValidHeaderSize(h) {
      return Err(BadHeaderSize);
    }
    var encoded := Fetch(file, 8, 7 + h);
    if encoded.NotServed? {
      return Err(RangeNotServed);
    }
    return Ok(encoded.bytes);
  }

  /** What was taken was there. */
  lemma HadAll(shards: map<string, Shard>, done: seq<Pick>, name: string, ordered: seq<string>, names: seq<string>)
    requires HaveAll(shards, done + PicksOf(name, ordered)) && forall n :: n in names ==> n in ordered
    ensures forall k :: 0 <= k < |names| ==> Have(shards, (name, names[k]))
  {
    forall k | 0 <= k < |names|
      ensures Have(shards, (name, names[k]))
    {
      assert names[k] in names;
      var i :| 0 <= i < |ordered| && ordered[i] == names[k];
      assert (done + PicksOf(name, ordered))[|done| + i] == (name, names[k]);
    }
  }

  /** A header is read exactly if its announced length is from 1 to 2^28 - 1 bytes and
      that many follow. */
  lemma {:induction false} ReadableExactly(encoded: seq<byte>, rest: seq<byte>)
    requires |encoded| < Pow256(8)
    ensures ReadableHeader(ToLE(|encoded|, 8) + encoded + rest) <==> 1 <= |encoded| <= 268435455
  {
    AnnouncedSize(|encoded|, ToLE(|encoded|, 8) + encoded + rest, encoded + rest);
  }

  lemma {:induction false} AnnouncedSize(n: nat, file: seq<byte>, rest: seq<byte>)
    requires n < Pow256(8) && file == ToLE(n, 8) + rest
    ensures |file| == 8 + |rest| && HeaderBytes(file) == n
  {
    assert file[0..0 + 8] == ToLE(n, 8);
    RoundTripLE(n, 8, file, 0);
  }

  // ------------------------------------------------------ ranges as they should be

  /** Where no wanted range is empty, serving is just having. */
  lemma NonEmptyFilled(header: Header, names: seq<string>)
    requires forall n :: n in names ==> n in header && header[n].lo < header[n].hi
    ensures Filled(GroupsOf(header, names))
  {
    SortedByOffset(header, names);
    CoalesceFilled(header, Sort(names, ByOffset(header)));
  }

  /** Ranges that are not empty and do not overlap. */
  ghost predicate Separated(header: Header, names: seq<string>) {
    && (forall n :: n in names ==> n in header && header[n].lo < header[n].hi)
    && (forall m, n :: m in names && n in names && m != n ==> header[m].hi <= header[n].lo || header[n].hi <= header[m].lo)
  }

  lemma SortedDisjoint(header: Header, names: seq<string>)
    requires Distinct(names) && Separated(header, names)
    ensures Disjoint(header, Sort(names, ByOffset(header)))
  {
    SortedByOffset(header, names);
    var ordered := Sort(names, ByOffset(header));
    forall k | 0 <= k < |ordered|
      ensures ordered[k] in names
    {
      assert ordered[k] in ordered;
    }
    forall j, k | 0 <= j < k < |ordered|
      ensures header[ordered[j]].hi <= header[ordered[k]].lo
    {
      assert ordered[j] != ordered[k];
    }
  }

  /** The requests made for a shard are as few as any that ask for exactly the bytes
      of the wanted tensors. */
  lemma FewestForShard(header: Header, names: seq<string>, requests: seq<(int, int)>)
    requires Distinct(names) && Separated(header, names) && ExactCover(header, names, requests)
    ensures |GroupsOf(header, names)| <= |requests|
  {
    SortedByOffset(header, names);
    SortedDisjoint(header, names);
    var ordered := Sort(names, ByOffset(header));
    forall p
      ensures Wanted(header, ordered, p) <==> Wanted(header, names, p)
    {
      if Wanted(header, ordered, p) {
        WantedSame(header, ordered, names, p);
      }
      if Wanted(header, names, p) {
        WantedSame(header, names, ordered, p);
      }
    }
    FewestRequests(header, ordered, requests);
  }

  lemma WantedSame(header: Header, a: seq<string>, b: seq<string>, p: int)
    requires (forall n :: n in a ==> n in b) && forall n :: n in b ==> n in header
    requires Wanted(header, a, p)
    ensures Wanted(header, b, p)
  {
    var k :| 0 <= k < |a| && header[a[k]].lo <= p < header[a[k]].hi;
    assert a[k] in b;
    var j :| 0 <= j < |b| && b[j] == a[k];
  }
}
