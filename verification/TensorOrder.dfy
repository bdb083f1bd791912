/** In which order the selected tensors are written. */
module TensorOrder {
  import opened Lists
  import opened Sorting
  import opened TensorFiles
  import opened TensorExtract
  import opened TensorProgram

  // ------------------------------------------------------------------- stability

  ghost predicate Precedes<T>(s: seq<T>, a: T, b: T) {
    exists i, j :: 0 <= i < j < |s| && s[i] == a && s[j] == b
  }

  lemma PrecedesBehind<T>(x: T, s: seq<T>, a: T, b: T)
    ensures Precedes([x] + s, a, b) <==> (a == x && b in s) || Precedes(s, a, b)
  {
    var all := [x] + s;
    if i, j :| 0 <= i < j < |all| && all[i] == a && all[j] == b {
      assert all[j] == s[j - 1];
      if i > 0 {
        assert all[i] == s[i - 1];
      }
    }
    if b in s {
      var j :| 0 <= j < |s| && s[j] == b;
      assert all[0] == x && all[j + 1] == b;
    }
    if i, j :| 0 <= i < j < |s| && s[i] == a && s[j] == b {
      assert all[i + 1] == a && all[j + 1] == b;
    }
  }

  lemma {:induction false} InsertMembers<T>(x: T, s: seq<T>, le: (T, T) -> bool, y: T)
    ensures y in Insert(x, s, le) <==> y == x || y in s
  {
    if s != [] && !le(x, s[0]) {
      InsertMembers(x, s[1..], le, y);
      assert s == [s[0]] + s[1..];
    }
  }

  /** Inserting leaves the order of what was there, and goes before what is not less. */
  lemma {:induction false} InsertPrecedes<T>(x: T, s: seq<T>, le: (T, T) -> bool, a: T, b: T)
    requires Precedes(s, a, b) || (a == x && b in s && le(x, b))
    ensures Precedes(Insert(x, s, le), a, b)
  {
    if s == [] || le(x, s[0]) {
      PrecedesBehind(x, s, a, b);
    } else {
      var rest := s[1..];
      assert s == [s[0]] + rest;
      PrecedesBehind(s[0], rest, a, b);
      PrecedesBehind(s[0], Insert(x, rest, le), a, b);
      InsertMembers(x, rest, le, b);
      if Precedes(rest, a, b) || (a == x && b in rest && le(x, b)) {
        InsertPrecedes(x, rest, le, a, b);
      }
    }
  }

  /** The sort is stable: what comes first and is not greater stays first. */
  lemma {:induction false} SortStable<T>(s: seq<T>, le: (T, T) -> bool, a: T, b: T)
    requires Precedes(s, a, b) && le(a, b)
    ensures Precedes(Sort(s, le), a, b)
  {
    var rest := s[1..];
    assert s == [s[0]] + rest;
    PrecedesBehind(s[0], rest, a, b);
    SortKeeps(rest, le);
    if Precedes(rest, a, b) {
      SortStable(rest, le, a, b);
    }
    InsertPrecedes(s[0], Sort(rest, le), le, a, b);
  }

  // --------------------------------------------------------------- order of texts

  /** One text is the beginning of the other, or has the smaller character where they
      first differ. */
  ghost predicate Alphabetic(a: string, b: string) {
    a <= b || exists k :: FirstDiffers(a, b, k)
  }

  lemma {:induction false} TextLeMeans(a: string, b: string)
    ensures TextLe(a, b) <==> Alphabetic(a, b)
  {
    if a != "" && b != "" {
      TextLeMeans(a[1..], b[1..]);
      AlphabeticStep(a[0], a[1..], b[0], b[1..]);
      assert a == [a[0]] + a[1..] && b == [b[0]] + b[1..];
    }
  }

  ghost predicate FirstDiffers(a: string, b: string, k: int) {
    0 <= k < |a| && k < |b| && a[..k] == b[..k] && a[k] < b[k]
  }

  lemma FirstStep(c: char, a: string, b: string, k: nat)
    ensures FirstDiffers([c] + a, [c] + b, k + 1) <==> FirstDiffers(a, b, k)
  {
    var s, t := [c] + a, [c] + b;
    if k < |a| && k < |b| {
      assert s[..k + 1] == [c] + a[..k] && t[..k + 1] == [c] + b[..k];
      assert s[..k + 1][1..] == a[..k] && t[..k + 1][1..] == b[..k];
    }
  }

  lemma AlphabeticStep(c: char, a: string, d: char, b: string)
    ensures Alphabetic([c] + a, [d] + b) <==> c < d || (c == d && Alphabetic(a, b))
  {
    var s, t := [c] + a, [d] + b;
    if c == d {
      forall k: nat
        ensures FirstDiffers(s, t, k + 1) <==> FirstDiffers(a, b, k)
      {
        FirstStep(c, a, b, k);
      }
      SameHead(c, a, b);
      if k :| FirstDiffers(s, t, k) {
        assert k > 0 && FirstDiffers(a, b, k - 1);
      }
      if k :| FirstDiffers(a, b, k) {
        assert FirstDiffers(s, t, k + 1);
      }
    } else {
      OtherHead(c, a, d, b);
      assert FirstDiffers(s, t, 0) <==> c < d;
    }
  }

  lemma SameHead(c: char, a: string, b: string)
    ensures [c] + a <= [c] + b <==> a <= b
  {
    if [c] + a <= [c] + b {
      assert a == ([c] + a)[1..] && b == ([c] + b)[1..];
    }
  }

  lemma OtherHead(c: char, a: string, d: char, b: string)
    requires c != d
    ensures !([c] + a <= [d] + b)
    ensures forall k :: FirstDiffers([c] + a, [d] + b, k) <==> k == 0 && c < d
  {
    var s, t := [c] + a, [d] + b;
    assert s[0] == c && t[0] == d;
    forall k
      ensures FirstDiffers(s, t, k) <==> k == 0 && c < d
    {
      if k > 0 && k < |s| && k < |t| {
        assert s[..k][0] == c && t[..k][0] == d;
      } else if k == 0 {
        assert s[..k] == t[..k] == "" && s[k] == c && t[k] == d;
      }
    }
  }

  lemma {:induction false} TextTotal(a: string, b: string)
    ensures TextLe(a, b) || TextLe(b, a)
  {
    if a != "" && b != "" {
      TextTotal(a[1..], b[1..]);
    }
  }

  lemma {:induction false} TextTransitive(a: string, b: string, c: string)
    requires TextLe(a, b) && TextLe(b, c)
    ensures TextLe(a, c)
  {
    if a != "" && a[0] == b[0] && b[0] == c[0] {
      TextTransitive(a[1..], b[1..], c[1..]);
    }
  }

  lemma TextOrders()
    ensures Orders(TextLe)
  {
    forall x, y
      ensures TextLe(x, y) || TextLe(y, x)
    {
      TextTotal(x, y);
    }
    forall x, y, z | TextLe(x, y) && TextLe(y, z)
      ensures TextLe(x, z)
    {
      TextTransitive(x, y, z);
    }
  }

  // -------------------------------------------------------------- order of the plan

  ghost predicate InOrder(shards: map<string, Shard>, p: Pick, q: Pick) {
    && Alphabetic(p.0, q.0)
    && (p.0 == q.0 && p.0 in shards ==> LoOf(shards[p.0].header, p.1) <= LoOf(shards[q.0].header, q.1))
  }

  lemma {:induction false} PlanForOrdered(shards: map<string, Shard>, selected: seq<(string, string)>, order: seq<string>, j: nat, k: nat)
    requires Known(shards, order) && Distinct(order) && SortedBy(order, TextLe) && j < k < |PlanFor(shards, selected, order)|
    ensures InOrder(shards, PlanFor(shards, selected, order)[j], PlanFor(shards, selected, order)[k])
  {
    var n := |order| - 1;
    var front, s := PlanFor(shards, selected, order[..n]), order[n];
    var names := Sort(NamesOf(selected, s), ByOffset(shards[s].header));
    var plan := PlanFor(shards, selected, order);
    if k < |front| {
      PlanForOrdered(shards, selected, order[..n], j, k);
    } else {
      assert plan[k] == (s, names[k - |front|]);
      if j < |front| {
        assert plan[j] == front[j];
        PlanMembers(shards, selected, order[..n], front[j]);
        var i :| 0 <= i < n && order[..n][i] == front[j].0;
        assert order[i] == front[j].0;
        TextLeMeans(front[j].0, s);
      } else {
        assert plan[j] == (s, names[j - |front|]);
        NamesSorted(selected, s, shards[s].header);
        TextLeMeans(s, s);
      }
    }
  }

  lemma NamesSorted(selected: seq<(string, string)>, s: string, header: Header)
    ensures SortedBy(Sort(NamesOf(selected, s), ByOffset(header)), ByOffset(header))
  {
    SortSorts(NamesOf(selected, s), ByOffset(header));
  }

  /** The plan goes through the shards in alphabetic order, and through the tensors of
      each by their start. */
  lemma PlanOrdered(shards: map<string, Shard>, selected: seq<(string, string)>, j: nat, k: nat)
    requires ShardsKnown(shards, selected) && j < k < |Plan(shards, selected)|
    ensures InOrder(shards, Plan(shards, selected)[j], Plan(shards, selected)[k])
  {
    SortedShardsProperties(selected);
    TextOrders();
    SortSorts(ShardsOf(selected), TextLe);
    PlanForOrdered(shards, selected, SortedShards(selected), j, k);
  }

  lemma {:induction false} NamesPrecede(selected: seq<(string, string)>, s: string, m: string, n: string)
    requires Precedes(selected, (m, s), (n, s))
    ensures Precedes(NamesOf(selected, s), m, n)
  {
    var front, last := selected[..|selected| - 1], selected[|selected| - 1];
    var i, j :| 0 <= i < j < |selected| && selected[i] == (m, s) && selected[j] == (n, s);
    if j < |front| {
      assert front[i] == (m, s) && front[j] == (n, s);
      NamesPrecede(front, s, m, n);
      PrecedesInFront(NamesOf(front, s), if last.1 == s then [last.0] else [], m, n);
    } else {
      assert front[i] == (m, s);
      NamesOfMember(front, s, m);
      var k :| 0 <= k < |NamesOf(front, s)| && NamesOf(front, s)[k] == m;
      var all := NamesOf(selected, s);
      assert all[k] == m && all[|all| - 1] == n;
    }
  }

  lemma PrecedesInFront<T>(s: seq<T>, t: seq<T>, a: T, b: T)
    requires Precedes(s, a, b)
    ensures Precedes(s + t, a, b)
  {
    var i, j :| 0 <= i < j < |s| && s[i] == a && s[j] == b;
    assert (s + t)[i] == a && (s + t)[j] == b;
  }

  lemma PrecedesInBack<T>(s: seq<T>, t: seq<T>, a: T, b: T)
    requires Precedes(t, a, b)
    ensures Precedes(s + t, a, b)
  {
    var i, j :| 0 <= i < j < |t| && t[i] == a && t[j] == b;
    assert (s + t)[|s| + i] == a && (s + t)[|s| + j] == b;
  }

  lemma PicksPrecede(s: string, names: seq<string>, m: string, n: string)
    requires Precedes(names, m, n)
    ensures Precedes(PicksOf(s, names), (s, m), (s, n))
  {
    var i, j :| 0 <= i < j < |names| && names[i] == m && names[j] == n;
    assert PicksOf(s, names)[i] == (s, m) && PicksOf(s, names)[j] == (s, n);
  }

  lemma {:induction false} PlanForStable(shards: map<string, Shard>, selected: seq<(string, string)>, order: seq<string>, s: string, m: string, n: string)
    requires Known(shards, order) && s in order && Precedes(selected, (m, s), (n, s))
    requires s in shards && LoOf(shards[s].header, m) <= LoOf(shards[s].header, n)
    ensures Precedes(PlanFor(shards, selected, order), (s, m), (s, n))
  {
    var l := |order| - 1;
    var front, names := PlanFor(shards, selected, order[..l]), Sort(NamesOf(selected, order[l]), ByOffset(shards[order[l]].header));
    if s == order[l] {
      NamesPrecede(selected, s, m, n);
      SortStable(NamesOf(selected, s), ByOffset(shards[s].header), m, n);
      PicksPrecede(s, names, m, n);
      PrecedesInBack(front, PicksOf(s, names), (s, m), (s, n));
    } else {
      PlanForStable(shards, selected, order[..l], s, m, n);
      PrecedesInFront(front, PicksOf(order[l], names), (s, m), (s, n));
    }
  }

  /** Tensors of one shard that start together are written in the order they were
      selected. */
  lemma PlanStable(shards: map<string, Shard>, selected: seq<(string, string)>, s: string, m: string, n: string)
    requires ShardsKnown(shards, selected) && Precedes(selected, (m, s), (n, s))
    ensures s in shards
    ensures LoOf(shards[s].header, m) <= LoOf(shards[s].header, n) ==> Precedes(Plan(shards, selected), (s, m), (s, n))
  {
    SortedShardsProperties(selected);
    var i, j :| 0 <= i < j < |selected| && selected[i] == (m, s) && selected[j] == (n, s);
    assert selected[i].1 == s;
    assert s in SortedShards(selected);
    if LoOf(shards[s].header, m) <= LoOf(shards[s].header, n) {
      PlanForStable(shards, selected, SortedShards(selected), s, m, n);
    }
  }
}
