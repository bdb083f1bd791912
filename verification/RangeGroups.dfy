/** Coalescing of contiguous byte ranges into as few requests as possible. */
module RangeGroups {
  import opened TensorFiles
  import opened Lists

  datatype Group = Group(lo: int, hi: int, names: seq<string>)

  function Join(groups: seq<Group>, name: string, lo: int, hi: int): seq<Group> {
    if groups != [] && lo == groups[|groups| - 1].hi then
      groups[|groups| - 1 := Group(groups[|groups| - 1].lo, hi, groups[|groups| - 1].names + [name])]
    else groups + [Group(lo, hi, [name])]
  }

  function Coalesce(header: Header, ordered: seq<string>): seq<Group>
    requires forall n :: n in ordered ==> n in header
  {
    if ordered == [] then []
    else
      var n := ordered[|ordered| - 1];
      Join(Coalesce(header, ordered[..|ordered| - 1]), n, header[n].lo, header[n].hi)
  }

  /** The source's loop, which extends the last group in place. */
  method CoalesceRanges(header: Header, ordered: seq<string>) returns (groups: seq<Group>)
    requires forall n :: n in ordered ==> n in header
    ensures groups == Coalesce(header, ordered)
  {
    groups := [];
    for i := 0 to |ordered|
      invariant groups == Coalesce(header, ordered[..i])
    {
      var name := ordered[i];
      var lo, hi := header[name].lo, header[name].hi;
      assert ordered[..i + 1][..i] == ordered[..i];
      if groups != [] && lo == groups[|groups| - 1].hi {
        var last := |groups| - 1;
        groups := groups[last := groups[last].(hi := hi, names := groups[last].names + [name])];
      } else {
        groups := groups + [Group(lo, hi, [name])];
      }
    }
    assert ordered[..|ordered|] == ordered;
  }

  function MembersOf(groups: seq<Group>): seq<string> {
    if groups == [] then [] else MembersOf(Front(groups)) + Last(groups).names
  }

  /** The members follow one another without gap from the group's start to its end. */
  predicate Chain(header: Header, g: Group) {
    && g.names != []
    && (forall k :: 0 <= k < |g.names| ==> g.names[k] in header)
    && header[g.names[0]].lo == g.lo
    && header[g.names[|g.names| - 1]].hi == g.hi
    && (forall k :: 0 < k < |g.names| ==> header[g.names[k]].lo == header[g.names[k - 1]].hi)
  }

  /** No group starts where the one before it ends. */
  ghost predicate NoneTouch(gs: seq<Group>) {
    forall i, j :: 0 <= i < j < |gs| && j == i + 1 ==> gs[j].lo != gs[i].hi
  }

  /** Every group is a chain that does not begin where the one before it ends. */
  ghost predicate Separate(header: Header, gs: seq<Group>) {
    gs == []
    || (var front, g := Front(gs), Last(gs);
        Separate(header, front) && Chain(header, g) && (front != [] ==> g.lo != Last(front).hi))
  }

  lemma {:induction false} SeparateAt(header: Header, gs: seq<Group>, i: nat)
    requires Separate(header, gs) && i < |gs|
    ensures Chain(header, gs[i]) && (i > 0 ==> gs[i].lo != gs[i - 1].hi)
  {
    if i < |gs| - 1 {
      SeparateAt(header, Front(gs), i);
    }
  }

  /** Coalescing keeps the order, groups only chains, and leaves no two
      neighbouring groups touching. */
  lemma CoalesceCorrect(header: Header, ordered: seq<string>)
    requires forall n :: n in ordered ==> n in header
    ensures var gs := Coalesce(header, ordered);
      && MembersOf(gs) == ordered
      && (forall i :: 0 <= i < |gs| ==> Chain(header, gs[i]))
      && NoneTouch(gs)
  {
    CoalesceSeparates(header, ordered);
    var gs := Coalesce(header, ordered);
    forall i | 0 <= i < |gs|
      ensures Chain(header, gs[i])
    {
      SeparateAt(header, gs, i);
    }
    forall i, j | 0 <= i < j < |gs| && j == i + 1
      ensures gs[j].lo != gs[i].hi
    {
      SeparateAt(header, gs, j);
    }
  }

  lemma {:induction false} CoalesceSeparates(header: Header, ordered: seq<string>)
    requires forall n :: n in ordered ==> n in header
    ensures var gs := Coalesce(header, ordered);
      && MembersOf(gs) == ordered && Separate(header, gs)
      && (ordered != [] ==> gs != [] && Last(gs).hi == header[Last(ordered)].hi)
  {
    if ordered != [] {
      var front, n := Front(ordered), Last(ordered);
      CoalesceSeparates(header, front);
      JoinSeparates(header, Coalesce(header, front), n);
      Rejoin(ordered);
    }
  }

  lemma JoinSeparates(header: Header, gs: seq<Group>, n: string)
    requires n in header && Separate(header, gs)
    ensures var r := Join(gs, n, header[n].lo, header[n].hi);
      MembersOf(r) == MembersOf(gs) + [n] && Separate(header, r) && r != [] && Last(r).hi == header[n].hi
  {
    if gs != [] && header[n].lo == Last(gs).hi {
      var longer := Group(Last(gs).lo, header[n].hi, Last(gs).names + [n]);
      ChainGrows(header, Last(gs), n);
      ReplaceLast(gs, longer);
      LongerSeparates(header, gs, longer);
      Regroup(MembersOf(Front(gs)), Last(gs).names, n);
    } else {
      NewSeparates(header, gs, Group(header[n].lo, header[n].hi, [n]));
    }
  }

  lemma ReplaceLast(gs: seq<Group>, g: Group)
    requires gs != []
    ensures gs[|gs| - 1 := g] == Front(gs) + [g]
  {
  }

  lemma LongerSeparates(header: Header, gs: seq<Group>, g: Group)
    requires gs != [] && Separate(header, gs) && Chain(header, g) && g.lo == Last(gs).lo
    ensures Separate(header, Front(gs) + [g]) && MembersOf(Front(gs) + [g]) == MembersOf(Front(gs)) + g.names
  {
    Snoc(Front(gs), g);
  }

  lemma NewSeparates(header: Header, gs: seq<Group>, g: Group)
    requires Separate(header, gs) && Chain(header, g) && (gs != [] ==> g.lo != Last(gs).hi)
    ensures Separate(header, gs + [g]) && MembersOf(gs + [g]) == MembersOf(gs) + g.names
  {
    Snoc(gs, g);
  }

  lemma ChainGrows(header: Header, g: Group, n: string)
    requires Chain(header, g) && n in header && header[n].lo == g.hi
    ensures Chain(header, Group(g.lo, header[n].hi, g.names + [n]))
  {
  }

  ghost predicate Filled(groups: seq<Group>) {
    forall k :: 0 <= k < |groups| ==> groups[k].lo < groups[k].hi
  }

  /** Ranges that are not empty make no empty group. */
  lemma {:induction false} CoalesceFilled(header: Header, ordered: seq<string>)
    requires forall n :: n in ordered ==> n in header && header[n].lo < header[n].hi
    ensures Filled(Coalesce(header, ordered))
  {
    if ordered != [] {
      var front, n := Front(ordered), Last(ordered);
      CoalesceFilled(header, front);
      assert n in ordered;
      JoinFilled(Coalesce(header, front), n, header[n].lo, header[n].hi);
    }
  }

  lemma JoinFilled(gs: seq<Group>, n: string, lo: int, hi: int)
    requires lo < hi && Filled(gs) && (gs != [] && lo == gs[|gs| - 1].hi ==> gs[|gs| - 1].lo < hi)
    ensures Filled(Join(gs, n, lo, hi))
  {
  }

  // ------------------------------------------------------------- fewest groups

  /** Ranges in order, none empty, none overlapping the next. */
  predicate Disjoint(header: Header, ordered: seq<string>) {
    && (forall k :: 0 <= k < |ordered| ==> ordered[k] in header && header[ordered[k]].lo < header[ordered[k]].hi)
    && (forall j, k :: 0 <= j < k < |ordered| ==> header[ordered[j]].hi <= header[ordered[k]].lo)
  }

  ghost predicate Wanted(header: Header, ordered: seq<string>, p: int)
    requires forall n :: n in ordered ==> n in header
  {
    exists k :: 0 <= k < |ordered| && header[ordered[k]].lo <= p < header[ordered[k]].hi
  }

  ghost function WantedBytes(header: Header, ordered: seq<string>): iset<int>
    requires forall n :: n in ordered ==> n in header
  {
    iset p | Wanted(header, ordered, p)
  }

  ghost predicate Requested(requests: seq<(int, int)>, p: int) {
    exists k :: 0 <= k < |requests| && requests[k].0 <= p < requests[k].1
  }

  /** Requests for exactly the wanted bytes, each one contiguous range. */
  ghost predicate ExactCover(header: Header, ordered: seq<string>, requests: seq<(int, int)>)
    requires forall n :: n in ordered ==> n in header
  {
    forall p :: Requested(requests, p) <==> Wanted(header, ordered, p)
  }

  lemma MemberBounds(header: Header, g: Group, k: nat)
    requires Chain(header, g) && k < |g.names|
    requires forall j :: 0 <= j < |g.names| ==> header[g.names[j]].lo <= header[g.names[j]].hi
    ensures g.lo <= header[g.names[k]].lo <= header[g.names[k]].hi <= g.hi
  {
    FromStart(header, g, k);
    ToEnd(header, g, k);
  }

  lemma {:induction false} FromStart(header: Header, g: Group, k: nat)
    requires Chain(header, g) && k < |g.names|
    requires forall j :: 0 <= j < |g.names| ==> header[g.names[j]].lo <= header[g.names[j]].hi
    ensures g.lo <= header[g.names[k]].lo
  {
    if k > 0 {
      FromStart(header, g, k - 1);
    }
  }

  lemma {:induction false} ToEnd(header: Header, g: Group, k: nat)
    requires Chain(header, g) && k < |g.names|
    requires forall j :: 0 <= j < |g.names| ==> header[g.names[j]].lo <= header[g.names[j]].hi
    ensures header[g.names[k]].hi <= g.hi
    decreases |g.names| - k
  {
    if k + 1 < |g.names| {
      ToEnd(header, g, k + 1);
    }
  }

  /** Every group starts at a wanted byte, each after the first behind a byte
      that is not wanted, and the groups are apart from one another. */
  ghost predicate Apart(wanted: iset<int>, gs: seq<Group>) {
    && (gs == [] ==> wanted == iset{})
    && (forall i :: 0 <= i < |gs| ==> gs[i].lo < gs[i].hi && gs[i].lo in wanted)
    && (forall i :: 0 < i < |gs| ==> gs[i].lo - 1 !in wanted)
    && (forall i, j :: 0 <= i < j < |gs| ==> gs[i].hi < gs[j].lo)
    && (gs != [] ==> forall p :: p in wanted ==> p < gs[|gs| - 1].hi)
  }

  lemma {:induction false} GroupsApart(header: Header, ordered: seq<string>)
    requires Disjoint(header, ordered)
    requires forall n :: n in ordered ==> n in header
    ensures Apart(WantedBytes(header, ordered), Coalesce(header, ordered))
  {
    if ordered != [] {
      var front, n := Front(ordered), Last(ordered);
      GroupsApart(header, front);
      CoalesceSeparates(header, front);
      assert front != [] ==> header[Last(front)].hi <= header[n].lo;
      var before, after := WantedBytes(header, front), WantedBytes(header, ordered);
      WantedGrows(header, ordered);
      JoinApart(before, after, Coalesce(header, front), n, header[n].lo, header[n].hi);
    }
  }

  lemma WantedGrows(header: Header, ordered: seq<string>)
    requires ordered != [] && forall n :: n in ordered ==> n in header
    ensures forall p :: (p in WantedBytes(header, ordered)
                         <==> p in WantedBytes(header, Front(ordered)) || header[Last(ordered)].lo <= p < header[Last(ordered)].hi)
  {
    forall p
      ensures Wanted(header, ordered, p)
          <==> Wanted(header, Front(ordered), p) || header[Last(ordered)].lo <= p < header[Last(ordered)].hi
    {
      WantedStep(header, ordered, p);
    }
  }

  lemma JoinApart(before: iset<int>, after: iset<int>, gs: seq<Group>, n: string, lo: int, hi: int)
    requires lo < hi && Apart(before, gs)
    requires forall p :: p in after <==> p in before || lo <= p < hi
    requires gs != [] ==> gs[|gs| - 1].hi <= lo
    ensures Apart(after, Join(gs, n, lo, hi))
  {
    if gs != [] && lo == gs[|gs| - 1].hi {
      LongerApart(before, after, gs, Group(gs[|gs| - 1].lo, hi, gs[|gs| - 1].names + [n]), lo);
    } else {
      NewApart(before, after, gs, Group(lo, hi, [n]));
    }
  }

  lemma LongerApart(before: iset<int>, after: iset<int>, gs: seq<Group>, g: Group, lo: int)
    requires gs != [] && Apart(before, gs) && lo == gs[|gs| - 1].hi < g.hi && g.lo == gs[|gs| - 1].lo
    requires forall p :: p in after <==> p in before || lo <= p < g.hi
    ensures Apart(after, gs[|gs| - 1 := g])
  {
    var last := |gs| - 1;
    forall i | 0 < i < |gs|
      ensures gs[i].lo - 1 !in after
    {
      assert gs[i].lo <= gs[last].lo;
    }
  }

  lemma NewApart(before: iset<int>, after: iset<int>, gs: seq<Group>, g: Group)
    requires g.lo < g.hi && Apart(before, gs) && (gs != [] ==> gs[|gs| - 1].hi < g.lo)
    requires forall p :: p in after <==> p in before || g.lo <= p < g.hi
    ensures Apart(after, gs + [g])
  {
    var last := |gs| - 1;
    forall i | 0 <= i < |gs|
      ensures gs[i].hi < g.lo && gs[i].lo < g.lo && (i > 0 ==> gs[i].lo - 1 !in after)
    {
      assert i < last ==> gs[i].hi < gs[last].lo;
    }
  }

  lemma WantedStep(header: Header, ordered: seq<string>, p: int)
    requires ordered != [] && forall n :: n in ordered ==> n in header
    ensures var m := |ordered| - 1;
      Wanted(header, ordered, p)
      <==> Wanted(header, ordered[..m], p) || header[ordered[m]].lo <= p < header[ordered[m]].hi
  {
    var m := |ordered| - 1;
    if k :| 0 <= k < |ordered| && header[ordered[k]].lo <= p < header[ordered[k]].hi {
      assert k < m ==> ordered[..m][k] == ordered[k];
    }
    if k :| 0 <= k < m && header[ordered[..m][k]].lo <= p < header[ordered[..m][k]].hi {
      assert ordered[..m][k] == ordered[k];
    }
  }

  /** No exact cover by contiguous requests uses fewer of them than there are
      groups: each group's first byte needs a request of its own. */
  lemma FewestRequests(header: Header, ordered: seq<string>, requests: seq<(int, int)>)
    requires Disjoint(header, ordered) && forall n :: n in ordered ==> n in header
    requires ExactCover(header, ordered, requests)
    ensures |Coalesce(header, ordered)| <= |requests|
  {
    var gs := Coalesce(header, ordered);
    GroupsApart(header, ordered);
    var used := Serve(header, ordered, requests, gs, |gs|);
    SizeBound(used, |requests|);
  }

  /** No request serves the first bytes of two groups: it would ask for the byte
      before the second one, which is not wanted. */
  lemma OwnRequest(header: Header, ordered: seq<string>, requests: seq<(int, int)>, gs: seq<Group>, i: nat, j: nat, k: nat)
    requires forall m :: m in ordered ==> m in header
    requires ExactCover(header, ordered, requests) && i < j < |gs| && k < |requests|
    requires Apart(WantedBytes(header, ordered), gs)
    requires requests[k].0 <= gs[j].lo < requests[k].1
    ensures !(requests[k].0 <= gs[i].lo < requests[k].1)
  {
    assert gs[i].lo < gs[i].hi < gs[j].lo && gs[j].lo - 1 !in WantedBytes(header, ordered);
    assert !Requested(requests, gs[j].lo - 1);
  }

  /** The requests that serve the first bytes of the first `n` groups: all different. */
  lemma {:induction false} Serve(header: Header, ordered: seq<string>, requests: seq<(int, int)>, gs: seq<Group>, n: nat)
    returns (used: set<int>)
    requires forall m :: m in ordered ==> m in header
    requires ExactCover(header, ordered, requests) && n <= |gs|
    requires Apart(WantedBytes(header, ordered), gs)
    ensures |used| == n
    ensures forall k :: k in used ==> 0 <= k < |requests|
    ensures forall k :: k in used ==> exists i :: 0 <= i < n && requests[k].0 <= gs[i].lo < requests[k].1
  {
    if n == 0 {
      used := {};
    } else {
      used := Serve(header, ordered, requests, gs, n - 1);
      var p := gs[n - 1].lo;
      assert Requested(requests, p);
      var k :| 0 <= k < |requests| && requests[k].0 <= p < requests[k].1;
      forall i | 0 <= i < n - 1
        ensures !(requests[k].0 <= gs[i].lo < requests[k].1)
      {
        OwnRequest(header, ordered, requests, gs, i, n - 1, k);
      }
      used := used + {k};
    }
  }

  lemma {:induction false} SizeBound(s: set<int>, n: nat)
    requires forall k :: k in s ==> 0 <= k < n
    ensures |s| <= n
  {
    if n > 0 {
      SizeBound(s - {n - 1}, n - 1);
    } else {
      assert forall k :: k in s ==> k in {};
    }
  }
}
