/** The check that an answer splits the whole request (internal/lookup/server.go:337-432).

    The code compares volumes; `ExactPartition` says the same point by point: for every
    attachment that occurs, each address and port asked about is in exactly one outcome.
 */
module Coverage {
  import opened Address
  import opened Basics
  import opened PrefixSet
  import opened Policy
  import opened Partition
  import opened Ports
  import opened Evaluate
  import opened Lookup
  import opened Volume

  // ---------- Boxes ----------

  /** Addresses by ports; a protocol without ports has one column. */
  function RectOf(o: Outcome): Rect {
    var ports := o.key.traffic.ports;
    if o.prefix.bits > Width(o.prefix.fam) then Rect(0, 0, 0, 0)
    else if ports.None? then Rect(o.prefix.addr, o.prefix.End(), 0, 1)
    else Rect(o.prefix.addr, o.prefix.End(), ports.value.start, ports.value.end + 1)
  }

  function BoxOf(query: Prefix, q: Request, protocol: Protocol): Rect
    requires query.bits <= Width(query.fam)
  {
    if Portless(protocol) then Rect(query.addr, query.End(), 0, 1)
    else if q.port.Some? then Rect(query.addr, query.End(), q.port.value, q.port.value + 1)
    else Rect(query.addr, query.End(), 0, PORTS)
  }

  predicate Requested(q: Request, protocol: Protocol) {
    q.protocol.None? || q.protocol.value == protocol
  }

  predicate DirectionRequested(q: Request, d: Direction) {
    q.direction.None? || q.direction.value == d
  }

  predicate PortsInShape(q: Request, t: TrafficCell) {
    if Portless(t.protocol) then t.ports.None?
    else t.ports.Some? && t.ports.value.start <= t.ports.value.end < PORTS &&
         (q.port.Some? ==> t.ports.value.start == q.port.value == t.ports.value.end)
  }

  /** Inside the query and the requested traffic, with a complete attachment. */
  predicate InShape(query: Prefix, q: Request, o: Outcome)
    requires query.Valid()
  {
    && o.prefix.Valid() && o.prefix.bits >= query.bits && query.Has(o.prefix.fam, o.prefix.addr)
    && DirectionRequested(q, o.key.direction) && Requested(q, o.key.traffic.protocol) && PortsInShape(q, o.key.traffic)
    && (o.key.attachment.managed ==> |o.key.attachment.name| > 0)
  }

  lemma ShapeInBox(query: Prefix, q: Request, o: Outcome)
    requires query.Valid() && q.Normalized() && InShape(query, q, o)
    ensures RectOf(o).Valid() && RectOf(o).Within(BoxOf(query, q, o.key.traffic.protocol))
    ensures RectOf(o).a0 < RectOf(o).a1 && RectOf(o).p0 < RectOf(o).p1
  {
    EndInFamily(o.prefix);
    Laminar(query, o.prefix);
  }

  // ---------- Exact partition ----------

  predicate SameGroup(o: Outcome, d: Direction, at: Attachment) {
    o.key.direction == d && o.key.attachment == at
  }

  ghost predicate HeldBy(outs: seq<Outcome>, i: int, d: Direction, at: Attachment, protocol: Protocol, a: nat, p: nat) {
    && 0 <= i < |outs| && SameGroup(outs[i], d, at) && outs[i].key.traffic.protocol == protocol
    && outs[i].prefix.Valid() && RectOf(outs[i]).Has(a, p)
  }

  ghost predicate HeldOnceBy(outs: seq<Outcome>, d: Direction, at: Attachment, protocol: Protocol, a: nat, p: nat) {
    exists i :: HeldBy(outs, i, d, at, protocol, a, p) && forall j :: HeldBy(outs, j, d, at, protocol, a, p) ==> j == i
  }

  /** Each point of the box is in exactly one outcome of the group. */
  ghost predicate GroupSplits(outs: seq<Outcome>, query: Prefix, q: Request, d: Direction, at: Attachment,
                              protocol: Protocol)
    requires query.Valid()
  {
    forall a: nat, p: nat :: BoxOf(query, q, protocol).Has(a, p) ==> HeldOnceBy(outs, d, at, protocol, a, p)
  }

  ghost predicate HasDirection(outs: seq<Outcome>, d: Direction) {
    exists i :: 0 <= i < |outs| && outs[i].key.direction == d
  }

  /** Every outcome is in shape, every requested direction occurs, and for every attachment
      that occurs the outcomes split the whole box of every requested protocol. */
  ghost predicate ExactPartition(outs: seq<Outcome>, query: Prefix, q: Request)
    requires query.Valid()
  {
    && (forall i :: 0 <= i < |outs| ==> InShape(query, q, outs[i]))
    && (forall d :: DirectionRequested(q, d) ==> HasDirection(outs, d))
    && (forall i, protocol :: 0 <= i < |outs| && Requested(q, protocol) ==>
          GroupSplits(outs, query, q, outs[i].key.direction, outs[i].key.attachment, protocol))
  }

  // ---------- Groups ----------

  /** The outcomes of one direction and attachment, by position. */
  datatype CoverGroup = CoverGroup(direction: Direction, attachment: Attachment, members: seq<nat>)

  ghost predicate Increasing(idx: seq<nat>) {
    forall i, j :: 0 <= i < j < |idx| ==> idx[i] < idx[j]
  }

  ghost predicate Collects(g: CoverGroup, outs: seq<Outcome>, n: nat)
    requires n <= |outs|
  {
    Increasing(g.members) && forall i: nat :: i in g.members <==> i < n && SameGroup(outs[i], g.direction, g.attachment)
  }

  ghost predicate GroupFor(groups: seq<CoverGroup>, o: Outcome) {
    exists g :: 0 <= g < |groups| && SameGroup(o, groups[g].direction, groups[g].attachment)
  }

  ghost predicate GroupsOf(groups: seq<CoverGroup>, outs: seq<Outcome>, n: nat)
    requires n <= |outs|
  {
    && (forall g :: 0 <= g < |groups| ==> Collects(groups[g], outs, n) && groups[g].members != [])
    && (forall g, h :: 0 <= g < h < |groups| ==> groups[g].direction != groups[h].direction || groups[g].attachment != groups[h].attachment)
    && (forall i :: 0 <= i < n ==> GroupFor(groups, outs[i]))
  }

  predicate Clash(o: Outcome, p: Outcome)
    requires o.prefix.Valid() && p.prefix.Valid()
    requires (o.key.traffic.ports.None? || p.key.traffic.ports.Some? || o.key.traffic.protocol != p.key.traffic.protocol)
  {
    && o.key.traffic.protocol == p.key.traffic.protocol && Overlaps(o.prefix, p.prefix)
    && (o.key.traffic.ports.None? ||
        (o.key.traffic.ports.value.start <= p.key.traffic.ports.value.end && p.key.traffic.ports.value.start <= o.key.traffic.ports.value.end))
  }

  /** The overlap test sees exactly the rectangles that share a point. */
  lemma ClashMeets(query: Prefix, q: Request, o: Outcome, p: Outcome)
    requires query.Valid() && InShape(query, q, o) && InShape(query, q, p)
    ensures Clash(o, p) <==> o.key.traffic.protocol == p.key.traffic.protocol && RectOf(o).Meets(RectOf(p))
  {
    EndInFamily(o.prefix);
    EndInFamily(p.prefix);
    Laminar(query, o.prefix);
    Laminar(query, p.prefix);
    OverlapsIs(o.prefix, p.prefix);
  }

  predicate Alike(o: Outcome, p: Outcome) {
    SameGroup(o, p.key.direction, p.key.attachment) && o.key.traffic.protocol == p.key.traffic.protocol
  }

  /** A point that two rectangles share. */
  lemma SharedPoint(r: Rect, s: Rect) returns (a: nat, p: nat)
    requires r.Meets(s) && r.a0 < r.a1 && r.p0 < r.p1 && s.a0 < s.a1 && s.p0 < s.p1
    ensures r.Has(a, p) && s.Has(a, p)
  {
    a := if r.a0 < s.a0 then s.a0 else r.a0;
    p := if r.p0 < s.p0 then s.p0 else r.p0;
  }

  /** Two outcomes of one group that share a point break the partition. */
  lemma ClashBreaks(outs: seq<Outcome>, query: Prefix, q: Request, i: nat, j: nat)
    requires query.Valid() && q.Normalized() && i < j < |outs| && InShape(query, q, outs[i]) && InShape(query, q, outs[j])
    requires Alike(outs[i], outs[j]) && RectOf(outs[i]).Meets(RectOf(outs[j]))
    ensures !GroupSplits(outs, query, q, outs[j].key.direction, outs[j].key.attachment, outs[j].key.traffic.protocol)
  {
    var d, at, protocol := outs[j].key.direction, outs[j].key.attachment, outs[j].key.traffic.protocol;
    ShapeInBox(query, q, outs[i]);
    ShapeInBox(query, q, outs[j]);
    var a, p := SharedPoint(RectOf(outs[i]), RectOf(outs[j]));
    assert HeldBy(outs, i, d, at, protocol, a, p) && HeldBy(outs, j, d, at, protocol, a, p);
    assert BoxOf(query, q, protocol).Has(a, p);
    assert !HeldOnceBy(outs, d, at, protocol, a, p);
  }

  ghost predicate ApartFrom(o: Outcome, p: Outcome) {
    Alike(o, p) && o.prefix.Valid() && p.prefix.Valid() ==> !RectOf(o).Meets(RectOf(p))
  }

  /** No two of the first `n` outcomes of one group and protocol share a point. */
  ghost predicate NoClash(outs: seq<Outcome>, n: nat)
    requires n <= |outs|
  {
    forall i, j :: 0 <= i < j < n ==> ApartFrom(outs[i], outs[j])
  }

  /** Tests one outcome against the earlier members of its group. */
  method ClashesWith(outs: seq<Outcome>, query: Prefix, q: Request, members: seq<nat>, n: nat) returns (clash: bool)
    requires query.Valid() && q.Normalized() && n < |outs| && forall i :: 0 <= i <= n ==> InShape(query, q, outs[i])
    requires forall m :: m in members ==> m < n && SameGroup(outs[m], outs[n].key.direction, outs[n].key.attachment)
    ensures clash ==> !ExactPartition(outs, query, q)
    ensures !clash ==> forall m :: m in members ==> ApartFrom(outs[m], outs[n])
  {
    for k := 0 to |members|
      invariant forall x :: 0 <= x < k ==> members[x] < n && ApartFrom(outs[members[x]], outs[n])
    {
      var m := members[k];
      assert m in members;
      ClashMeets(query, q, outs[m], outs[n]);
      if Clash(outs[m], outs[n]) {
        ClashBreaks(outs, query, q, m, n);
        return true;
      }
    }
    return false;
  }

  method FindCoverGroup(groups: seq<CoverGroup>, o: Outcome) returns (index: nat)
    ensures index <= |groups| && (index < |groups| ==> SameGroup(o, groups[index].direction, groups[index].attachment))
    ensures index == |groups| ==> !GroupFor(groups, o)
  {
    index := 0;
    while index < |groups|
      invariant index <= |groups|
      invariant forall g :: 0 <= g < index ==> !SameGroup(o, groups[g].direction, groups[g].attachment)
    {
      if SameGroup(o, groups[index].direction, groups[index].attachment) {
        return;
      }
      index := index + 1;
    }
  }

  lemma IncreasingSnoc(idx: seq<nat>, n: nat)
    requires Increasing(idx) && forall i :: i in idx ==> i < n
    ensures Increasing(idx + [n])
  {
    var all := idx + [n];
    forall i, j | 0 <= i < j < |all|
      ensures all[i] < all[j]
    {
      assert i < |idx| ==> idx[i] in idx;
    }
  }

  lemma GroupsStep(groups: seq<CoverGroup>, outs: seq<Outcome>, n: nat, index: nat, next: CoverGroup)
    requires n < |outs| && GroupsOf(groups, outs, n) && index <= |groups|
    requires index < |groups| ==>
               SameGroup(outs[n], groups[index].direction, groups[index].attachment) && next == groups[index].(members := groups[index].members + [n])
    requires index == |groups| ==> !GroupFor(groups, outs[n]) && next == CoverGroup(outs[n].key.direction, outs[n].key.attachment, [n])
    ensures GroupsOf(if index < |groups| then groups[index := next] else groups + [next], outs, n + 1)
  {
    var all := if index < |groups| then groups[index := next] else groups + [next];
    assert forall g :: 0 <= g < |groups| ==> all[g].direction == groups[g].direction && all[g].attachment == groups[g].attachment;
    assert all[index] == next;
    forall g | 0 <= g < |all|
      ensures Collects(all[g], outs, n + 1) && all[g].members != []
    {
      if g == index {
        if index < |groups| {
          assert Collects(groups[g], outs, n);
          IncreasingSnoc(groups[g].members, n);
        } else {
          NoMembers(groups, outs, n, next);
        }
      } else {
        assert Collects(groups[g], outs, n) && all[g] == groups[g];
      }
    }
    forall i | 0 <= i < n + 1
      ensures GroupFor(all, outs[i])
    {
      if i < n {
        assert GroupFor(groups, outs[i]);
        var g :| 0 <= g < |groups| && SameGroup(outs[i], groups[g].direction, groups[g].attachment);
        assert SameGroup(outs[i], all[g].direction, all[g].attachment);
      } else {
        assert SameGroup(outs[n], all[index].direction, all[index].attachment);
      }
    }
  }

  lemma NoMembers(groups: seq<CoverGroup>, outs: seq<Outcome>, n: nat, next: CoverGroup)
    requires n < |outs| && GroupsOf(groups, outs, n) && !GroupFor(groups, outs[n])
    requires next == CoverGroup(outs[n].key.direction, outs[n].key.attachment, [n])
    ensures Collects(next, outs, n + 1)
  {
    forall i: nat | i < n
      ensures !SameGroup(outs[i], next.direction, next.attachment)
    {
      assert GroupFor(groups, outs[i]);
      var g :| 0 <= g < |groups| && SameGroup(outs[i], groups[g].direction, groups[g].attachment);
      assert !SameGroup(outs[n], groups[g].direction, groups[g].attachment);
    }
  }

  lemma ClashStep(outs: seq<Outcome>, n: nat, members: seq<nat>)
    requires n < |outs| && NoClash(outs, n)
    requires forall i: nat :: i in members <==> i < n && SameGroup(outs[i], outs[n].key.direction, outs[n].key.attachment)
    requires forall m :: m in members ==> ApartFrom(outs[m], outs[n])
    ensures NoClash(outs, n + 1)
  {
    forall i: nat | i < n
      ensures ApartFrom(outs[i], outs[n])
    {
      if Alike(outs[i], outs[n]) {
        assert i in members;
      }
    }
  }

  /** Groups the outcomes; fails on one that is out of shape or overlaps an earlier one. */
  method CollectGroups(outs: seq<Outcome>, query: Prefix, q: Request) returns (r: Option<seq<CoverGroup>>)
    requires query.Valid() && q.Normalized()
    ensures r.None? ==> !ExactPartition(outs, query, q)
    ensures r.Some? ==> GroupsOf(r.value, outs, |outs|) && NoClash(outs, |outs|) && forall i :: 0 <= i < |outs| ==> InShape(query, q, outs[i])
  {
    var groups: seq<CoverGroup> := [];
    for n := 0 to |outs|
      invariant GroupsOf(groups, outs, n) && NoClash(outs, n)
      invariant forall i :: 0 <= i < n ==> InShape(query, q, outs[i])
    {
      var o := outs[n];
      if !InShape(query, q, o) {
        return None;
      }
      var index := FindCoverGroup(groups, o);
      var members := if index < |groups| then groups[index].members else [];
      if index < |groups| {
        assert Collects(groups[index], outs, n);
      } else {
        NoMembers(groups, outs, n, CoverGroup(o.key.direction, o.key.attachment, [n]));
      }
      var clash := ClashesWith(outs, query, q, members, n);
      if clash {
        return None;
      }
      ClashStep(outs, n, members);
      if index == |groups| {
        GroupsStep(groups, outs, n, index, CoverGroup(o.key.direction, o.key.attachment, [n]));
        groups := groups + [CoverGroup(o.key.direction, o.key.attachment, [n])];
      } else {
        GroupsStep(groups, outs, n, index, groups[index].(members := members + [n]));
        groups := groups[index := groups[index].(members := members + [n])];
      }
    }
    return Some(groups);
  }

  method DirectionPresent(groups: seq<CoverGroup>, outs: seq<Outcome>, d: Direction) returns (found: bool)
    requires GroupsOf(groups, outs, |outs|)
    ensures found <==> HasDirection(outs, d)
  {
    for g := 0 to |groups|
      invariant forall h :: 0 <= h < g ==> groups[h].direction != d
    {
      if groups[g].direction == d {
        assert Collects(groups[g], outs, |outs|);
        assert groups[g].members[0] in groups[g].members;
        return true;
      }
    }
    forall i | 0 <= i < |outs|
      ensures outs[i].key.direction != d
    {
      assert GroupFor(groups, outs[i]);
    }
    return false;
  }

  // ---------- Volumes ----------

  ghost predicate Tidy(outs: seq<Outcome>, query: Prefix, q: Request)
    requires query.Valid()
  {
    NoClash(outs, |outs|) && forall i :: 0 <= i < |outs| ==> InShape(query, q, outs[i])
  }

  ghost predicate InGroup(outs: seq<Outcome>, i: nat, d: Direction, at: Attachment, protocol: Protocol) {
    i < |outs| && SameGroup(outs[i], d, at) && outs[i].key.traffic.protocol == protocol
  }

  /** `idx` are the outcomes of one group and protocol. */
  ghost predicate Picks(idx: seq<nat>, outs: seq<Outcome>, d: Direction, at: Attachment, protocol: Protocol) {
    Increasing(idx) && forall i: nat :: i in idx <==> InGroup(outs, i, d, at, protocol)
  }

  ghost predicate Indices(idx: seq<nat>, outs: seq<Outcome>) {
    forall k :: 0 <= k < |idx| ==> idx[k] < |outs|
  }

  ghost function RectsAt(outs: seq<Outcome>, idx: seq<nat>): (r: seq<Rect>)
    requires Indices(idx, outs)
    ensures |r| == |idx| && forall k :: 0 <= k < |idx| ==> r[k] == RectOf(outs[idx[k]])
  {
    seq(|idx|, k requires 0 <= k < |idx| => RectOf(outs[idx[k]]))
  }

  lemma PicksIndices(idx: seq<nat>, outs: seq<Outcome>, d: Direction, at: Attachment, protocol: Protocol)
    requires Picks(idx, outs, d, at, protocol)
    ensures Indices(idx, outs)
  {
    assert forall k :: 0 <= k < |idx| ==> idx[k] in idx;
  }

  lemma AreasSnoc(outs: seq<Outcome>, idx: seq<nat>, m: nat)
    requires Indices(idx, outs) && m < |outs| && AllValid(RectsAt(outs, idx)) && RectOf(outs[m]).Valid()
    ensures Indices(idx + [m], outs) && AllValid(RectsAt(outs, idx + [m]))
    ensures Areas(RectsAt(outs, idx + [m])) == Areas(RectsAt(outs, idx)) + RectOf(outs[m]).Area()
  {
    var before, after := RectsAt(outs, idx), RectsAt(outs, idx + [m]);
    assert after == before + [RectOf(outs[m])];
    assert after[..|idx|] == before;
  }

  /** The volume of a group's outcomes of one protocol, and which outcomes those are. */
  method GroupVolume(outs: seq<Outcome>, query: Prefix, q: Request, g: CoverGroup, protocol: Protocol)
    returns (volume: nat, ghost idx: seq<nat>)
    requires query.Valid() && q.Normalized() && Tidy(outs, query, q) && Collects(g, outs, |outs|)
    ensures Picks(idx, outs, g.direction, g.attachment, protocol) && Indices(idx, outs)
    ensures AllValid(RectsAt(outs, idx)) && volume == Areas(RectsAt(outs, idx))
  {
    volume, idx := 0, [];
    for k := 0 to |g.members|
      invariant Increasing(idx) && (forall i :: i in idx <==> i in g.members[..k] && InGroup(outs, i, g.direction, g.attachment, protocol))
      invariant Indices(idx, outs) && AllValid(RectsAt(outs, idx)) && volume == Areas(RectsAt(outs, idx))
    {
      var m := g.members[k];
      assert m in g.members;
      assert g.members[..k + 1] == g.members[..k] + [m];
      if outs[m].key.traffic.protocol == protocol {
        ShapeInBox(query, q, outs[m]);
        MembersBelow(g.members, k);
        IncreasingSnoc(idx, m);
        AreasSnoc(outs, idx, m);
        volume := volume + RectOf(outs[m]).Area();
        idx := idx + [m];
      }
    }
    assert g.members[..|g.members|] == g.members;
    PicksIndices(idx, outs, g.direction, g.attachment, protocol);
  }

  lemma MembersBelow(members: seq<nat>, k: nat)
    requires Increasing(members) && k < |members|
    ensures forall i :: i in members[..k] ==> i < members[k]
  {
  }

  lemma RectsApart(outs: seq<Outcome>, query: Prefix, q: Request, d: Direction, at: Attachment, protocol: Protocol,
                   idx: seq<nat>)
    requires query.Valid() && q.Normalized() && Tidy(outs, query, q) && Picks(idx, outs, d, at, protocol) && Indices(idx, outs)
    ensures var rs := RectsAt(outs, idx); AllValid(rs) && Disjoint(rs) && forall k :: 0 <= k < |rs| ==> rs[k].Within(BoxOf(query, q, protocol))
  {
    var rs := RectsAt(outs, idx);
    forall k | 0 <= k < |rs|
      ensures rs[k].Valid() && rs[k].Within(BoxOf(query, q, protocol))
    {
      assert idx[k] in idx;
      ShapeInBox(query, q, outs[idx[k]]);
    }
    forall i, j | 0 <= i < j < |rs|
      ensures !rs[i].Meets(rs[j])
    {
      assert idx[i] in idx && idx[j] in idx;
      assert InShape(query, q, outs[idx[i]]) && InShape(query, q, outs[idx[j]]);
      assert ApartFrom(outs[idx[i]], outs[idx[j]]);
    }
  }

  lemma BothHave(r: Rect, s: Rect, a: nat, p: nat)
    requires r.Has(a, p) && s.Has(a, p)
    ensures r.Meets(s) && s.Meets(r)
  {
  }

  lemma HoldersAgree(outs: seq<Outcome>, d: Direction, at: Attachment, protocol: Protocol, i: nat, j: nat, a: nat,
                     p: nat)
    requires NoClash(outs, |outs|) && HeldBy(outs, i, d, at, protocol, a, p) && HeldBy(outs, j, d, at, protocol, a, p)
    ensures i == j
  {
    var o, r := outs[i], outs[j];
    BothHave(RectOf(o), RectOf(r), a, p);
    assert !ApartFrom(o, r) && !ApartFrom(r, o);
  }

  /** Without overlaps, a point that is held is held once. */
  lemma HeldThenOnce(outs: seq<Outcome>, d: Direction, at: Attachment, protocol: Protocol, i: nat, a: nat, p: nat)
    requires NoClash(outs, |outs|) && HeldBy(outs, i, d, at, protocol, a, p)
    ensures HeldOnceBy(outs, d, at, protocol, a, p)
  {
    forall j | HeldBy(outs, j, d, at, protocol, a, p)
      ensures j == i
    {
      HoldersAgree(outs, d, at, protocol, i, j, a, p);
    }
  }

  /** Without overlaps, the rectangles fill the box exactly when each point is held once. */
  lemma FillsIsSplit(outs: seq<Outcome>, query: Prefix, q: Request, d: Direction, at: Attachment, protocol: Protocol,
                     idx: seq<nat>)
    requires query.Valid() && q.Normalized() && Tidy(outs, query, q) && Picks(idx, outs, d, at, protocol) && Indices(idx, outs)
    ensures Fills(RectsAt(outs, idx), BoxOf(query, q, protocol)) <==> GroupSplits(outs, query, q, d, at, protocol)
  {
    var rs, box := RectsAt(outs, idx), BoxOf(query, q, protocol);
    if Fills(rs, box) {
      forall a: nat, p: nat | box.Has(a, p)
        ensures HeldOnceBy(outs, d, at, protocol, a, p)
      {
        var k :| 0 <= k < |rs| && rs[k].Has(a, p);
        assert idx[k] in idx && InShape(query, q, outs[idx[k]]);
        HeldThenOnce(outs, d, at, protocol, idx[k], a, p);
      }
    }
    if GroupSplits(outs, query, q, d, at, protocol) {
      SplitFills(outs, query, q, d, at, protocol, idx);
    }
  }

  lemma SplitFills(outs: seq<Outcome>, query: Prefix, q: Request, d: Direction, at: Attachment, protocol: Protocol,
                   idx: seq<nat>)
    requires query.Valid() && Picks(idx, outs, d, at, protocol) && Indices(idx, outs)
    requires GroupSplits(outs, query, q, d, at, protocol)
    ensures Fills(RectsAt(outs, idx), BoxOf(query, q, protocol))
  {
    var rs, box := RectsAt(outs, idx), BoxOf(query, q, protocol);
    forall a: nat, p: nat | box.Has(a, p)
      ensures exists k :: 0 <= k < |rs| && rs[k].Has(a, p)
    {
      assert HeldOnceBy(outs, d, at, protocol, a, p);
      var i :| HeldBy(outs, i, d, at, protocol, a, p);
      assert InGroup(outs, i, d, at, protocol);
      var k :| 0 <= k < |idx| && idx[k] == i;
      assert rs[k].Has(a, p);
    }
  }

  /** Compares the volume of one group and protocol with the box. */
  method VolumeMatches(outs: seq<Outcome>, query: Prefix, q: Request, g: CoverGroup, protocol: Protocol)
    returns (ok: bool)
    requires query.Valid() && q.Normalized() && Tidy(outs, query, q) && Collects(g, outs, |outs|)
    ensures ok <==> GroupSplits(outs, query, q, g.direction, g.attachment, protocol)
  {
    var volume, idx := GroupVolume(outs, query, q, g, protocol);
    var box := BoxOf(query, q, protocol);
    EndInFamily(query);
    RectsApart(outs, query, q, g.direction, g.attachment, protocol, idx);
    AreasFill(RectsAt(outs, idx), box);
    FillsIsSplit(outs, query, q, g.direction, g.attachment, protocol, idx);
    ok := volume == box.Area();
  }

  method GroupVolumesMatch(outs: seq<Outcome>, query: Prefix, q: Request, g: CoverGroup) returns (ok: bool)
    requires query.Valid() && q.Normalized() && Tidy(outs, query, q) && Collects(g, outs, |outs|)
    ensures ok <==> forall protocol :: Requested(q, protocol) ==> GroupSplits(outs, query, q, g.direction, g.attachment, protocol)
  {
    var protocols := if q.protocol.Some? then [q.protocol.value] else ALL_PROTOCOLS;
    forall protocol
      ensures Requested(q, protocol) <==> protocol in protocols
    {
      EveryProtocol(protocol);
    }
    for k := 0 to |protocols|
      invariant forall x :: 0 <= x < k ==> GroupSplits(outs, query, q, g.direction, g.attachment, protocols[x])
    {
      var same := VolumeMatches(outs, query, q, g, protocols[k]);
      if !same {
        assert protocols[k] in protocols;
        return false;
      }
    }
    return true;
  }

  // ---------- The partition in terms of the request ----------

  /** No outcome speaks of anything that was not asked about. */
  ghost predicate StaysInside(outs: seq<Outcome>, query: Prefix, q: Request)
    requires query.Valid()
  {
    forall i :: 0 <= i < |outs| ==>
      && outs[i].prefix.Valid() && query.Covers(outs[i].prefix)
      && (q.direction.None? || q.direction.value == outs[i].key.direction)
      && (q.protocol.None? || q.protocol.value == outs[i].key.traffic.protocol)
      && (q.port.Some? ==> outs[i].key.traffic.ports == Some(PortRange(q.port.value, q.port.value)))
  }

  ghost predicate AnsweredBy(outs: seq<Outcome>, j: int, like: Outcome, protocol: Protocol, f: Family, a: nat, p: nat) {
    && 0 <= j < |outs| && outs[j].key.direction == like.key.direction && outs[j].key.attachment == like.key.attachment
    && outs[j].prefix.Valid() && outs[j].prefix.Has(f, a) && HoldsTraffic(outs[j].key.traffic, protocol, p)
  }

  ghost predicate AnsweredOnce(outs: seq<Outcome>, like: Outcome, protocol: Protocol, f: Family, a: nat, p: nat) {
    exists j :: AnsweredBy(outs, j, like, protocol, f, a, p) && forall l :: AnsweredBy(outs, l, like, protocol, f, a, p) ==> l == j
  }

  /** Every direction asked about occurs, and where an attachment occurs every address, protocol and port
      asked about is answered exactly once. */
  ghost predicate LeavesNothing(outs: seq<Outcome>, query: Prefix, q: Request)
    requires query.Valid()
  {
    && (forall d :: q.direction.None? || q.direction.value == d ==> HasDirection(outs, d))
    && (forall i, protocol, a: nat, p: nat :: 0 <= i < |outs| && Asks(q, protocol, p) && query.Has(query.fam, a) ==>
          AnsweredOnce(outs, outs[i], protocol, query.fam, a, p))
  }

  lemma AnsweredIsHeld(outs: seq<Outcome>, query: Prefix, q: Request, j: int, like: Outcome, protocol: Protocol,
                       a: nat, p: nat)
    requires query.Valid() && (forall i :: 0 <= i < |outs| ==> InShape(query, q, outs[i]))
    ensures AnsweredBy(outs, j, like, protocol, query.fam, a, p) <==>
            HeldBy(outs, j, like.key.direction, like.key.attachment, protocol, a, if Portless(protocol) then 0 else p)
  {
    if 0 <= j < |outs| {
      assert InShape(query, q, outs[j]);
    }
  }

  lemma PartitionAnswers(outs: seq<Outcome>, query: Prefix, q: Request)
    requires query.Valid() && q.Normalized() && ExactPartition(outs, query, q)
    ensures StaysInside(outs, query, q) && LeavesNothing(outs, query, q)
  {
    forall i | 0 <= i < |outs|
      ensures query.Covers(outs[i].prefix)
    {
      assert InShape(query, q, outs[i]);
      EndInFamily(outs[i].prefix);
      Laminar(query, outs[i].prefix);
    }
    forall i, protocol, a: nat, p: nat | 0 <= i < |outs| && Asks(q, protocol, p) && query.Has(query.fam, a)
      ensures AnsweredOnce(outs, outs[i], protocol, query.fam, a, p)
    {
      PointAnswered(outs, query, q, i, protocol, a, p);
    }
  }

  lemma PointAnswered(outs: seq<Outcome>, query: Prefix, q: Request, i: nat, protocol: Protocol, a: nat, p: nat)
    requires query.Valid() && q.Normalized() && ExactPartition(outs, query, q)
    requires i < |outs| && Asks(q, protocol, p) && query.Has(query.fam, a)
    ensures AnsweredOnce(outs, outs[i], protocol, query.fam, a, p)
  {
    var like, at := outs[i], if Portless(protocol) then 0 else p;
    assert Requested(q, protocol);
    assert BoxOf(query, q, protocol).Has(a, at);
    assert HeldOnceBy(outs, like.key.direction, like.key.attachment, protocol, a, at);
    OnceHeldIsAnswered(outs, query, q, like, protocol, a, p);
  }

  lemma OnceHeldIsAnswered(outs: seq<Outcome>, query: Prefix, q: Request, like: Outcome, protocol: Protocol, a: nat,
                           p: nat)
    requires query.Valid() && (forall i :: 0 <= i < |outs| ==> InShape(query, q, outs[i]))
    requires HeldOnceBy(outs, like.key.direction, like.key.attachment, protocol, a, if Portless(protocol) then 0 else p)
    ensures AnsweredOnce(outs, like, protocol, query.fam, a, p)
  {
    var at := if Portless(protocol) then 0 else p;
    var j :| HeldBy(outs, j, like.key.direction, like.key.attachment, protocol, a, at) &&
             forall l :: HeldBy(outs, l, like.key.direction, like.key.attachment, protocol, a, at) ==> l == j;
    AnsweredIsHeld(outs, query, q, j, like, protocol, a, p);
    forall l | AnsweredBy(outs, l, like, protocol, query.fam, a, p)
      ensures l == j
    {
      AnsweredIsHeld(outs, query, q, l, like, protocol, a, p);
    }
  }

  /** Accepts exactly the answers that split the whole request. */
  method ValidateCoverage(outs: seq<Outcome>, query: Prefix, q: Request) returns (ok: bool)
    requires query.Valid() && q.Normalized()
    ensures ok <==> ExactPartition(outs, query, q)
    ensures ok ==> StaysInside(outs, query, q) && LeavesNothing(outs, query, q)
  {
    var groups := CollectGroups(outs, query, q);
    if groups.None? {
      return false;
    }
    var inbound := DirectionPresent(groups.value, outs, Ingress);
    var outbound := DirectionPresent(groups.value, outs, Egress);
    if (DirectionRequested(q, Ingress) && !inbound) || (DirectionRequested(q, Egress) && !outbound) {
      return false;
    }
    for g := 0 to |groups.value|
      invariant forall h :: 0 <= h < g ==> GroupWhole(outs, query, q, groups.value[h].direction, groups.value[h].attachment)
    {
      assert Collects(groups.value[g], outs, |outs|);
      var same := GroupVolumesMatch(outs, query, q, groups.value[g]);
      if !same {
        var i := groups.value[g].members[0];
        assert i in groups.value[g].members;
        assert SameGroup(outs[i], groups.value[g].direction, groups.value[g].attachment);
        return false;
      }
    }
    forall i, protocol | 0 <= i < |outs| && Requested(q, protocol)
      ensures GroupSplits(outs, query, q, outs[i].key.direction, outs[i].key.attachment, protocol)
    {
      assert GroupFor(groups.value, outs[i]);
      var g :| 0 <= g < |groups.value| && SameGroup(outs[i], groups.value[g].direction, groups.value[g].attachment);
      assert GroupWhole(outs, query, q, groups.value[g].direction, groups.value[g].attachment);
    }
    forall d: Direction | DirectionRequested(q, d)
      ensures HasDirection(outs, d)
    {
      assert d.Ingress? || d.Egress?;
    }
    PartitionAnswers(outs, query, q);
    return true;
  }

  ghost predicate GroupWhole(outs: seq<Outcome>, query: Prefix, q: Request, d: Direction, at: Attachment)
    requires query.Valid()
  {
    forall protocol :: Requested(q, protocol) ==> GroupSplits(outs, query, q, d, at, protocol)
  }

  // ---------- Complete answers are accepted ----------

  ghost predicate NamesGiven(attachments: map<Direction, seq<Attachment>>) {
    forall d, a :: d in attachments && a in attachments[d] ==> |a.name| > 0
  }

  lemma ShapedInShape(outs: seq<Outcome>, plans: seq<FamilyPlan>, query: Prefix, q: Request,
                      attachments: map<Direction, seq<Attachment>>, i: nat)
    requires query.Valid() && Shaped(outs, plans, query, q, attachments) && NamesGiven(attachments) && i < |outs|
    ensures InShape(query, q, outs[i])
  {
    var o := outs[i];
    assert KeyShaped(o.key, plans, query.fam, q, attachments);
    CoversShorter(query, o.prefix);
    EndInFamily(o.prefix);
  }

  /** A point held by an outcome of the group is a point of the request held at its site. */
  lemma HoldsSame(o: Outcome, plans: seq<FamilyPlan>, f: Family, site: Attachment, x: Point)
    requires o.prefix.Valid() && o.prefix.fam == f && o.key.direction == x.direction && o.key.traffic.protocol == x.protocol
    requires (o.key.traffic.ports.None? <==> Portless(x.protocol)) && (Portless(x.protocol) ==> x.port == 0)
    requires x.attachment == site && o.key.attachment == Placed(plans, f, x.direction, site)
    ensures HoldsPoint(o, f, x) <==> RectOf(o).Has(x.addr, x.port)
  {
  }

  lemma SitesAgree(plans: seq<FamilyPlan>, f: Family, attachments: map<Direction, seq<Attachment>>, d: Direction,
                   a: Attachment, b: Attachment)
    requires AllManaged(attachments) && a in Sites(attachments, d) && b in Sites(attachments, d)
    requires SameSite(Placed(plans, f, d, a), b)
    ensures a == b
  {
    SiteIsOne(attachments, d, a, b);
  }

  lemma PointHeldOnce(outs: seq<Outcome>, plans: seq<FamilyPlan>, query: Prefix, q: Request,
                      attachments: map<Direction, seq<Attachment>>,
                      d: Direction, site: Attachment, protocol: Protocol, a: nat, p: nat)
    requires query.Valid() && q.Normalized() && Shaped(outs, plans, query, q, attachments) && AllManaged(attachments)
    requires site in Sites(attachments, d) && Requested(q, protocol) && BoxOf(query, q, protocol).Has(a, p)
    requires ExactlyOne(outs, query.fam, Point(a, d, protocol, p, site))
    ensures HeldOnceBy(outs, d, Placed(plans, query.fam, d, site), protocol, a, p)
  {
    var x, at := Point(a, d, protocol, p, site), Placed(plans, query.fam, d, site);
    forall j | 0 <= j < |outs|
      ensures HeldBy(outs, j, d, at, protocol, a, p) <==> HoldsPoint(outs[j], query.fam, x)
    {
      var o := outs[j];
      assert KeyShaped(o.key, plans, query.fam, q, attachments);
      var own :| own in Sites(attachments, o.key.direction) && o.key.attachment == Placed(plans, query.fam, o.key.direction, own);
      if o.key.direction == d && o.key.traffic.protocol == protocol {
        if SameSite(o.key.attachment, site) {
          SitesAgree(plans, query.fam, attachments, d, own, site);
          HoldsSame(o, plans, query.fam, site, x);
        }
        if o.key.attachment == at {
          HoldsSame(o, plans, query.fam, site, x);
        }
      }
    }
    var i :| 0 <= i < |outs| && HoldsPoint(outs[i], query.fam, x) && forall j :: 0 <= j < |outs| && HoldsPoint(outs[j], query.fam, x) ==> j == i;
    assert HeldBy(outs, i, d, at, protocol, a, p);
  }

  /** Every complete answer over named attachments passes the check. */
  lemma AnswersPass(outs: seq<Outcome>, plans: seq<FamilyPlan>, bans: seq<Prefix>, query: Prefix, q: Request,
                    attachments: map<Direction, seq<Attachment>>)
    requires query.Valid() && q.Normalized() && AllManaged(attachments) && NamesGiven(attachments)
    requires Answers(outs, plans, bans, query, q, attachments) && Shaped(outs, plans, query, q, attachments)
    ensures ExactPartition(outs, query, q)
  {
    EndInFamily(query);
    forall i | 0 <= i < |outs|
      ensures InShape(query, q, outs[i])
    {
      ShapedInShape(outs, plans, query, q, attachments, i);
    }
    forall d: Direction | DirectionRequested(q, d)
      ensures HasDirection(outs, d)
    {
      var protocol := if q.protocol.Some? then q.protocol.value else TCP;
      var x := Point(query.addr, d, protocol, if q.port.Some? then q.port.value else 0, Sites(attachments, d)[0]);
      assert AsksPoint(query, q, attachments, x);
      assert ExactlyOne(outs, query.fam, x);
      var i :| 0 <= i < |outs| && HoldsPoint(outs[i], query.fam, x);
    }
    forall i, protocol | 0 <= i < |outs| && Requested(q, protocol)
      ensures GroupSplits(outs, query, q, outs[i].key.direction, outs[i].key.attachment, protocol)
    {
      assert KeyShaped(outs[i].key, plans, query.fam, q, attachments);
      var d := outs[i].key.direction;
      var site :| site in Sites(attachments, d) && outs[i].key.attachment == Placed(plans, query.fam, d, site);
      forall a: nat, p: nat | BoxOf(query, q, protocol).Has(a, p)
        ensures HeldOnceBy(outs, d, outs[i].key.attachment, protocol, a, p)
      {
        assert AsksPoint(query, q, attachments, Point(a, d, protocol, p, site));
        PointHeldOnce(outs, plans, query, q, attachments, d, site, protocol, a, p);
      }
    }
  }

  /** What `Evaluate` answers, the check accepts. */
  method EvaluateAndValidate(static_: Static, ev: Evidence, query: Prefix, q: Request, now: int, explain: Explain)
    returns (r: Response, ok: bool)
    requires static_.Ready() && static_.Indexed() && NamesGiven(static_.attachments) && query.Valid() && q.Normalized()
    ensures r.Complete? ==> ok
  {
    ghost var job;
    r, job := static_.Evaluate(ev, query, q, now, explain);
    ok := false;
    if r.Complete? {
      AnswersPass(r.outcomes, static_.families, LivePrefixes(ev.prefixes, now), query, q, static_.attachments);
      ok := ValidateCoverage(r.outcomes, query, q);
    }
  }
}
