/** The timed projection: overlapping expiring decisions become disjoint prefixes,
    each with the latest deadline that covers it (internal/crowdsec/projection.go).
 */
module Projection {
  import opened Address
  import opened Basics
  import opened Range
  import opened Limbs
  import opened DeadlineHeap
  import opened Sorting
  import opened PrefixSet

  /** One ban: identity at its source, address block, and absolute deadline. */
  datatype Decision = Decision(id: Int64, prefix: Prefix, deadline: int)

  datatype TimedPrefix = TimedPrefix(prefix: Prefix, deadline: int)

  // ---------- What the projection means ----------

  ghost predicate AllValid(ds: seq<Decision>) {
    forall i :: 0 <= i < |ds| ==> ds[i].prefix.Valid()
  }

  /** Decision `i` is unexpired and of the family. */
  predicate Live(ds: seq<Decision>, f: Family, now: int, i: int) {
    0 <= i < |ds| && ds[i].prefix.fam == f && ds[i].deadline > now
  }

  ghost predicate Bans(ds: seq<Decision>, f: Family, now: int, i: int, a: nat) {
    0 <= i < |ds| && ds[i].prefix.Valid() && ds[i].prefix.Has(f, a) && ds[i].deadline > now
  }

  ghost predicate Banned(ds: seq<Decision>, f: Family, now: int, a: nat) {
    exists i :: Bans(ds, f, now, i, a)
  }

  /** `t` is the latest deadline among the unexpired decisions that cover `a`. */
  ghost predicate LatestAt(ds: seq<Decision>, f: Family, now: int, a: nat, t: int) {
    && (exists i :: Bans(ds, f, now, i, a) && ds[i].deadline == t)
    && (forall i :: Bans(ds, f, now, i, a) ==> ds[i].deadline <= t)
  }

  function Prefixes(ts: seq<TimedPrefix>): (ps: seq<Prefix>)
    ensures |ps| == |ts| && forall i :: 0 <= i < |ts| ==> ps[i] == ts[i].prefix
  {
    seq(|ts|, i requires 0 <= i < |ts| => ts[i].prefix)
  }

  /** The exact disjoint timed projection of one family. */
  ghost predicate Projects(ts: seq<TimedPrefix>, ds: seq<Decision>, f: Family, now: int) {
    && Canonical(Prefixes(ts)) && AllOf(Prefixes(ts), f)
    && (forall i, a :: 0 <= i < |ts| && ts[i].prefix.Valid() && ts[i].prefix.Has(f, a) ==>
                         LatestAt(ds, f, now, a, ts[i].deadline))
    && (forall a :: Banned(ds, f, now, a) ==> Covered(Prefixes(ts), f, a))
    && (forall i, j :: 0 <= i < |ts| && 0 <= j < |ts| && Siblings(ts[i].prefix, ts[j].prefix) ==>
                         ts[i].deadline != ts[j].deadline)
  }

  // ---------- Decomposing one range ----------

  function Timed(blocks: seq<Prefix>, deadline: int): (r: seq<TimedPrefix>)
    ensures |r| == |blocks| && forall i :: 0 <= i < |r| ==> r[i] == TimedPrefix(blocks[i], deadline)
  {
    seq(|blocks|, i requires 0 <= i < |blocks| => TimedPrefix(blocks[i], deadline))
  }

  /** The largest aligned size that does not pass `end`; sizes are tried from the full width down,
      and a single address always fits, so one is found. */
  method ChooseSize(start: U128, end: Boundary, f: Family) returns (chosen: int)
    requires start.Valid() && end.Valid(f) && start.Value() < end.Pos(f)
    ensures 0 <= chosen && chosen == Largest(start.Value(), end.Pos(f), Width(f))
  {
    assert Fits(start.Value(), end.Pos(f), 0);
    chosen := -1;
    var sizeBits := Width(f);
    while sizeBits >= 0
      invariant -1 <= sizeBits <= Width(f) && chosen == -1
      invariant forall k :: sizeBits < k <= Width(f) ==> !Fits(start.Value(), end.Pos(f), k)
    {
      AlignedU128Correct(f, start, sizeBits);
      if AlignedU128(start, sizeBits, Width(f)) {
        var candidate := AddPower(start, sizeBits, Width(f));
        AddPowerCorrect(f, start, sizeBits);
        CompareIsOrder(f, candidate, end);
        if CompareBoundary(candidate, end) <= 0 {
          LargestIs(start.Value(), end.Pos(f), Width(f), sizeBits);
          chosen := sizeBits;
          return;
        }
      }
      sizeBits := sizeBits - 1;
    }
    assert false;
  }

  /** From zero to the top of the family, the greedy block is the whole family. */
  lemma WholeFamily(f: Family, s: nat, e: nat)
    requires s == 0 && e == Pow2(Width(f))
    ensures GreedyBlock(f, s, e) == Prefix(f, s, 0)
  {
    BelowFullWidth(s, Width(f));
    LargestIs(s, e, Width(f), Width(f));
  }

  /** One greedy step, with deadlines attached. */
  lemma TimedStep(f: Family, s: nat, e: nat, deadline: int, done: seq<TimedPrefix>)
    requires s < e
    ensures done + Timed(Cover(f, s, e), deadline) ==
            (done + [TimedPrefix(GreedyBlock(f, s, e), deadline)]) + Timed(Cover(f, GreedyBlock(f, s, e).End(), e), deadline)
  {
    CoverStep(f, s, e, []);
  }

  /** The block of the chosen size is the greedy one and ends where the carries say. */
  lemma BlockTaken(s: U128, end: Boundary, f: Family, chosen: nat)
    requires s.Valid() && end.Valid(f) && s.Value() < Pow2(Width(f)) && s.Value() < end.Pos(f)
    requires chosen == Largest(s.Value(), end.Pos(f), Width(f))
    ensures chosen <= Width(f) && Prefix(f, s.Value(), Width(f) - chosen) == GreedyBlock(f, s.Value(), end.Pos(f))
    ensures AddPower(s, chosen, Width(f)).Valid(f)
    ensures AddPower(s, chosen, Width(f)).Pos(f) == GreedyBlock(f, s.Value(), end.Pos(f)).End()
  {
    AddPowerCorrect(f, s, chosen);
  }

  /** Whether the decomposition has reached its end. */
  method AtEnd(s: U128, end: Boundary, f: Family) returns (done: bool)
    requires s.Valid() && end.Valid(f) && s.Value() < Pow2(Width(f))
    ensures done <==> end.Pos(f) <= s.Value()
  {
    if end.Top? {
      return false;
    }
    CompareIsOrder(f, At(s), end);
    done := CompareU128(s, end.value) >= 0;
  }

  /** The next block of the decomposition and where it ends; nothing once `end` is reached.
      The branch of the program that fails for want of a size is unreachable. */
  method NextBlock(s: U128, end: Boundary, f: Family) returns (next: Option<(Prefix, Boundary)>)
    requires s.Valid() && end.Valid(f) && s.Value() < Pow2(Width(f))
    ensures next.None? <==> end.Pos(f) <= s.Value()
    ensures next.Some? ==>
              && next.value.0 == GreedyBlock(f, s.Value(), end.Pos(f))
              && next.value.1.Valid(f) && next.value.1.Pos(f) == next.value.0.End()
  {
    if end.Top? && s.hi == 0 && s.lo == 0 {
      WholeFamily(f, s.Value(), end.Pos(f));
      return Some((Prefix(f, 0, 0), Top));
    }
    var done := AtEnd(s, end, f);
    if done {
      return None;
    }
    var chosen := ChooseSize(s, end, f);
    BlockTaken(s, end, f, chosen);
    next := Some((Prefix(f, s.Value(), Width(f) - chosen), AddPower(s, chosen, Width(f))));
  }

  /** What is still to come after `out` is the cover from `s` on. */
  ghost predicate Remaining(goal: seq<TimedPrefix>, out: seq<TimedPrefix>, s: U128, end: Boundary, deadline: int,
                            f: Family) {
    s.Valid() && end.Valid(f) && s.Value() < Pow2(Width(f)) && goal == out + Timed(Cover(f, s.Value(), end.Pos(f)), deadline)
  }

  /** Appends the next block, if any, and says where to go on, if anywhere. */
  method TakeBlock(result: seq<TimedPrefix>, s: U128, end: Boundary, deadline: int, f: Family,
                   ghost goal: seq<TimedPrefix>)
    returns (out: seq<TimedPrefix>, next: Option<U128>)
    requires Remaining(goal, result, s, end, deadline, f)
    ensures next.None? ==> out == goal
    ensures next.Some? ==> Remaining(goal, out, next.value, end, deadline, f) && s.Value() < next.value.Value() && s.Value() < end.Pos(f)
  {
    var block := NextBlock(s, end, f);
    if block.None? {
      return result, None;
    }
    TimedStep(f, s.Value(), end.Pos(f), deadline, result);
    out := result + [TimedPrefix(block.value.0, deadline)];
    if block.value.1.Top? {
      return out, None;
    }
    return out, Some(block.value.1.value);
  }

  /** Appends the minimal cover of `[start, end)`, each block with the deadline. */
  method DecomposeRange(result: seq<TimedPrefix>, start: U128, end: Boundary, deadline: int, f: Family)
    returns (out: seq<TimedPrefix>)
    requires start.Valid() && end.Valid(f) && start.Value() < Pow2(Width(f))
    ensures out == result + Timed(Cover(f, start.Value(), end.Pos(f)), deadline)
  {
    out := result;
    var s := start;
    ghost var goal := result + Timed(Cover(f, start.Value(), end.Pos(f)), deadline);
    while true
      invariant Remaining(goal, out, s, end, deadline, f)
      decreases end.Pos(f) - s.Value()
    {
      var next;
      out, next := TakeBlock(out, s, end, deadline, f, goal);
      if next.None? {
        return;
      }
      s := next.value;
    }
  }

  // ---------- Events ----------

  datatype Event = Event(at: Boundary, index: nat, remove: bool)

  function StartOf(d: Decision): Boundary
    requires d.prefix.addr < TWO64 * TWO64
  {
    At(Split(d.prefix.addr))
  }

  function EndOf(d: Decision): Boundary
    requires d.prefix.addr < TWO64 * TWO64 && d.prefix.bits <= Width(d.prefix.fam)
  {
    AddPower(Split(d.prefix.addr), Width(d.prefix.fam) - d.prefix.bits, Width(d.prefix.fam))
  }

  lemma AddrFits(p: Prefix)
    requires p.Valid()
    ensures p.addr < TWO64 * TWO64
  {
    Pow2Of128();
    Pow2Monotonic(Width(p.fam), 128);
  }

  lemma BoundariesOf(d: Decision)
    requires d.prefix.Valid()
    ensures d.prefix.addr < TWO64 * TWO64
    ensures StartOf(d).Valid(d.prefix.fam) && StartOf(d).Pos(d.prefix.fam) == d.prefix.addr
    ensures EndOf(d).Valid(d.prefix.fam) && EndOf(d).Pos(d.prefix.fam) == d.prefix.End()
  {
    AddrFits(d.prefix);
    AddPowerCorrect(d.prefix.fam, Split(d.prefix.addr), Width(d.prefix.fam) - d.prefix.bits);
  }

  /** Where an event of decision `d` takes place. */
  ghost function Place(d: Decision, remove: bool): nat
    requires d.prefix.bits <= Width(d.prefix.fam)
  {
    if remove then d.prefix.End() else d.prefix.addr
  }

  ghost predicate EventOk(e: Event, at: nat, ds: seq<Decision>, f: Family, now: int) {
    Live(ds, f, now, e.index) && ds[e.index].prefix.Valid() && at == Place(ds[e.index], e.remove)
  }

  /** The position of every event. */
  ghost function Positions(events: seq<Event>, f: Family): (pos: seq<int>)
    ensures |pos| == |events| && forall k :: 0 <= k < |pos| ==> pos[k] == events[k].at.Pos(f)
  {
    seq(|events|, k requires 0 <= k < |events| => events[k].at.Pos(f))
  }

  ghost predicate AllPlaced(events: seq<Event>, f: Family) {
    forall k :: 0 <= k < |events| ==> events[k].at.Valid(f)
  }

  ghost predicate HasEvent(events: seq<Event>, i: int, remove: bool) {
    exists k :: 0 <= k < |events| && events[k].index == i && events[k].remove == remove
  }

  /** Every live decision contributes its start and its end, and nothing else does. */
  ghost predicate EventsOf(events: seq<Event>, pos: seq<int>, ds: seq<Decision>, f: Family, now: int) {
    && |pos| == |events|
    && (forall k :: 0 <= k < |events| ==> pos[k] >= 0 && EventOk(events[k], pos[k], ds, f, now))
    && (forall i :: Live(ds, f, now, i) ==> HasEvent(events, i, false) && HasEvent(events, i, true))
  }

  ghost predicate EventFits(e: Event, ds: seq<Decision>, f: Family, now: int) {
    e.at.Valid(f) && EventOk(e, e.at.Pos(f), ds, f, now)
  }

  method BuildEvents(ds: seq<Decision>, f: Family, now: int) returns (events: seq<Event>)
    requires AllValid(ds)
    ensures forall k :: 0 <= k < |events| ==> EventFits(events[k], ds, f, now)
    ensures forall i :: Live(ds, f, now, i) ==> HasEvent(events, i, false) && HasEvent(events, i, true)
  {
    events := [];
    for n := 0 to |ds|
      invariant forall k :: 0 <= k < |events| ==> EventFits(events[k], ds, f, now)
      invariant forall i :: Live(ds, f, now, i) && i < n ==> HasEvent(events, i, false) && HasEvent(events, i, true)
    {
      if Live(ds, f, now, n) {
        BoundariesOf(ds[n]);
        ghost var before := events;
        events := events + [Event(StartOf(ds[n]), n, false), Event(EndOf(ds[n]), n, true)];
        forall i, r | HasEvent(before, i, r)
          ensures HasEvent(events, i, r)
        {
          var k :| 0 <= k < |before| && before[k].index == i && before[k].remove == r;
          assert events[k] == before[k];
        }
        assert events[|before|].index == n && events[|before| + 1].index == n;
      }
    }
  }

  predicate NotAfter(x: Event, y: Event) {
    CompareBoundary(x.at, y.at) <= 0
  }

  lemma NotAfterTotal()
    ensures TotalPreorder(NotAfter)
  {
  }

  /** Any sorted permutation of the events is a complete event list in order of position. */
  lemma SortedEventsOf(events: seq<Event>, sorted: seq<Event>, ds: seq<Decision>, f: Family, now: int)
    requires forall k :: 0 <= k < |events| ==> EventFits(events[k], ds, f, now)
    requires forall i :: Live(ds, f, now, i) ==> HasEvent(events, i, false) && HasEvent(events, i, true)
    requires SortedBy(NotAfter, sorted) && multiset(sorted) == multiset(events)
    ensures EventsOf(sorted, Positions(sorted, f), ds, f, now) && AllPlaced(sorted, f)
    ensures NonDecreasing(Positions(sorted, f))
  {
    SameElements(sorted, events);
    forall k | 0 <= k < |sorted|
      ensures EventFits(sorted[k], ds, f, now)
    {
      assert sorted[k] in events;
    }
    forall i, r | HasEvent(events, i, r)
      ensures HasEvent(sorted, i, r)
    {
      var k :| 0 <= k < |events| && events[k].index == i && events[k].remove == r;
      assert events[k] in sorted;
    }
    var pos := Positions(sorted, f);
    forall i, j | 0 <= i < j < |pos|
      ensures pos[i] <= pos[j]
    {
      assert NotAfter(sorted[i], sorted[j]);
      assert EventFits(sorted[i], ds, f, now) && EventFits(sorted[j], ds, f, now);
      CompareIsOrder(f, sorted[i].at, sorted[j].at);
    }
  }

  // ---------- Sweeping ----------

  /** `[index, next)` is the group of all events at position `x`. */
  ghost predicate Group(pos: seq<int>, index: nat, next: nat, x: int) {
    && index < next <= |pos|
    && (forall k :: 0 <= k < index ==> pos[k] < x)
    && (forall k :: index <= k < next ==> pos[k] == x)
    && (forall k :: next <= k < |pos| ==> x < pos[k])
  }

  /** Whether decision `i` covers the segment that starts at `x`. */
  ghost predicate Spans(ds: seq<Decision>, f: Family, now: int, i: int, x: nat) {
    Live(ds, f, now, i) && ds[i].prefix.Valid() && ds[i].prefix.addr <= x < ds[i].prefix.End()
  }

  /** Started strictly before `x` and not ended before it. */
  ghost predicate Open(ds: seq<Decision>, f: Family, now: int, i: int, x: nat) {
    Live(ds, f, now, i) && ds[i].prefix.Valid() && ds[i].prefix.addr < x <= ds[i].prefix.End()
  }

  /** The heap holds every active decision, each item with its own deadline. */
  ghost predicate HeapHolds(items: seq<Item>, active: seq<bool>, ds: seq<Decision>) {
    && Ordered(items) && |active| == |ds|
    && (forall k :: 0 <= k < |items| ==> items[k].index < |ds| && items[k].deadline == ds[items[k].index].deadline)
    && (forall i :: 0 <= i < |ds| && active[i] ==> Item(i, ds[i].deadline) in items)
  }

  ghost predicate HitIn(events: seq<Event>, from: nat, to: nat, i: int, remove: bool) {
    exists k :: from <= k < to && k < |events| && events[k].index == i && events[k].remove == remove
  }

  /** In a complete event list, the events of `i` at `x` are exactly in the group at `x`. */
  lemma GroupHits(events: seq<Event>, pos: seq<int>, ds: seq<Decision>, f: Family, now: int, index: nat, next: nat,
                  x: nat, i: int, remove: bool)
    requires EventsOf(events, pos, ds, f, now) && Group(pos, index, next, x)
    requires Live(ds, f, now, i) && ds[i].prefix.Valid()
    ensures HitIn(events, index, next, i, remove) <==> Place(ds[i], remove) == x
  {
    assert HasEvent(events, i, remove);
    var k :| 0 <= k < |events| && events[k].index == i && events[k].remove == remove;
    assert EventOk(events[k], pos[k], ds, f, now);
    if HitIn(events, index, next, i, remove) {
      var m :| index <= m < next && events[m].index == i && events[m].remove == remove;
      assert EventOk(events[m], pos[m], ds, f, now);
    }
  }

  method Deactivate(events: seq<Event>, index: nat, next: nat, active: seq<bool>) returns (r: seq<bool>)
    requires index <= next <= |events|
    requires forall k :: index <= k < next ==> events[k].index < |active|
    ensures |r| == |active|
    ensures forall i :: 0 <= i < |r| ==> (r[i] <==> active[i] && !HitIn(events, index, next, i, true))
  {
    r := active;
    for k := index to next
      invariant |r| == |active|
      invariant forall i :: 0 <= i < |r| ==> (r[i] <==> active[i] && !HitIn(events, index, k, i, true))
    {
      if events[k].remove {
        r := r[events[k].index := false];
      }
      forall i
        ensures HitIn(events, index, k + 1, i, true) <==> HitIn(events, index, k, i, true) || (events[k].index == i && events[k].remove)
      {
      }
    }
  }

  lemma PushHolds(items: seq<Item>, active: seq<bool>, ds: seq<Decision>, i: nat)
    requires HeapHolds(items, active, ds) && i < |ds|
    ensures HeapHolds(Push(items, Item(i, ds[i].deadline)), active[i := true], ds)
  {
    var x := Item(i, ds[i].deadline);
    var r := Push(items, x);
    forall y
      ensures y in r <==> y in items || y == x
    {
      assert y in r <==> y in multiset(r);
      assert y in items <==> y in multiset(items);
    }
    forall k | 0 <= k < |r|
      ensures r[k].index < |ds| && r[k].deadline == ds[r[k].index].deadline
    {
      assert r[k] in items || r[k] == x;
    }
  }

  method Activate(events: seq<Event>, index: nat, next: nat, active: seq<bool>, items: seq<Item>, ds: seq<Decision>)
    returns (r: seq<bool>, heap: seq<Item>)
    requires index <= next <= |events| && HeapHolds(items, active, ds)
    requires forall k :: index <= k < next ==> events[k].index < |ds|
    ensures HeapHolds(heap, r, ds)
    ensures forall i :: 0 <= i < |r| ==> (r[i] <==> active[i] || HitIn(events, index, next, i, false))
  {
    r, heap := active, items;
    for k := index to next
      invariant HeapHolds(heap, r, ds)
      invariant forall i :: 0 <= i < |r| ==> (r[i] <==> active[i] || HitIn(events, index, k, i, false))
    {
      var e := events[k];
      if !e.remove {
        PushHolds(heap, r, ds, e.index);
        heap := Push(heap, Item(e.index, ds[e.index].deadline));
        r := r[e.index := true];
      }
      forall i
        ensures HitIn(events, index, k + 1, i, false) <==> HitIn(events, index, k, i, false) || (events[k].index == i && !events[k].remove)
      {
      }
    }
  }

  /** Drops stale roots until the root is active: the latest deadline of an active decision, if any. */
  method Current(items: seq<Item>, active: seq<bool>, ds: seq<Decision>) returns (heap: seq<Item>, best: Option<Item>)
    requires HeapHolds(items, active, ds)
    ensures HeapHolds(heap, active, ds)
    ensures best.None? ==> forall i :: 0 <= i < |active| ==> !active[i]
    ensures best.Some? ==> best.value.index < |ds| && active[best.value.index] && best.value.deadline == ds[best.value.index].deadline
    ensures best.Some? ==> forall i :: 0 <= i < |active| && active[i] ==> ds[i].deadline <= best.value.deadline
  {
    heap := items;
    while heap != []
      invariant HeapHolds(heap, active, ds)
      decreases |heap|
    {
      var top := heap[0];
      if active[top.index] {
        forall i | 0 <= i < |active| && active[i]
          ensures ds[i].deadline <= top.deadline
        {
          var k :| 0 <= k < |heap| && heap[k] == Item(i, ds[i].deadline);
          RootLatest(heap, k);
        }
        return heap, Some(top);
      }
      PopHolds(heap, active, ds);
      heap := Pop(heap);
    }
    best := None;
  }

  lemma PopHolds(items: seq<Item>, active: seq<bool>, ds: seq<Decision>)
    requires HeapHolds(items, active, ds) && items != [] && !active[items[0].index]
    ensures HeapHolds(Pop(items), active, ds) && |Pop(items)| < |items|
  {
    var r := Pop(items);
    assert |multiset(r)| + 1 == |multiset(items)|;
    forall y | y in r
      ensures y in items
    {
      assert y in multiset(r);
      assert y in multiset(items);
    }
    forall i | 0 <= i < |ds| && active[i]
      ensures Item(i, ds[i].deadline) in r
    {
      var y := Item(i, ds[i].deadline);
      assert y in multiset(items);
      assert y != items[0];
      assert y in multiset(r);
    }
    forall k | 0 <= k < |r|
      ensures r[k].index < |ds| && r[k].deadline == ds[r[k].index].deadline
    {
      assert r[k] in items;
    }
  }

  /** Processing the group at `x`, ends before starts, leaves exactly the spanning decisions active. */
  lemma GroupEffect(events: seq<Event>, pos: seq<int>, ds: seq<Decision>, f: Family, now: int, index: nat, next: nat,
                    x: nat, i: int)
    requires EventsOf(events, pos, ds, f, now) && Group(pos, index, next, x)
    requires 0 <= i < |ds| && ds[i].prefix.Valid()
    ensures Spans(ds, f, now, i, x) <==>
            (Open(ds, f, now, i, x) && !HitIn(events, index, next, i, true)) || HitIn(events, index, next, i, false)
  {
    HitLive(events, pos, ds, f, now, index, next, i);
    if Live(ds, f, now, i) {
      GroupHits(events, pos, ds, f, now, index, next, x, i, true);
      GroupHits(events, pos, ds, f, now, index, next, x, i, false);
      EndInFamily(ds[i].prefix);
    }
  }

  lemma HitLive(events: seq<Event>, pos: seq<int>, ds: seq<Decision>, f: Family, now: int, index: nat, next: nat,
                i: int)
    requires EventsOf(events, pos, ds, f, now)
    ensures HitIn(events, index, next, i, false) ==> Live(ds, f, now, i)
  {
    if HitIn(events, index, next, i, false) {
      var k :| index <= k < next && k < |events| && events[k].index == i && !events[k].remove;
      assert EventOk(events[k], pos[k], ds, f, now);
    }
  }

  /** Between two consecutive positions the covering decisions do not change. */
  lemma SegmentUniform(events: seq<Event>, pos: seq<int>, ds: seq<Decision>, f: Family, now: int, index: nat,
                       next: nat, x: nat, i: int, a: nat)
    requires EventsOf(events, pos, ds, f, now) && Group(pos, index, next, x)
    requires x <= a && (next < |events| ==> a < pos[next]) && NonDecreasing(pos)
    ensures Bans(ds, f, now, i, a) <==> Spans(ds, f, now, i, x) && (next < |events|)
    ensures next < |events| ==> (Open(ds, f, now, i, pos[next]) <==> Spans(ds, f, now, i, x))
  {
    if Live(ds, f, now, i) && ds[i].prefix.Valid() {
      var p := ds[i].prefix;
      EndInFamily(p);
      PlaceNotBetween(events, pos, ds, f, now, index, next, x, i, false);
      PlaceNotBetween(events, pos, ds, f, now, index, next, x, i, true);
    }
  }

  lemma PlaceNotBetween(events: seq<Event>, pos: seq<int>, ds: seq<Decision>, f: Family, now: int, index: nat,
                        next: nat, x: nat, i: int, remove: bool)
    requires EventsOf(events, pos, ds, f, now) && Group(pos, index, next, x) && NonDecreasing(pos)
    requires Live(ds, f, now, i) && ds[i].prefix.Valid()
    ensures Place(ds[i], remove) <= x || (next < |events| && pos[next] <= Place(ds[i], remove))
  {
    assert HasEvent(events, i, remove);
    var k :| 0 <= k < |events| && events[k].index == i && events[k].remove == remove;
    assert EventOk(events[k], pos[k], ds, f, now);
  }

  // ---------- Ranges of constant deadline ----------

  datatype Span = Span(start: U128, end: Boundary, deadline: int)

  /** The addresses `[lo, hi)` and their deadline. */
  datatype Seg = Seg(lo: nat, hi: nat, deadline: int)

  ghost function SegOf(s: Span, f: Family): Seg {
    Seg(s.start.Value(), s.end.Pos(f), s.deadline)
  }

  ghost function Segs(spans: seq<Span>, f: Family): (r: seq<Seg>)
    ensures |r| == |spans| && forall i :: 0 <= i < |r| ==> r[i] == SegOf(spans[i], f)
  {
    seq(|spans|, i requires 0 <= i < |spans| => SegOf(spans[i], f))
  }

  ghost predicate InSegs(segs: seq<Seg>, a: nat) {
    exists i :: 0 <= i < |segs| && segs[i].lo <= a < segs[i].hi
  }

  /** Nonempty, in order, and merged wherever neighbours share a deadline. */
  ghost predicate Separate(segs: seq<Seg>, x: nat) {
    && (forall i :: 0 <= i < |segs| ==> segs[i].lo < segs[i].hi <= x)
    && (forall i, j :: 0 <= i < j < |segs| ==> segs[i].hi <= segs[j].lo)
    && (forall i, j :: 0 <= i < j < |segs| && segs[i].hi == segs[j].lo ==> segs[i].deadline != segs[j].deadline)
  }

  /** Below `x`, the segments are exactly the banned addresses, each with its latest deadline. */
  ghost predicate Exact(segs: seq<Seg>, ds: seq<Decision>, f: Family, now: int, x: nat) {
    && (forall i, a :: 0 <= i < |segs| && segs[i].lo <= a < segs[i].hi ==> LatestAt(ds, f, now, a, segs[i].deadline))
    && (forall a: nat :: a < x && Banned(ds, f, now, a) ==> InSegs(segs, a))
  }

  lemma SkipSegment(segs: seq<Seg>, ds: seq<Decision>, f: Family, now: int, x: nat, y: nat)
    requires Separate(segs, x) && Exact(segs, ds, f, now, x) && x <= y
    requires forall a :: x <= a < y ==> !Banned(ds, f, now, a)
    ensures Separate(segs, y) && Exact(segs, ds, f, now, y)
  {
  }

  lemma AppendSeparate(segs: seq<Seg>, x: nat, y: nat, t: int)
    requires Separate(segs, x) && x < y
    requires segs != [] && segs[|segs| - 1].hi == x ==> segs[|segs| - 1].deadline != t
    ensures Separate(segs + [Seg(x, y, t)], y)
  {
    forall i | 0 <= i < |segs| - 1
      ensures segs[i].hi < x
    {
      assert segs[i].hi <= segs[|segs| - 1].lo;
    }
  }

  lemma AppendSegment(segs: seq<Seg>, ds: seq<Decision>, f: Family, now: int, x: nat, y: nat, t: int)
    requires Exact(segs, ds, f, now, x) && x < y
    requires forall a :: x <= a < y ==> LatestAt(ds, f, now, a, t)
    ensures Exact(segs + [Seg(x, y, t)], ds, f, now, y)
  {
    var r := segs + [Seg(x, y, t)];
    forall a: nat | a < y && Banned(ds, f, now, a)
      ensures InSegs(r, a)
    {
      if a < x {
        var i :| 0 <= i < |segs| && segs[i].lo <= a < segs[i].hi;
        assert r[i] == segs[i];
      } else {
        assert r[|segs|].lo <= a < r[|segs|].hi;
      }
    }
  }

  lemma ExtendSegment(segs: seq<Seg>, ds: seq<Decision>, f: Family, now: int, x: nat, y: nat, t: int)
    requires Separate(segs, x) && Exact(segs, ds, f, now, x) && x < y
    requires segs != [] && segs[|segs| - 1].hi == x && segs[|segs| - 1].deadline == t
    requires forall a :: x <= a < y ==> LatestAt(ds, f, now, a, t)
    ensures
      var r := segs[|segs| - 1 := segs[|segs| - 1].(hi := y)];
      Separate(r, y) && Exact(r, ds, f, now, y)
  {
    var n := |segs| - 1;
    var r := segs[n := segs[n].(hi := y)];
    forall a: nat | a < y && Banned(ds, f, now, a)
      ensures InSegs(r, a)
    {
      if a < x {
        var i :| 0 <= i < |segs| && segs[i].lo <= a < segs[i].hi;
        assert r[i].lo <= a < r[i].hi;
      } else {
        assert r[n].lo <= a < r[n].hi;
      }
    }
  }

  /** The latest deadline of the active decisions holds throughout the segment. */
  lemma SegmentLatest(events: seq<Event>, pos: seq<int>, ds: seq<Decision>, f: Family, now: int, index: nat, next: nat,
                      x: nat, active: seq<bool>, best: nat)
    requires EventsOf(events, pos, ds, f, now) && Group(pos, index, next, x) && NonDecreasing(pos) && next < |pos|
    requires |active| == |ds| && forall i :: 0 <= i < |ds| ==> (active[i] <==> Spans(ds, f, now, i, x))
    requires best < |ds| && active[best] && forall i :: 0 <= i < |ds| && active[i] ==> ds[i].deadline <= ds[best].deadline
    ensures forall a :: x <= a < pos[next] ==> LatestAt(ds, f, now, a, ds[best].deadline)
  {
    forall a: nat | x <= a < pos[next]
      ensures LatestAt(ds, f, now, a, ds[best].deadline)
    {
      SegmentUniform(events, pos, ds, f, now, index, next, x, best, a);
      assert Bans(ds, f, now, best, a);
      forall i | Bans(ds, f, now, i, a)
        ensures ds[i].deadline <= ds[best].deadline
      {
        SegmentUniform(events, pos, ds, f, now, index, next, x, i, a);
      }
    }
  }

  /** With nothing active, nothing in the segment is banned. */
  lemma SegmentClear(events: seq<Event>, pos: seq<int>, ds: seq<Decision>, f: Family, now: int, index: nat, next: nat,
                     x: nat, active: seq<bool>, y: nat)
    requires EventsOf(events, pos, ds, f, now) && Group(pos, index, next, x) && NonDecreasing(pos)
    requires next < |pos| ==> y <= pos[next]
    requires |active| == |ds| && forall i :: 0 <= i < |ds| ==> (active[i] <==> Spans(ds, f, now, i, x))
    requires next < |pos| ==> forall i :: 0 <= i < |ds| ==> !active[i]
    ensures forall a :: x <= a < y ==> !Banned(ds, f, now, a)
  {
    forall a: nat, i | x <= a < y && Bans(ds, f, now, i, a)
      ensures false
    {
      SegmentUniform(events, pos, ds, f, now, index, next, x, i, a);
    }
  }

  /** Adds the segment `[x, next)` with the given deadline, extending the last range when it continues it. */
  method AddSpan(spans: seq<Span>, x: Boundary, next: Boundary, deadline: int, f: Family) returns (r: seq<Span>)
    requires x.At? && x.Valid(f) && next.Valid(f)
    requires forall i :: 0 <= i < |spans| ==> spans[i].start.Valid() && spans[i].end.Valid(f)
    ensures forall i :: 0 <= i < |r| ==> r[i].start.Valid() && r[i].end.Valid(f)
    ensures
      var s, last, y := Segs(spans, f), |spans| - 1, next.Pos(f);
      if spans != [] && s[last].hi == x.Pos(f) && s[last].deadline == deadline
      then Segs(r, f) == s[last := s[last].(hi := y)]
      else Segs(r, f) == s + [Seg(x.Pos(f), y, deadline)]
  {
    if spans != [] {
      CompareIsOrder(f, spans[|spans| - 1].end, x);
    }
    if spans != [] && spans[|spans| - 1].end == At(x.value) && spans[|spans| - 1].deadline == deadline {
      r := spans[|spans| - 1 := spans[|spans| - 1].(end := next)];
      LongerSpan(spans, next, f);
    } else {
      r := spans + [Span(x.value, next, deadline)];
      FurtherSpan(spans, Span(x.value, next, deadline), f);
    }
  }

  lemma LongerSpan(spans: seq<Span>, next: Boundary, f: Family)
    requires spans != [] && next.Valid(f) && forall i :: 0 <= i < |spans| ==> spans[i].start.Valid() && spans[i].end.Valid(f)
    ensures var last := |spans| - 1; var r := spans[last := spans[last].(end := next)];
            && (forall i :: 0 <= i < |r| ==> r[i].start.Valid() && r[i].end.Valid(f))
            && Segs(r, f) == Segs(spans, f)[last := Segs(spans, f)[last].(hi := next.Pos(f))]
  {
  }

  lemma FurtherSpan(spans: seq<Span>, span: Span, f: Family)
    requires span.start.Valid() && span.end.Valid(f) && forall i :: 0 <= i < |spans| ==> spans[i].start.Valid() && spans[i].end.Valid(f)
    ensures forall i :: 0 <= i < |spans + [span]| ==> (spans + [span])[i].start.Valid() && (spans + [span])[i].end.Valid(f)
    ensures Segs(spans + [span], f) == Segs(spans, f) + [SegOf(span, f)]
  {
  }

  lemma AddSpanExact(s: seq<Seg>, r: seq<Seg>, ds: seq<Decision>, f: Family, now: int, x: nat, y: nat, t: int)
    requires Separate(s, x) && Exact(s, ds, f, now, x) && x < y
    requires forall a :: x <= a < y ==> LatestAt(ds, f, now, a, t)
    requires
      if s != [] && s[|s| - 1].hi == x && s[|s| - 1].deadline == t
      then r == s[|s| - 1 := s[|s| - 1].(hi := y)]
      else r == s + [Seg(x, y, t)]
    ensures Separate(r, y) && Exact(r, ds, f, now, y)
  {
    if s != [] && s[|s| - 1].hi == x && s[|s| - 1].deadline == t {
      ExtendSegment(s, ds, f, now, x, y, t);
    } else {
      AppendSeparate(s, x, y, t);
      AppendSegment(s, ds, f, now, x, y, t);
    }
  }

  /** One past the last event at the position of event `index`. */
  method GroupEnd(events: seq<Event>, ghost pos: seq<int>, f: Family, index: nat) returns (next: nat)
    requires index < |events| == |pos| && AllPlaced(events, f) && NonDecreasing(pos)
    requires forall k :: 0 <= k < |events| ==> pos[k] == events[k].at.Pos(f)
    requires forall k :: 0 <= k < index ==> pos[k] < pos[index]
    ensures Group(pos, index, next, pos[index])
  {
    next := index + 1;
    while next < |events| && CompareBoundary(events[index].at, events[next].at) == 0
      invariant index < next <= |events|
      invariant forall k :: index <= k < next ==> pos[k] == pos[index]
    {
      CompareIsOrder(f, events[index].at, events[next].at);
      next := next + 1;
    }
    if next < |events| {
      CompareIsOrder(f, events[index].at, events[next].at);
      assert pos[index] <= pos[next];
    }
  }

  /** Activates and deactivates the decisions whose boundaries lie at `x`. */
  method ProcessGroup(events: seq<Event>, ghost pos: seq<int>, ds: seq<Decision>, f: Family, now: int,
                      index: nat, next: nat, ghost x: nat, active: seq<bool>, items: seq<Item>)
    returns (r: seq<bool>, heap: seq<Item>)
    requires AllValid(ds) && EventsOf(events, pos, ds, f, now) && Group(pos, index, next, x)
    requires HeapHolds(items, active, ds)
    requires forall i :: 0 <= i < |ds| ==> (active[i] <==> Open(ds, f, now, i, x))
    ensures HeapHolds(heap, r, ds)
    ensures forall i :: 0 <= i < |ds| ==> (r[i] <==> Spans(ds, f, now, i, x))
  {
    forall k | index <= k < next
      ensures events[k].index < |ds|
    {
      assert EventOk(events[k], pos[k], ds, f, now);
    }
    var mid := Deactivate(events, index, next, active);
    r, heap := Activate(events, index, next, mid, items, ds);
    forall i | 0 <= i < |ds|
      ensures r[i] <==> Spans(ds, f, now, i, x)
    {
      GroupEffect(events, pos, ds, f, now, index, next, x, i);
    }
  }

  lemma GroupCarries(events: seq<Event>, pos: seq<int>, ds: seq<Decision>, f: Family, now: int, index: nat, next: nat,
                     x: nat, active: seq<bool>)
    requires EventsOf(events, pos, ds, f, now) && Group(pos, index, next, x) && NonDecreasing(pos) && next < |pos|
    requires |active| == |ds| && forall i :: 0 <= i < |ds| ==> (active[i] <==> Spans(ds, f, now, i, x))
    ensures forall i :: 0 <= i < |ds| ==> (active[i] <==> Open(ds, f, now, i, pos[next]))
  {
    forall i | 0 <= i < |ds|
      ensures active[i] <==> Open(ds, f, now, i, pos[next])
    {
      SegmentUniform(events, pos, ds, f, now, index, next, x, i, x);
    }
  }

  lemma NothingBeforeFirst(events: seq<Event>, pos: seq<int>, ds: seq<Decision>, f: Family, now: int)
    requires EventsOf(events, pos, ds, f, now) && NonDecreasing(pos) && |pos| > 0
    ensures forall i :: !Open(ds, f, now, i, pos[0])
    ensures forall a: nat :: a < pos[0] ==> !Banned(ds, f, now, a)
  {
    forall i | Live(ds, f, now, i) && ds[i].prefix.Valid()
      ensures pos[0] <= ds[i].prefix.addr
    {
      assert HasEvent(events, i, false);
      var k :| 0 <= k < |events| && events[k].index == i && events[k].remove == false;
      assert EventOk(events[k], pos[k], ds, f, now);
    }
  }

  lemma NoEvents(events: seq<Event>, pos: seq<int>, ds: seq<Decision>, f: Family, now: int, a: nat)
    requires EventsOf(events, pos, ds, f, now) && events == []
    ensures !Banned(ds, f, now, a)
  {
    assert forall i :: !HasEvent(events, i, false);
    assert forall i :: Bans(ds, f, now, i, a) ==> Live(ds, f, now, i);
  }

  lemma PlaceInFamily(e: Event, at: nat, ds: seq<Decision>, f: Family, now: int)
    requires EventOk(e, at, ds, f, now)
    ensures at <= Pow2(Width(f))
  {
    EndInFamily(ds[e.index].prefix);
  }

  lemma NotLastIsAt(events: seq<Event>, f: Family, i: nat, j: nat)
    requires i < |events| && j < |events| && AllPlaced(events, f)
    requires events[i].at.Pos(f) < events[j].at.Pos(f)
    ensures events[i].at.At?
  {
    CompareIsOrder(f, events[i].at, events[j].at);
  }

  ghost predicate SpansValid(spans: seq<Span>, f: Family) {
    forall i :: 0 <= i < |spans| ==> spans[i].start.Valid() && spans[i].end.Valid(f)
  }

  /** The event list the sweep walks. */
  ghost predicate Schedule(events: seq<Event>, pos: seq<int>, ds: seq<Decision>, f: Family, now: int) {
    && AllValid(ds) && EventsOf(events, pos, ds, f, now) && AllPlaced(events, f) && NonDecreasing(pos)
    && forall k :: 0 <= k < |events| ==> pos[k] == events[k].at.Pos(f)
  }

  /** What is known before the group at event `index`. */
  ghost predicate Swept(pos: seq<int>, ds: seq<Decision>, f: Family, now: int,
                        index: nat, active: seq<bool>, heap: seq<Item>, spans: seq<Span>) {
    && index < |pos| && pos[index] >= 0
    && (forall k :: 0 <= k < index ==> pos[k] < pos[index])
    && HeapHolds(heap, active, ds)
    && (forall i :: 0 <= i < |ds| ==> (active[i] <==> Open(ds, f, now, i, pos[index])))
    && SpansValid(spans, f)
    && Separate(Segs(spans, f), pos[index]) && Exact(Segs(spans, f), ds, f, now, pos[index])
  }

  /** Records a segment whose latest deadline is known. */
  method RecordSegment(events: seq<Event>, ghost pos: seq<int>, ghost ds: seq<Decision>, f: Family, ghost now: int,
                       index: nat, next: nat, deadline: int, spans: seq<Span>)
    returns (r: seq<Span>)
    requires Schedule(events, pos, ds, f, now) && index < next < |pos| && Group(pos, index, next, pos[index])
    requires SpansValid(spans, f)
    requires Separate(Segs(spans, f), pos[index]) && Exact(Segs(spans, f), ds, f, now, pos[index])
    requires forall a :: pos[index] <= a < pos[next] ==> LatestAt(ds, f, now, a, deadline)
    ensures SpansValid(r, f) && Separate(Segs(r, f), pos[next]) && Exact(Segs(r, f), ds, f, now, pos[next])
  {
    NotLastIsAt(events, f, index, next);
    r := AddSpan(spans, events[index].at, events[next].at, deadline, f);
    AddSpanExact(Segs(spans, f), Segs(r, f), ds, f, now, pos[index], pos[next], deadline);
  }

  /** Records the segment from `x` to the next position, if anything is active there. */
  method EmitSegment(events: seq<Event>, ghost pos: seq<int>, ds: seq<Decision>, f: Family, now: int,
                     index: nat, next: nat, active: seq<bool>, items: seq<Item>, spans: seq<Span>)
    returns (heap: seq<Item>, r: seq<Span>)
    requires Schedule(events, pos, ds, f, now) && index < next < |pos| && Group(pos, index, next, pos[index])
    requires HeapHolds(items, active, ds)
    requires forall i :: 0 <= i < |ds| ==> (active[i] <==> Spans(ds, f, now, i, pos[index]))
    requires SpansValid(spans, f)
    requires Separate(Segs(spans, f), pos[index]) && Exact(Segs(spans, f), ds, f, now, pos[index])
    ensures HeapHolds(heap, active, ds) && SpansValid(r, f)
    ensures Separate(Segs(r, f), pos[next]) && Exact(Segs(r, f), ds, f, now, pos[next])
  {
    var best;
    heap, best := Current(items, active, ds);
    if best.Some? {
      SegmentLatest(events, pos, ds, f, now, index, next, pos[index], active, best.value.index);
      r := RecordSegment(events, pos, ds, f, now, index, next, best.value.deadline, spans);
    } else {
      SegmentClear(events, pos, ds, f, now, index, next, pos[index], active, pos[next]);
      SkipSegment(Segs(spans, f), ds, f, now, pos[index], pos[next]);
      r := spans;
    }
  }

  lemma SweptLast(events: seq<Event>, pos: seq<int>, ds: seq<Decision>, f: Family, now: int, index: nat,
                  active: seq<bool>, spans: seq<Span>)
    requires Schedule(events, pos, ds, f, now) && index < |pos| && Group(pos, index, |pos|, pos[index])
    requires |active| == |ds| && forall i :: 0 <= i < |ds| ==> (active[i] <==> Spans(ds, f, now, i, pos[index]))
    requires Separate(Segs(spans, f), pos[index]) && Exact(Segs(spans, f), ds, f, now, pos[index])
    ensures Separate(Segs(spans, f), Pow2(Width(f))) && Exact(Segs(spans, f), ds, f, now, Pow2(Width(f)))
  {
    PlaceInFamily(events[index], pos[index], ds, f, now);
    SegmentClear(events, pos, ds, f, now, index, |pos|, pos[index], active, Pow2(Width(f)));
    SkipSegment(Segs(spans, f), ds, f, now, pos[index], Pow2(Width(f)));
  }

  /** The sweep: ranges of constant latest deadline, exactly over the banned addresses. */
  method Sweep(events: seq<Event>, ghost pos: seq<int>, ds: seq<Decision>, f: Family, now: int)
    returns (spans: seq<Span>)
    requires Schedule(events, pos, ds, f, now) && events != []
    ensures SpansValid(spans, f)
    ensures Separate(Segs(spans, f), Pow2(Width(f))) && Exact(Segs(spans, f), ds, f, now, Pow2(Width(f)))
  {
    NothingBeforeFirst(events, pos, ds, f, now);
    var active := seq(|ds|, _ => false);
    var heap: seq<Item> := [];
    spans := [];
    var index := 0;
    while true
      invariant Swept(pos, ds, f, now, index, active, heap, spans)
      decreases |events| - index
    {
      var next := GroupEnd(events, pos, f, index);
      active, heap := ProcessGroup(events, pos, ds, f, now, index, next, pos[index], active, heap);
      if next == |events| {
        SweptLast(events, pos, ds, f, now, index, active, spans);
        return;
      }
      GroupCarries(events, pos, ds, f, now, index, next, pos[index], active);
      heap, spans := EmitSegment(events, pos, ds, f, now, index, next, active, heap, spans);
      index := next;
    }
  }

  // ---------- From ranges to prefixes ----------

  ghost function Flatten(segs: seq<Seg>, f: Family): seq<TimedPrefix> {
    if segs == [] then []
    else
      var n := |segs| - 1;
      Flatten(segs[..n], f) + Timed(Cover(f, segs[n].lo, segs[n].hi), segs[n].deadline)
  }

  /** `t` is block `m` of the cover of `s`. */
  ghost predicate BlockOf(t: TimedPrefix, s: Seg, f: Family, m: nat) {
    m < |Cover(f, s.lo, s.hi)| && t == TimedPrefix(Cover(f, s.lo, s.hi)[m], s.deadline)
  }

  ghost predicate CutFrom(t: TimedPrefix, segs: seq<Seg>, i: nat, f: Family) {
    i < |segs| && exists m :: BlockOf(t, segs[i], f, m)
  }

  lemma {:induction false} FlattenSource(segs: seq<Seg>, f: Family, k: nat) returns (i: nat)
    requires k < |Flatten(segs, f)|
    ensures CutFrom(Flatten(segs, f)[k], segs, i, f)
    decreases |segs|
  {
    var n := |segs| - 1;
    var front := Flatten(segs[..n], f);
    if k < |front| {
      i := FlattenSource(segs[..n], f, k);
      assert segs[..n][i] == segs[i];
    } else {
      i := n;
      assert BlockOf(Flatten(segs, f)[k], segs[n], f, k - |front|);
    }
  }

  /** Blocks cut from a segment stay inside it. */
  lemma CutInside(t: TimedPrefix, segs: seq<Seg>, i: nat, f: Family, x: nat)
    requires Separate(segs, x) && x <= Pow2(Width(f)) && CutFrom(t, segs, i, f)
    ensures t.prefix.Valid() && t.prefix.fam == f && t.deadline == segs[i].deadline
    ensures segs[i].lo <= t.prefix.addr && t.prefix.End() <= segs[i].hi
  {
    var m :| BlockOf(t, segs[i], f, m);
    CoverTiles(f, segs[i].lo, segs[i].hi);
    TilesBounds(Cover(f, segs[i].lo, segs[i].hi), f, segs[i].lo, segs[i].hi);
  }

  lemma SeparateFront(segs: seq<Seg>, x: nat)
    requires Separate(segs, x) && segs != []
    ensures Separate(segs[..|segs| - 1], segs[|segs| - 1].lo)
  {
  }

  ghost predicate EndsBy(ps: seq<Prefix>, x: nat) {
    forall k :: 0 <= k < |ps| ==> ps[k].Valid() && ps[k].End() <= x
  }

  lemma FlattenStep(segs: seq<Seg>, i: nat, f: Family)
    requires i < |segs|
    ensures Flatten(segs[..i + 1], f) == Flatten(segs[..i], f) + Timed(Cover(f, segs[i].lo, segs[i].hi), segs[i].deadline)
    ensures Prefixes(Flatten(segs[..i + 1], f)) == Prefixes(Flatten(segs[..i], f)) + Cover(f, segs[i].lo, segs[i].hi)
  {
    assert segs[..i + 1][..i] == segs[..i];
  }

  lemma {:induction false} FlattenCanonical(segs: seq<Seg>, f: Family, x: nat)
    requires Separate(segs, x) && x <= Pow2(Width(f))
    ensures Canonical(Prefixes(Flatten(segs, f))) && AllOf(Prefixes(Flatten(segs, f)), f)
    ensures EndsBy(Prefixes(Flatten(segs, f)), x)
    decreases |segs|
  {
    if segs != [] {
      var n := |segs| - 1;
      var s := segs[n];
      SeparateFront(segs, x);
      FlattenCanonical(segs[..n], f, s.lo);
      CoverTiles(f, s.lo, s.hi);
      TilesBounds(Cover(f, s.lo, s.hi), f, s.lo, s.hi);
      JoinCanonical(Prefixes(Flatten(segs[..n], f)), Cover(f, s.lo, s.hi), f, s.lo, s.hi);
      FlattenStep(segs, n, f);
      assert segs[..n + 1] == segs;
    }
  }

  lemma JoinCanonical(front: seq<Prefix>, back: seq<Prefix>, f: Family, x: nat, y: nat)
    requires Canonical(front) && AllOf(front, f) && EndsBy(front, x) && x <= y
    requires EndsBy(back, y) && AllOf(back, f) && forall k :: 0 <= k < |back| ==> x <= back[k].addr
    requires forall i, j :: 0 <= i < j < |back| ==> back[i].Valid() && back[i].End() <= back[j].addr
    ensures Canonical(front + back) && AllOf(front + back, f) && EndsBy(front + back, y)
  {
    var all := front + back;
    forall i, j | 0 <= i < j < |all|
      ensures all[i].Valid() && all[j].Valid() && Before(all[i], all[j])
    {
      if j < |front| {
        assert Before(front[i], front[j]);
      } else if i < |front| {
        assert all[j] == back[j - |front|];
      } else {
        assert all[i] == back[i - |front|] && all[j] == back[j - |front|];
      }
    }
  }

  lemma {:induction false} FlattenHolds(segs: seq<Seg>, f: Family, x: nat, i: nat, a: nat)
    requires Separate(segs, x) && x <= Pow2(Width(f)) && i < |segs| && segs[i].lo <= a < segs[i].hi
    ensures Covered(Prefixes(Flatten(segs, f)), f, a)
    decreases |segs|
  {
    var n := |segs| - 1;
    var s := segs[n];
    var front, back := Flatten(segs[..n], f), Cover(f, s.lo, s.hi);
    assert Prefixes(Flatten(segs, f)) == Prefixes(front) + back;
    CoveredAppend(Prefixes(front), back, f, a);
    if i == n {
      CoverTiles(f, s.lo, s.hi);
      TilesExact(back, f, s.lo, s.hi, a);
    } else {
      SeparateFront(segs, x);
      FlattenHolds(segs[..n], f, s.lo, i, a);
    }
  }

  lemma SameSegmentNoSiblings(t: TimedPrefix, u: TimedPrefix, segs: seq<Seg>, i: nat, f: Family, x: nat)
    requires Separate(segs, x) && x <= Pow2(Width(f)) && CutFrom(t, segs, i, f) && CutFrom(u, segs, i, f)
    ensures !Siblings(t.prefix, u.prefix)
  {
    if Siblings(t.prefix, u.prefix) {
      var s := segs[i];
      CutInside(t, segs, i, f, x);
      CutInside(u, segs, i, f, x);
      SiblingsMeet(t.prefix, u.prefix);
      var m :| BlockOf(t, s, f, m);
      GreedyMaximal(f, s.lo, s.lo, s.hi, m, Parent(t.prefix));
    }
  }

  lemma EarlierSegment(t: TimedPrefix, u: TimedPrefix, segs: seq<Seg>, i: nat, j: nat, f: Family, x: nat)
    requires Separate(segs, x) && x <= Pow2(Width(f)) && i < j
    requires CutFrom(t, segs, i, f) && CutFrom(u, segs, j, f) && Siblings(t.prefix, u.prefix)
    ensures t.deadline != u.deadline
  {
    CutInside(t, segs, i, f, x);
    CutInside(u, segs, j, f, x);
    SiblingsMeet(t.prefix, u.prefix);
    EndInFamily(t.prefix);
    EndInFamily(u.prefix);
    assert segs[i].hi <= segs[j].lo;
  }

  lemma FlattenSiblings(segs: seq<Seg>, f: Family, x: nat, k: nat, m: nat)
    requires Separate(segs, x) && x <= Pow2(Width(f)) && k < |Flatten(segs, f)| && m < |Flatten(segs, f)|
    requires Siblings(Flatten(segs, f)[k].prefix, Flatten(segs, f)[m].prefix)
    ensures Flatten(segs, f)[k].deadline != Flatten(segs, f)[m].deadline
  {
    var t, u := Flatten(segs, f)[k], Flatten(segs, f)[m];
    var i := FlattenSource(segs, f, k);
    var j := FlattenSource(segs, f, m);
    if i < j {
      EarlierSegment(t, u, segs, i, j, f, x);
    } else if j < i {
      EarlierSegment(u, t, segs, j, i, f, x);
    } else {
      SameSegmentNoSiblings(t, u, segs, i, f, x);
    }
  }

  /** Cutting exact segments into blocks gives the exact projection. */
  lemma FlattenProjects(segs: seq<Seg>, ds: seq<Decision>, f: Family, now: int)
    requires AllValid(ds)
    requires Separate(segs, Pow2(Width(f))) && Exact(segs, ds, f, now, Pow2(Width(f)))
    ensures Projects(Flatten(segs, f), ds, f, now)
  {
    var x := Pow2(Width(f));
    var ts := Flatten(segs, f);
    FlattenCanonical(segs, f, x);
    forall k, a | 0 <= k < |ts| && ts[k].prefix.Valid() && ts[k].prefix.Has(f, a)
      ensures LatestAt(ds, f, now, a, ts[k].deadline)
    {
      var i := FlattenSource(segs, f, k);
      CutInside(ts[k], segs, i, f, x);
    }
    forall a: nat | Banned(ds, f, now, a)
      ensures Covered(Prefixes(ts), f, a)
    {
      var d :| Bans(ds, f, now, d, a);
      EndInFamily(ds[d].prefix);
      var i :| 0 <= i < |segs| && segs[i].lo <= a < segs[i].hi;
      FlattenHolds(segs, f, x, i, a);
    }
    forall k, m | 0 <= k < |ts| && 0 <= m < |ts| && Siblings(ts[k].prefix, ts[m].prefix)
      ensures ts[k].deadline != ts[m].deadline
    {
      FlattenSiblings(segs, f, x, k, m);
    }
  }

  lemma FlattenNext(result: seq<TimedPrefix>, segs: seq<Seg>, f: Family, i: nat, out: seq<TimedPrefix>,
                    part: seq<TimedPrefix>)
    requires i < |segs| && out == result + Flatten(segs[..i], f)
    requires part == Timed(Cover(f, segs[i].lo, segs[i].hi), segs[i].deadline)
    ensures out + part == result + Flatten(segs[..i + 1], f)
  {
    FlattenStep(segs, i, f);
  }

  /** Decomposes one range, seen as the segment it stands for. */
  method DecomposeSpan(result: seq<TimedPrefix>, span: Span, f: Family, ghost seg: Seg)
    returns (out: seq<TimedPrefix>, ghost part: seq<TimedPrefix>)
    requires span.start.Valid() && span.end.Valid(f) && seg == SegOf(span, f) && seg.lo < Pow2(Width(f))
    ensures out == result + part && part == Timed(Cover(f, seg.lo, seg.hi), seg.deadline)
  {
    out := DecomposeRange(result, span.start, span.end, span.deadline, f);
    part := Timed(Cover(f, seg.lo, seg.hi), seg.deadline);
  }

  method DecomposeAll(result: seq<TimedPrefix>, spans: seq<Span>, f: Family) returns (out: seq<TimedPrefix>)
    requires SpansValid(spans, f) && Separate(Segs(spans, f), Pow2(Width(f)))
    ensures out == result + Flatten(Segs(spans, f), f)
  {
    out := result;
    ghost var segs := Segs(spans, f);
    for i := 0 to |spans|
      invariant out == result + Flatten(segs[..i], f)
    {
      assert segs[i].lo < segs[i].hi <= Pow2(Width(f));
      ghost var before := out;
      ghost var part;
      out, part := DecomposeSpan(out, spans[i], f, segs[i]);
      FlattenNext(result, segs, f, i, before, part);
    }
    assert segs[..|spans|] == segs;
  }

  lemma NoneProjects(ds: seq<Decision>, f: Family, now: int)
    requires forall a :: !Banned(ds, f, now, a)
    ensures Projects([], ds, f, now)
  {
  }

  /** Appends the exact projection of one family. */
  method ProjectFamily(result: seq<TimedPrefix>, ds: seq<Decision>, f: Family, now: int) returns (out: seq<TimedPrefix>)
    requires AllValid(ds)
    ensures result <= out && Projects(out[|result|..], ds, f, now)
  {
    var events := BuildEvents(ds, f, now);
    NotAfterTotal();
    var sorted := Sort(NotAfter, events);
    SortedEventsOf(events, sorted, ds, f, now);
    ghost var pos := Positions(sorted, f);
    if |sorted| == 0 {
      forall a
        ensures !Banned(ds, f, now, a)
      {
        NoEvents(sorted, pos, ds, f, now, a);
      }
      NoneProjects(ds, f, now);
      assert result[|result|..] == [];
      return result;
    }
    var spans := Sweep(sorted, pos, ds, f, now);
    FlattenProjects(Segs(spans, f), ds, f, now);
    out := DecomposeAll(result, spans, f);
    assert out[|result|..] == Flatten(Segs(spans, f), f);
  }

  /** The projection of both families, IPv4 first. */
  method Project(ds: seq<Decision>, now: int) returns (out: seq<TimedPrefix>)
    requires AllValid(ds)
    ensures exists v4, v6 :: out == v4 + v6 && Projects(v4, ds, V4, now) && Projects(v6, ds, V6, now)
  {
    out := ProjectFamily([], ds, V4, now);
    ghost var v4 := out;
    assert v4[0..] == v4;
    out := ProjectFamily(out, ds, V6, now);
    assert out == v4 + out[|v4|..];
  }
}
