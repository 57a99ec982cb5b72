/** The lookup view: its indexes (internal/lookup/static.go:144-177) and the evaluation of
    a request over all cells, directions, traffic and attachments
    (internal/lookup/evaluate.go:25-135).
 */
module Lookup {
  import opened Address
  import opened Basics
  import opened Sorting
  import opened PrefixSet
  import opened Policy
  import opened Projection
  import opened Partition
  import opened Ports
  import opened Evaluate

  // ---------- Points of a request ----------

  /** One address, direction, protocol, port and attachment. */
  datatype Point = Point(addr: nat, direction: Direction, protocol: Protocol, port: nat, attachment: Attachment)

  predicate SameSite(a: Attachment, b: Attachment) {
    a.(managed := true) == b.(managed := true)
  }

  ghost predicate HoldsPoint(o: Outcome, f: Family, x: Point) {
    && o.prefix.Valid() && o.prefix.Has(f, x.addr) && o.key.direction == x.direction
    && HoldsTraffic(o.key.traffic, x.protocol, x.port) && SameSite(o.key.attachment, x.attachment)
  }

  /** The attachments of a direction, or a stand-in when it has none. */
  function Sites(attachments: map<Direction, seq<Attachment>>, d: Direction): seq<Attachment> {
    if d in attachments && attachments[d] != [] then attachments[d] else [Unattached]
  }

  /** A configured attachment of the direction, or the stand-in when none is configured. */
  ghost predicate AttachedAt(attachments: map<Direction, seq<Attachment>>, d: Direction, a: Attachment) {
    (d in attachments && a in attachments[d]) || (a == Unattached && (d in attachments ==> attachments[d] == []))
  }

  ghost predicate AsksPoint(query: Prefix, q: Request, attachments: map<Direction, seq<Attachment>>, x: Point)
    requires query.Valid()
  {
    && query.Has(query.fam, x.addr) && (q.direction.None? || q.direction.value == x.direction)
    && Asks(q, x.protocol, x.port) && AttachedAt(attachments, x.direction, x.attachment)
  }

  ghost predicate ExactlyOne(outs: seq<Outcome>, f: Family, x: Point) {
    exists i :: 0 <= i < |outs| && HoldsPoint(outs[i], f, x) && forall j :: 0 <= j < |outs| && HoldsPoint(outs[j], f, x) ==> j == i
  }

  /** A new packet at the point. */
  ghost predicate At(k: Packet, f: Family, x: Point) {
    k.fam == f && k.direction == x.direction && k.conntrack.New? && RemoteOf(RemoteFor(x.direction), k) == x.addr
    && k.protocol == x.protocol && k.port == x.port
  }

  /** The outcome's action and policy are the first match of the compiled plans at the point. */
  ghost predicate RightAt(o: Outcome, plans: seq<FamilyPlan>, bans: seq<Prefix>, f: Family, x: Point) {
    forall k: Packet :: At(k, f, x) ==>
      if x.attachment.managed then o.key.action == PlanVerdict(plans, bans, k).action && o.key.policy == PlanVerdict(plans, bans, k).policy
      else o.key.action.Return?
  }

  /** Every point asked about lies in exactly one outcome, which is right there. */
  ghost predicate Answers(outs: seq<Outcome>, plans: seq<FamilyPlan>, bans: seq<Prefix>, query: Prefix, q: Request,
                          attachments: map<Direction, seq<Attachment>>)
    requires query.Valid()
  {
    forall x :: AsksPoint(query, q, attachments, x) ==>
      ExactlyOne(outs, query.fam, x) &&
      forall i :: 0 <= i < |outs| && HoldsPoint(outs[i], query.fam, x) ==> RightAt(outs[i], plans, bans, query.fam, x)
  }

  // ---------- Tasks done ----------

  /** The outcomes are the expected ones of the work done, in the same order. */
  ghost predicate Answered(outs: seq<Outcome>, done: seq<Task>, plans: seq<FamilyPlan>, bans: seq<Prefix>,
                           explain: Explain) {
    |outs| == |done| && forall i :: 0 <= i < |outs| ==> Expected(plans, bans, explain, done[i]) == Some(outs[i])
  }

  /** Every task of a request. */
  ghost predicate TaskOf(t: Task, cells: seq<Prefix>, scopes: seq<TrafficCell>, q: Request,
                         attachments: map<Direction, seq<Attachment>>) {
    && t.cell in cells && (q.direction.None? || q.direction.value == t.direction) && t.traffic in scopes
    && t.attachment in Sites(attachments, t.direction)
  }

  ghost predicate AllManaged(attachments: map<Direction, seq<Attachment>>) {
    forall d, a :: d in attachments && a in attachments[d] ==> a.managed
  }

  lemma SiteIsOne(attachments: map<Direction, seq<Attachment>>, d: Direction, a: Attachment, b: Attachment)
    requires AllManaged(attachments) && a in Sites(attachments, d) && b in Sites(attachments, d) && SameSite(a, b)
    ensures a == b
  {
  }

  lemma SiteManaged(attachments: map<Direction, seq<Attachment>>, d: Direction, a: Attachment)
    requires AllManaged(attachments) && a in Sites(attachments, d) && Sites(attachments, d) != [Unattached]
    ensures a.managed
  {
  }

  lemma ExpectedShape(plans: seq<FamilyPlan>, bans: seq<Prefix>, explain: Explain, t: Task)
    requires Expected(plans, bans, explain, t).Some?
    ensures var o := Expected(plans, bans, explain, t).value;
            && o.prefix == t.cell && o.key.direction == t.direction && o.key.traffic == t.traffic
            && SameSite(o.key.attachment, t.attachment) && (!t.attachment.managed ==> o.key.action.Return?)
  {
  }

  /** What the parts of an evaluation have established. */
  ghost predicate Evaluated(query: Prefix, q: Request, attachments: map<Direction, seq<Attachment>>,
                            plans: seq<FamilyPlan>, bans: seq<Prefix>,
                            explain: Explain, cells: seq<Prefix>, scopes: seq<TrafficCell>, tcp: seq<PortRange>, udp: seq<PortRange>,
                            raw: seq<Outcome>, done: seq<Task>)
    requires query.Valid()
  {
    && Splits(cells, query) && TrafficSplit(scopes, q, tcp, udp) && AllManaged(attachments)
    && Answered(raw, done, plans, bans, explain)
    && (forall t :: TaskOf(t, cells, scopes, q, attachments) <==> t in done)
    && (forall t :: t in done ==> Fit(plans, bans, t, tcp, udp))
  }

  /** Every point asked about belongs to a finished task. */
  lemma TaskFor(query: Prefix, q: Request, attachments: map<Direction, seq<Attachment>>, plans: seq<FamilyPlan>,
                bans: seq<Prefix>,
                explain: Explain, cells: seq<Prefix>, scopes: seq<TrafficCell>, tcp: seq<PortRange>, udp: seq<PortRange>,
                raw: seq<Outcome>, done: seq<Task>, x: Point) returns (t: Task)
    requires query.Valid() && Evaluated(query, q, attachments, plans, bans, explain, cells, scopes, tcp, udp, raw, done)
    requires AsksPoint(query, q, attachments, x)
    ensures t in done && t.cell.Valid() && t.cell.Has(query.fam, x.addr) && t.direction == x.direction
    ensures HoldsTraffic(t.traffic, x.protocol, x.port) && t.attachment == x.attachment
    ensures Expected(plans, bans, explain, t).Some? && Expected(plans, bans, explain, t).value in raw
  {
    assert Covered(cells, query.fam, x.addr);
    var i :| 0 <= i < |cells| && cells[i].Valid() && cells[i].Has(query.fam, x.addr);
    assert Held(scopes, x.protocol, x.port);
    var j :| 0 <= j < |scopes| && HoldsTraffic(scopes[j], x.protocol, x.port);
    t := Task(cells[i], x.direction, scopes[j], x.attachment);
    assert TaskOf(t, cells, scopes, q, attachments);
    var n :| 0 <= n < |done| && done[n] == t;
    assert raw[n] in raw;
  }

  /** Any outcome that holds the point says what its task expects. */
  lemma OneTask(query: Prefix, q: Request, attachments: map<Direction, seq<Attachment>>, plans: seq<FamilyPlan>,
                bans: seq<Prefix>,
                explain: Explain, cells: seq<Prefix>, scopes: seq<TrafficCell>, tcp: seq<PortRange>, udp: seq<PortRange>,
                raw: seq<Outcome>, done: seq<Task>, x: Point, t: Task, o: Outcome)
    requires query.Valid() && Evaluated(query, q, attachments, plans, bans, explain, cells, scopes, tcp, udp, raw, done)
    requires t in done && t.cell.Valid() && t.cell.Has(query.fam, x.addr) && t.direction == x.direction
    requires HoldsTraffic(t.traffic, x.protocol, x.port) && t.attachment == x.attachment
    requires o in raw && HoldsPoint(o, query.fam, x)
    ensures Expected(plans, bans, explain, t) == Some(o)
  {
    var n :| 0 <= n < |raw| && raw[n] == o;
    var s := done[n];
    assert s in done;
    ExpectedShape(plans, bans, explain, s);
    assert TaskOf(s, cells, scopes, q, attachments) && TaskOf(t, cells, scopes, q, attachments);
    SiteIsOne(attachments, x.direction, s.attachment, t.attachment);
    OneCellHolds(cells, query.fam, x.addr, s.cell, t.cell);
    assert s.traffic == t.traffic;
    assert s == t;
  }

  lemma OneCellHolds(cells: seq<Prefix>, f: Family, a: nat, p: Prefix, r: Prefix)
    requires Apart(cells) && p in cells && r in cells && p.Valid() && r.Valid() && p.Has(f, a) && r.Has(f, a)
    ensures p == r
  {
    var i :| 0 <= i < |cells| && cells[i] == p;
    var j :| 0 <= j < |cells| && cells[j] == r;
  }

  lemma SaysPoint(outs: seq<Outcome>, f: Family, x: Point, i: nat) returns (key: Key)
    requires i < |outs| && HoldsPoint(outs[i], f, x)
    ensures key == outs[i].key && Says(outs, key, f, x.addr)
  {
    key := outs[i].key;
  }

  /** Coalescing what was evaluated answers the request. */
  lemma EvaluatedAnswers(query: Prefix, q: Request, attachments: map<Direction, seq<Attachment>>,
                         plans: seq<FamilyPlan>, bans: seq<Prefix>,
                         explain: Explain, cells: seq<Prefix>, scopes: seq<TrafficCell>, tcp: seq<PortRange>, udp: seq<PortRange>,
                         raw: seq<Outcome>, done: seq<Task>, outs: seq<Outcome>)
    requires query.Valid() && Evaluated(query, q, attachments, plans, bans, explain, cells, scopes, tcp, udp, raw, done)
    requires NoRepeats(outs) && forall key, f, a :: Says(outs, key, f, a) <==> Says(raw, key, f, a)
    ensures Answers(outs, plans, bans, query, q, attachments)
  {
    forall x | AsksPoint(query, q, attachments, x)
      ensures ExactlyOne(outs, query.fam, x)
      ensures forall i :: 0 <= i < |outs| && HoldsPoint(outs[i], query.fam, x) ==> RightAt(outs[i], plans, bans, query.fam, x)
    {
      var t := TaskFor(query, q, attachments, plans, bans, explain, cells, scopes, tcp, udp, raw, done, x);
      var o := Expected(plans, bans, explain, t).value;
      ExpectedShape(plans, bans, explain, t);
      forall i | 0 <= i < |outs| && HoldsPoint(outs[i], query.fam, x)
        ensures outs[i].key == o.key
      {
        var key := SaysPoint(outs, query.fam, x, i);
        assert Says(raw, key, query.fam, x.addr);
        var j :| 0 <= j < |raw| && raw[j].key == key && raw[j].prefix.Valid() && raw[j].prefix.Has(query.fam, x.addr);
        OneTask(query, q, attachments, plans, bans, explain, cells, scopes, tcp, udp, raw, done, x, t, raw[j]);
      }
      HeldOnce(raw, outs, query.fam, x, o);
      forall i | 0 <= i < |outs| && HoldsPoint(outs[i], query.fam, x)
        ensures RightAt(outs[i], plans, bans, query.fam, x)
      {
        RightByTask(plans, bans, explain, t, tcp, udp, query.fam, x, outs[i]);
      }
    }
  }

  /** How an outcome names its attachment: as managed only when a compiled path decides. */
  function Placed(plans: seq<FamilyPlan>, f: Family, d: Direction, site: Attachment): Attachment {
    if site.managed && PlanOf(plans, f).Some? && PathOf(PlanOf(plans, f).value.paths, d).Some? then site else site.(managed := false)
  }

  ghost predicate KeyShaped(key: Key, plans: seq<FamilyPlan>, f: Family, q: Request,
                            attachments: map<Direction, seq<Attachment>>) {
    && (q.direction.None? || q.direction.value == key.direction)
    && (q.protocol.None? || q.protocol.value == key.traffic.protocol)
    && (key.traffic.ports.None? <==> Portless(key.traffic.protocol))
    && (key.traffic.ports.Some? ==> key.traffic.ports.value.start <= key.traffic.ports.value.end < PORTS)
    && (q.port.Some? ==> key.traffic.ports == Some(PortRange(q.port.value, q.port.value)))
    && exists site :: site in Sites(attachments, key.direction) && key.attachment == Placed(plans, f, key.direction, site)
  }

  /** Every outcome stays inside the request. */
  ghost predicate Shaped(outs: seq<Outcome>, plans: seq<FamilyPlan>, query: Prefix, q: Request,
                         attachments: map<Direction, seq<Attachment>>)
    requires query.Valid()
  {
    forall i :: 0 <= i < |outs| ==>
      outs[i].prefix.Valid() && query.Covers(outs[i].prefix) && KeyShaped(outs[i].key, plans, query.fam, q, attachments)
  }

  lemma RawShaped(query: Prefix, q: Request, attachments: map<Direction, seq<Attachment>>, plans: seq<FamilyPlan>,
                  bans: seq<Prefix>,
                  explain: Explain, cells: seq<Prefix>, scopes: seq<TrafficCell>, tcp: seq<PortRange>, udp: seq<PortRange>,
                  raw: seq<Outcome>, done: seq<Task>)
    requires query.Valid() && Evaluated(query, q, attachments, plans, bans, explain, cells, scopes, tcp, udp, raw, done)
    ensures Shaped(raw, plans, query, q, attachments)
  {
    forall i | 0 <= i < |raw|
      ensures raw[i].prefix.Valid() && query.Covers(raw[i].prefix) && KeyShaped(raw[i].key, plans, query.fam, q, attachments)
    {
      var t := done[i];
      assert t in done && TaskOf(t, cells, scopes, q, attachments);
      ExpectedShape(plans, bans, explain, t);
      var n :| 0 <= n < |cells| && cells[n] == t.cell;
      assert TrafficConstant(t.traffic, tcp, udp);
      assert raw[i].key.attachment == Placed(plans, query.fam, t.direction, t.attachment);
    }
  }

  lemma CoalescedShaped(raw: seq<Outcome>, outs: seq<Outcome>, plans: seq<FamilyPlan>, query: Prefix, q: Request,
                        attachments: map<Direction, seq<Attachment>>)
    requires query.Valid() && Shaped(raw, plans, query, q, attachments) && NoRepeats(outs)
    requires forall key, f, a :: Says(outs, key, f, a) <==> Says(raw, key, f, a)
    ensures Shaped(outs, plans, query, q, attachments)
  {
    forall i | 0 <= i < |outs|
      ensures outs[i].prefix.Valid() && query.Covers(outs[i].prefix) && KeyShaped(outs[i].key, plans, query.fam, q, attachments)
    {
      var p, key := outs[i].prefix, outs[i].key;
      EndInFamily(p);
      assert Says(outs, key, p.fam, p.addr) && Says(outs, key, p.fam, p.End() - 1);
      assert Says(raw, key, p.fam, p.addr) && Says(raw, key, p.fam, p.End() - 1);
      var j :| 0 <= j < |raw| && raw[j].key == key && raw[j].prefix.Valid() && raw[j].prefix.Has(p.fam, p.addr);
      var k :| 0 <= k < |raw| && raw[k].key == key && raw[k].prefix.Valid() && raw[k].prefix.Has(p.fam, p.End() - 1);
      assert query.Covers(raw[j].prefix) && query.Covers(raw[k].prefix);
    }
  }

  lemma HeldOnce(raw: seq<Outcome>, outs: seq<Outcome>, f: Family, x: Point, o: Outcome)
    requires NoRepeats(outs) && o in raw && HoldsPoint(o, f, x)
    requires forall key, f, a :: Says(outs, key, f, a) <==> Says(raw, key, f, a)
    requires forall i :: 0 <= i < |outs| && HoldsPoint(outs[i], f, x) ==> outs[i].key == o.key
    ensures ExactlyOne(outs, f, x)
  {
    var n :| 0 <= n < |raw| && raw[n] == o;
    assert Says(raw, o.key, f, x.addr);
    assert Says(outs, o.key, f, x.addr);
    var i :| 0 <= i < |outs| && outs[i].key == o.key && outs[i].prefix.Valid() && outs[i].prefix.Has(f, x.addr);
    assert HoldsPoint(outs[i], f, x);
    forall j | 0 <= j < |outs| && HoldsPoint(outs[j], f, x)
      ensures j == i
    {
    }
  }

  lemma RightByTask(plans: seq<FamilyPlan>, bans: seq<Prefix>, explain: Explain, t: Task, tcp: seq<PortRange>,
                    udp: seq<PortRange>,
                    f: Family, x: Point, o: Outcome)
    requires Fit(plans, bans, t, tcp, udp) && t.cell.Has(f, x.addr) && t.direction == x.direction
    requires HoldsTraffic(t.traffic, x.protocol, x.port) && t.attachment == x.attachment
    requires Expected(plans, bans, explain, t).Some? && o.key == Expected(plans, bans, explain, t).value.key
    ensures RightAt(o, plans, bans, f, x)
  {
    ExpectedShape(plans, bans, explain, t);
    forall k: Packet | At(k, f, x) && x.attachment.managed
      ensures o.key.action == PlanVerdict(plans, bans, k).action && o.key.policy == PlanVerdict(plans, bans, k).policy
    {
      ExpectedRight(plans, bans, explain, t, tcp, udp, k);
    }
  }

  // ---------- Indexes ----------

  ghost predicate ValidBounds(bounds: seq<Prefix>, f: Family) {
    forall p :: p in bounds ==> p.Valid() && p.fam == f
  }

  ghost predicate HoldsSets(bounds: seq<Prefix>, sets: seq<NamedSet>) {
    forall i, p :: 0 <= i < |sets| && p in sets[i].prefixes ==> p in bounds
  }

  function BoundsOf(boundaries: map<Family, seq<Prefix>>, f: Family): seq<Prefix> {
    if f in boundaries then boundaries[f] else []
  }

  function IndexOf(index: map<Family, SetIndex>, f: Family): SetIndex {
    if f in index then index[f] else map[]
  }

  ghost predicate PlanIndexed(plan: FamilyPlan, index: map<Family, SetIndex>, boundaries: map<Family, seq<Prefix>>) {
    IndexFor(IndexOf(index, plan.fam), plan) && HoldsSets(BoundsOf(boundaries, plan.fam), plan.sets)
  }

  ghost predicate BoundsValid(boundaries: map<Family, seq<Prefix>>) {
    forall f :: f in boundaries ==> ValidBounds(boundaries[f], f)
  }

  /** Each entry of the index is one of the first `n` sets, and each of these has one. */
  ghost predicate IndexesFirst(index: SetIndex, sets: seq<NamedSet>, n: nat) {
    && (forall id :: id in index ==> EntryOf(index, sets, n, id))
    && (forall j :: 0 <= j < n <= |sets| ==> sets[j].id in index)
  }

  ghost predicate EntryOf(index: SetIndex, sets: seq<NamedSet>, n: nat, id: SetID)
    requires id in index
  {
    exists j :: 0 <= j < n <= |sets| && sets[j].id == id && index[id] == sets[j].prefixes
  }

  lemma IndexNext(index: SetIndex, sets: seq<NamedSet>, n: nat)
    requires n < |sets| && IndexesFirst(index, sets, n)
    ensures IndexesFirst(index[sets[n].id := sets[n].prefixes], sets, n + 1)
  {
    var next := index[sets[n].id := sets[n].prefixes];
    forall id | id in next
      ensures EntryOf(next, sets, n + 1, id)
    {
      if id != sets[n].id {
        assert EntryOf(index, sets, n, id);
      }
    }
  }

  lemma IndexDone(index: SetIndex, plan: FamilyPlan)
    requires UniqueIDs(plan.sets) && IndexesFirst(index, plan.sets, |plan.sets|)
    ensures IndexFor(index, plan)
  {
    forall id
      ensures Entries(index, id) == if Find(plan.sets, id).Some? then Find(plan.sets, id).value.prefixes else []
    {
      if id in index {
        assert EntryOf(index, plan.sets, |plan.sets|, id);
        var j :| 0 <= j < |plan.sets| && plan.sets[j].id == id && index[id] == plan.sets[j].prefixes;
        FindUnique(plan.sets, plan.sets[j]);
      }
    }
  }

  /** Adds the sets of one plan to the index and to the boundaries. */
  method AddSets(plan: FamilyPlan, bounds: seq<Prefix>) returns (index: SetIndex, more: seq<Prefix>)
    requires PlanReady(plan) && ValidBounds(bounds, plan.fam)
    ensures IndexFor(index, plan) && ValidBounds(more, plan.fam) && HoldsSets(more, plan.sets)
    ensures forall p :: p in bounds ==> p in more
  {
    index, more := map[], bounds;
    for i := 0 to |plan.sets|
      invariant IndexesFirst(index, plan.sets, i)
      invariant ValidBounds(more, plan.fam) && HoldsSets(more, plan.sets[..i]) && forall p :: p in bounds ==> p in more
    {
      var x := plan.sets[i];
      assert SetReady(x, plan.fam);
      assert forall p :: p in x.prefixes ==> p.Valid() && p.fam == plan.fam;
      IndexNext(index, plan.sets, i);
      index := index[x.id := x.prefixes];
      more := more + x.prefixes;
    }
    assert plan.sets[..|plan.sets|] == plan.sets;
    IndexDone(index, plan);
  }

  /** Sorts the boundaries of a family and removes duplicates. */
  method SortBounds(bounds: seq<Prefix>, f: Family) returns (r: seq<Prefix>)
    requires ValidBounds(bounds, f)
    ensures SortedBlocks(r, f) && forall p :: p in r <==> p in bounds
  {
    LeqTotal();
    var sorted := Sort(Leq, bounds);
    SameElements(sorted, bounds);
    r := Compact(sorted);
    assert forall i :: 0 <= i < |r| ==> r[i] in r;
  }

  // ---------- Evidence ----------

  ghost predicate ValidEvidence(ev: Evidence) {
    && (forall i :: 0 <= i < |ev.prefixes| ==> ev.prefixes[i].prefix.Valid() && ev.prefixes[i].deadline != 0)
    && (forall i :: 0 <= i < |ev.decisions| ==> ev.decisions[i].prefix.Valid() && ev.decisions[i].id > 0 && ev.decisions[i].deadline != 0)
  }

  /** Checks the evidence entry by entry. */
  method CheckEvidence(ev: Evidence) returns (ok: bool)
    ensures ok <==> ValidEvidence(ev)
  {
    for i := 0 to |ev.prefixes|
      invariant forall j :: 0 <= j < i ==> ev.prefixes[j].prefix.Valid() && ev.prefixes[j].deadline != 0
    {
      if !ev.prefixes[i].prefix.Valid() || ev.prefixes[i].deadline == 0 {
        return false;
      }
    }
    for i := 0 to |ev.decisions|
      invariant forall j :: 0 <= j < i ==>
                  ev.decisions[j].prefix.Valid() && ev.decisions[j].id > 0 && ev.decisions[j].deadline != 0
    {
      if ev.decisions[i].id <= 0 || !ev.decisions[i].prefix.Valid() || ev.decisions[i].deadline == 0 {
        return false;
      }
    }
    return true;
  }

  function DecisionPrefixes(ds: seq<Decision>): (r: seq<Prefix>)
    ensures |r| == |ds| && forall i :: 0 <= i < |ds| ==> r[i] == ds[i].prefix
  {
    seq(|ds|, i requires 0 <= i < |ds| => ds[i].prefix)
  }

  predicate Overlaps(p: Prefix, q: Prefix)
    requires p.Valid() && q.Valid()
  {
    p.Has(q.fam, q.addr) || q.Has(p.fam, p.addr)
  }

  lemma OverlapsIs(p: Prefix, q: Prefix)
    requires p.Valid() && q.Valid()
    ensures Overlaps(p, q) <==> !p.Disjoint(q)
  {
    EndInFamily(p);
    EndInFamily(q);
  }

  /** Nothing that touches the cell has lapsed. */
  ghost predicate Certain(ev: Evidence, cell: Prefix, now: int) {
    && cell.Valid() && ValidEvidence(ev)
    && (forall i :: 0 <= i < |ev.prefixes| ==> ev.prefixes[i].deadline > now || ev.prefixes[i].prefix.Disjoint(cell))
    && (forall i :: 0 <= i < |ev.decisions| ==> ev.decisions[i].deadline > now || ev.decisions[i].prefix.Disjoint(cell))
  }

  method UncertainDynamic(ev: Evidence, cell: Prefix, now: int) returns (r: bool)
    requires ValidEvidence(ev) && cell.Valid()
    ensures r <==> !Certain(ev, cell, now)
  {
    for i := 0 to |ev.prefixes|
      invariant forall j :: 0 <= j < i ==> ev.prefixes[j].deadline > now || ev.prefixes[j].prefix.Disjoint(cell)
    {
      OverlapsIs(ev.prefixes[i].prefix, cell);
      if ev.prefixes[i].deadline <= now && Overlaps(ev.prefixes[i].prefix, cell) {
        return true;
      }
    }
    for i := 0 to |ev.decisions|
      invariant forall j :: 0 <= j < i ==> ev.decisions[j].deadline > now || ev.decisions[j].prefix.Disjoint(cell)
    {
      OverlapsIs(ev.decisions[i].prefix, cell);
      if ev.decisions[i].deadline <= now && Overlaps(ev.decisions[i].prefix, cell) {
        return true;
      }
    }
    return false;
  }

  lemma DisjointFromCells(p: Prefix, query: Prefix, cells: seq<Prefix>)
    requires p.Valid() && query.Valid() && Splits(cells, query) && !p.Disjoint(query)
    ensures exists c :: c in cells && c.Valid() && !p.Disjoint(c)
  {
    OverlapsIs(p, query);
    EndInFamily(p);
    EndInFamily(query);
    var a := if query.Has(p.fam, p.addr) then p.addr else query.addr;
    assert Covered(cells, query.fam, a);
    var i :| 0 <= i < |cells| && cells[i].Valid() && cells[i].Has(query.fam, a);
    assert cells[i] in cells && !p.Disjoint(cells[i]);
  }

  lemma CertainEverywhere(ev: Evidence, query: Prefix, cells: seq<Prefix>, now: int)
    requires query.Valid() && ValidEvidence(ev) && Splits(cells, query) && forall c :: c in cells ==> Certain(ev, c, now)
    ensures Certain(ev, query, now)
  {
    forall i | 0 <= i < |ev.prefixes| && ev.prefixes[i].deadline <= now
      ensures ev.prefixes[i].prefix.Disjoint(query)
    {
      if !ev.prefixes[i].prefix.Disjoint(query) {
        DisjointFromCells(ev.prefixes[i].prefix, query, cells);
      }
    }
    forall i | 0 <= i < |ev.decisions| && ev.decisions[i].deadline <= now
      ensures ev.decisions[i].prefix.Disjoint(query)
    {
      if !ev.decisions[i].prefix.Disjoint(query) {
        DisjointFromCells(ev.decisions[i].prefix, query, cells);
      }
    }
  }

  lemma ConstantPart(all: seq<Prefix>, part: seq<Prefix>, cell: Prefix)
    requires ConstantOn(all, cell) && forall p :: p in part ==> p in all
    ensures ConstantOn(part, cell)
  {
    forall i | 0 <= i < |part| && part[i].Valid()
      ensures Constant(part[i], cell)
    {
      assert part[i] in all;
      var j :| 0 <= j < |all| && all[j] == part[i];
    }
  }

  // ---------- Port ranges ----------

  ghost predicate AllFit(ranges: seq<PortRange>) {
    forall x :: x in ranges ==> Fits16(x)
  }

  ghost predicate Grows(a: seq<PortRange>, b: seq<PortRange>) {
    forall x :: x in a ==> x in b
  }

  lemma RangesGrow(rules: seq<Rule>, tcp: seq<PortRange>, udp: seq<PortRange>, tcp': seq<PortRange>,
                   udp': seq<PortRange>)
    requires (forall j :: 0 <= j < |rules| ==> RuleRangesIn(rules[j], tcp, udp)) && Grows(tcp, tcp') && Grows(udp, udp')
    ensures forall j :: 0 <= j < |rules| ==> RuleRangesIn(rules[j], tcp', udp')
  {
    forall j | 0 <= j < |rules|
      ensures RuleRangesIn(rules[j], tcp', udp')
    {
      assert RuleRangesIn(rules[j], tcp, udp);
    }
  }

  /** The port ranges of one path's restricted rules, added to those given. */
  method CollectPath(path: Path, ghost sets: seq<NamedSet>, tcp: seq<PortRange>, udp: seq<PortRange>)
    returns (t: seq<PortRange>, u: seq<PortRange>)
    requires PathReady(path, sets) && AllFit(tcp) && AllFit(udp)
    ensures PathRangesIn(path, t, u) && AllFit(t) && AllFit(u) && Grows(tcp, t) && Grows(udp, u)
  {
    t, u := tcp, udp;
    for i := 0 to |path.rules|
      invariant (forall j :: 0 <= j < i ==> RuleRangesIn(path.rules[j], t, u)) && AllFit(t) && AllFit(u) && Grows(tcp, t) && Grows(udp, u)
    {
      var s := path.rules[i].guard.traffic;
      assert RuleReady(path.rules[i], sets);
      if !s.any {
        ghost var before, beforeU := t, u;
        t, u := t + s.tcp, u + s.udp;
        RangesGrow(path.rules[..i], before, beforeU, t, u);
        assert forall j :: 0 <= j < i ==> path.rules[..i][j] == path.rules[j];
      }
    }
  }

  /** Every port range a rule of the plan mentions. */
  method CollectRanges(plan: Option<FamilyPlan>) returns (tcp: seq<PortRange>, udp: seq<PortRange>)
    requires plan.Some? ==> PlanReady(plan.value)
    ensures AllFit(tcp) && AllFit(udp) && (plan.Some? ==> RangesIn(plan.value, tcp, udp))
  {
    tcp, udp := [], [];
    if plan.Some? {
      var paths := plan.value.paths;
      for i := 0 to |paths|
        invariant AllFit(tcp) && AllFit(udp) && forall j :: 0 <= j < i ==> PathRangesIn(paths[j], tcp, udp)
      {
        ghost var before, beforeU := tcp, udp;
        assert PathReady(paths[i], plan.value.sets);
        tcp, udp := CollectPath(paths[i], plan.value.sets, tcp, udp);
        forall j | 0 <= j < i
          ensures PathRangesIn(paths[j], tcp, udp)
        {
          RangesGrow(paths[j].rules, before, beforeU, tcp, udp);
        }
      }
    }
  }

  // ---------- The view ----------

  /** A request with its cells. */
  datatype Job = Job(fam: Family, q: Request, ev: Evidence, now: int, explain: Explain,
                     cells: seq<Prefix>, scopes: seq<TrafficCell>, tcp: seq<PortRange>, udp: seq<PortRange>)

  datatype Attempt = Done(outs: seq<Outcome>, records: nat) | Failed(why: Trouble)

  // ---------- The headline ----------

  /** Blocked when some outcome stops and none lets through, mixed when both occur. */
  method Summarize(outs: seq<Outcome>) returns (v: Overall)
    ensures v.NotBlocked? <==> forall i :: 0 <= i < |outs| ==> outs[i].key.action.Return?
    ensures v.Blocked? <==> outs != [] && forall i :: 0 <= i < |outs| ==> !outs[i].key.action.Return?
  {
    var blocked, clear := false, false;
    for i := 0 to |outs|
      invariant blocked <==> exists j :: 0 <= j < i && !outs[j].key.action.Return?
      invariant clear <==> exists j :: 0 <= j < i && outs[j].key.action.Return?
      invariant i > 0 ==> blocked || clear
    {
      if outs[i].key.action.Return? {
        clear := true;
      } else {
        blocked := true;
      }
    }
    v := if blocked && clear then Mixed else if blocked then Blocked else NotBlocked;
  }

  /** The plans let every new packet at the point through, or nothing is managed there. */
  ghost predicate LetsAt(plans: seq<FamilyPlan>, bans: seq<Prefix>, f: Family, x: Point) {
    forall k: Packet :: At(k, f, x) && x.attachment.managed ==> PlanVerdict(plans, bans, k).action.Return?
  }

  /** The point is managed, and the plans stop every new packet there. */
  ghost predicate StopsAt(plans: seq<FamilyPlan>, bans: seq<Prefix>, f: Family, x: Point) {
    x.attachment.managed && forall k: Packet :: At(k, f, x) ==> !PlanVerdict(plans, bans, k).action.Return?
  }

  /** Not blocked when every point asked about is let through, blocked when every one is stopped, and mixed
      otherwise. */
  ghost predicate Tells(v: Overall, plans: seq<FamilyPlan>, bans: seq<Prefix>, query: Prefix, q: Request,
                        attachments: map<Direction, seq<Attachment>>)
    requires query.Valid()
  {
    && (v.NotBlocked? <==> forall x :: AsksPoint(query, q, attachments, x) ==> LetsAt(plans, bans, query.fam, x))
    && (v.Blocked? <==> forall x :: AsksPoint(query, q, attachments, x) ==> StopsAt(plans, bans, query.fam, x))
  }

  lemma PacketAt(f: Family, x: Point) returns (k: Packet)
    ensures At(k, f, x)
  {
    k := Packet(f, x.direction, x.addr, x.addr, x.protocol, x.port, New);
  }

  /** At a point an outcome holds, it lets through or stops exactly as the plans do. */
  lemma OutcomeTells(outs: seq<Outcome>, i: nat, plans: seq<FamilyPlan>, bans: seq<Prefix>, query: Prefix, q: Request,
                     attachments: map<Direction, seq<Attachment>>, x: Point)
    requires query.Valid() && Answers(outs, plans, bans, query, q, attachments) && i < |outs|
    requires AsksPoint(query, q, attachments, x) && HoldsPoint(outs[i], query.fam, x)
    ensures LetsAt(plans, bans, query.fam, x) <==> outs[i].key.action.Return?
    ensures StopsAt(plans, bans, query.fam, x) <==> !outs[i].key.action.Return?
  {
    var k := PacketAt(query.fam, x);
    assert RightAt(outs[i], plans, bans, query.fam, x);
  }

  /** Every outcome holds some point asked about. */
  lemma OutcomeHolds(outs: seq<Outcome>, i: nat, plans: seq<FamilyPlan>, query: Prefix, q: Request,
                     attachments: map<Direction, seq<Attachment>>)
    returns (x: Point)
    requires query.Valid() && q.Normalized() && Shaped(outs, plans, query, q, attachments) && i < |outs|
    ensures AsksPoint(query, q, attachments, x) && HoldsPoint(outs[i], query.fam, x)
  {
    var o := outs[i];
    assert KeyShaped(o.key, plans, query.fam, q, attachments);
    var site :| site in Sites(attachments, o.key.direction) && o.key.attachment == Placed(plans, query.fam, o.key.direction, site);
    EndInFamily(o.prefix);
    var port := if o.key.traffic.ports.Some? then o.key.traffic.ports.value.start else 0;
    x := Point(o.prefix.addr, o.key.direction, o.key.traffic.protocol, port, site);
  }

  lemma SomePoint(query: Prefix, q: Request, attachments: map<Direction, seq<Attachment>>) returns (x: Point)
    requires query.Valid() && q.Normalized()
    ensures AsksPoint(query, q, attachments, x)
  {
    EndInFamily(query);
    var d := if q.direction.Some? then q.direction.value else Ingress;
    x := Point(query.addr, d, if q.protocol.Some? then q.protocol.value else TCP, if q.port.Some? then q.port.value else 0,
               Sites(attachments, d)[0]);
  }

  lemma PointHeld(outs: seq<Outcome>, plans: seq<FamilyPlan>, bans: seq<Prefix>, query: Prefix, q: Request,
                  attachments: map<Direction, seq<Attachment>>, x: Point)
    returns (i: nat)
    requires query.Valid() && Answers(outs, plans, bans, query, q, attachments) && AsksPoint(query, q, attachments, x)
    ensures i < |outs| && HoldsPoint(outs[i], query.fam, x)
  {
    assert ExactlyOne(outs, query.fam, x);
    i :| i < |outs| && HoldsPoint(outs[i], query.fam, x);
  }

  lemma HeadlineTells(v: Overall, outs: seq<Outcome>, plans: seq<FamilyPlan>, bans: seq<Prefix>, query: Prefix,
                      q: Request,
                      attachments: map<Direction, seq<Attachment>>)
    requires query.Valid() && q.Normalized() && Answers(outs, plans, bans, query, q, attachments)
    requires Shaped(outs, plans, query, q, attachments)
    requires v.NotBlocked? <==> forall i :: 0 <= i < |outs| ==> outs[i].key.action.Return?
    requires v.Blocked? <==> outs != [] && forall i :: 0 <= i < |outs| ==> !outs[i].key.action.Return?
    ensures Tells(v, plans, bans, query, q, attachments)
  {
    PointsTell(v, outs, plans, bans, query, q, attachments);
    if !v.NotBlocked? {
      var i :| 0 <= i < |outs| && !outs[i].key.action.Return?;
      var x := OutcomeHolds(outs, i, plans, query, q, attachments);
      OutcomeTells(outs, i, plans, bans, query, q, attachments, x);
    }
    if !v.Blocked? {
      var i := NotStopping(outs, plans, bans, query, q, attachments);
      var x := OutcomeHolds(outs, i, plans, query, q, attachments);
      OutcomeTells(outs, i, plans, bans, query, q, attachments, x);
    }
  }

  lemma NotStopping(outs: seq<Outcome>, plans: seq<FamilyPlan>, bans: seq<Prefix>, query: Prefix, q: Request,
                    attachments: map<Direction, seq<Attachment>>)
    returns (i: nat)
    requires query.Valid() && q.Normalized() && Answers(outs, plans, bans, query, q, attachments)
    requires outs == [] || exists i :: 0 <= i < |outs| && outs[i].key.action.Return?
    ensures i < |outs| && outs[i].key.action.Return?
  {
    var x := SomePoint(query, q, attachments);
    i := PointHeld(outs, plans, bans, query, q, attachments, x);
    i :| 0 <= i < |outs| && outs[i].key.action.Return?;
  }

  lemma PointsTell(v: Overall, outs: seq<Outcome>, plans: seq<FamilyPlan>, bans: seq<Prefix>, query: Prefix, q: Request,
                   attachments: map<Direction, seq<Attachment>>)
    requires query.Valid() && Answers(outs, plans, bans, query, q, attachments)
    requires v.NotBlocked? ==> forall i :: 0 <= i < |outs| ==> outs[i].key.action.Return?
    requires v.Blocked? ==> forall i :: 0 <= i < |outs| ==> !outs[i].key.action.Return?
    ensures v.NotBlocked? ==> forall x :: AsksPoint(query, q, attachments, x) ==> LetsAt(plans, bans, query.fam, x)
    ensures v.Blocked? ==> forall x :: AsksPoint(query, q, attachments, x) ==> StopsAt(plans, bans, query.fam, x)
  {
    forall x | AsksPoint(query, q, attachments, x)
      ensures v.NotBlocked? ==> LetsAt(plans, bans, query.fam, x)
      ensures v.Blocked? ==> StopsAt(plans, bans, query.fam, x)
    {
      var i := PointHeld(outs, plans, bans, query, q, attachments, x);
      OutcomeTells(outs, i, plans, bans, query, q, attachments, x);
    }
  }

  /** One plan per family, each fit to be looked up; every compiled configuration has such plans. */
  ghost predicate PlansReady(families: seq<FamilyPlan>) {
    && (forall i :: 0 <= i < |families| ==> PlanReady(families[i]))
    && (forall i, j :: 0 <= i < j < |families| ==> families[i].fam != families[j].fam)
  }

  lemma SomeScope(q: Request, scopes: seq<TrafficCell>, tcp: seq<PortRange>, udp: seq<PortRange>)
    returns (s: TrafficCell)
    requires q.Normalized() && TrafficSplit(scopes, q, tcp, udp)
    ensures s in scopes
  {
    var protocol := if q.protocol.Some? then q.protocol.value else TCP;
    var port := if q.port.Some? then q.port.value else 0;
    assert Asks(q, protocol, port);
    assert Held(scopes, protocol, port);
    var i :| 0 <= i < |scopes| && HoldsTraffic(scopes[i], protocol, port);
    s := scopes[i];
  }

  /** An immutable view of one committed target, with its indexes. */
  class Static {
    const families: seq<FamilyPlan>
    const records: seq<Prefix>
    const crowdsec: bool
    const attachments: map<Direction, seq<Attachment>>
    var setIndex: map<Family, SetIndex>
    var boundaries: map<Family, seq<Prefix>>

    ghost predicate Ready() {
      PlansReady(families) && AllManaged(attachments) && forall i :: 0 <= i < |records| ==> records[i].Valid()
    }

    /** Every set can be looked up, and every prefix of every set is a boundary of its family. */
    ghost predicate Indexed()
      reads this
    {
      && (forall i :: 0 <= i < |families| ==> PlanIndexed(families[i], setIndex, boundaries))
      && (forall f :: f in boundaries ==> SortedBlocks(boundaries[f], f))
    }

    constructor (families: seq<FamilyPlan>, records: seq<Prefix>, crowdsec: bool, attachments: map<Direction, seq<Attachment>>)
      ensures this.families == families && this.records == records && this.crowdsec == crowdsec && this.attachments == attachments
      ensures setIndex == map[] && boundaries == map[]
    {
      this.families, this.records, this.crowdsec, this.attachments := families, records, crowdsec, attachments;
      setIndex, boundaries := map[], map[];
    }

    method BuildIndexes()
      requires Ready() && setIndex == map[] && boundaries == map[]
      modifies this
      ensures Indexed()
      ensures forall i :: 0 <= i < |records| ==> records[i] in BoundsOf(boundaries, records[i].fam)
    {
      AddPlans();
      AddRecords();
      SortAll();
    }

    method AddPlans()
      requires Ready() && setIndex == map[] && boundaries == map[]
      modifies this
      ensures (forall i :: 0 <= i < |families| ==> PlanIndexed(families[i], setIndex, boundaries)) && BoundsValid(boundaries)
    {
      for i := 0 to |families|
        invariant BoundsValid(boundaries)
        invariant forall j :: 0 <= j < i ==> PlanIndexed(families[j], setIndex, boundaries)
      {
        var plan := families[i];
        var index, more := AddSets(plan, BoundsOf(boundaries, plan.fam));
        assert forall j :: 0 <= j < i ==> families[j].fam != plan.fam;
        setIndex := setIndex[plan.fam := index];
        boundaries := boundaries[plan.fam := more];
      }
    }

    /** Evidence records and global lists only add boundaries. */
    method AddRecords()
      requires Ready() && BoundsValid(boundaries)
      requires forall i :: 0 <= i < |families| ==> PlanIndexed(families[i], setIndex, boundaries)
      modifies this`boundaries
      ensures (forall i :: 0 <= i < |families| ==> PlanIndexed(families[i], setIndex, boundaries)) && BoundsValid(boundaries)
      ensures forall i :: 0 <= i < |records| ==> records[i] in BoundsOf(boundaries, records[i].fam)
    {
      for i := 0 to |records|
        invariant BoundsValid(boundaries)
        invariant forall j :: 0 <= j < |families| ==> PlanIndexed(families[j], setIndex, boundaries)
        invariant forall j :: 0 <= j < i ==> records[j] in BoundsOf(boundaries, records[j].fam)
      {
        var f := records[i].fam;
        boundaries := boundaries[f := BoundsOf(boundaries, f) + [records[i]]];
      }
    }

    method SortAll()
      requires BoundsValid(boundaries)
      requires forall i :: 0 <= i < |families| ==> PlanIndexed(families[i], setIndex, boundaries)
      modifies this`boundaries
      ensures Indexed()
      ensures forall f, p :: p in BoundsOf(boundaries, f) <==> p in BoundsOf(old(boundaries), f)
    {
      ghost var before := boundaries;
      if V4 in boundaries {
        var sorted := SortBounds(boundaries[V4], V4);
        boundaries := boundaries[V4 := sorted];
      }
      if V6 in boundaries {
        var sorted := SortBounds(boundaries[V6], V6);
        boundaries := boundaries[V6 := sorted];
      }
      forall f, p
        ensures p in BoundsOf(boundaries, f) <==> p in BoundsOf(before, f)
      {
        assert f.V4? || f.V6?;
      }
      forall i | 0 <= i < |families|
        ensures PlanIndexed(families[i], setIndex, boundaries)
      {
        assert PlanIndexed(families[i], setIndex, before);
      }
    }

    // ---------- Evaluating a request ----------

    /** All tasks of the job can be answered by their representatives. */
    ghost predicate JobOk(job: Job) {
      forall t :: TaskOf(t, job.cells, job.scopes, job.q, attachments) ==>
        Fit(families, LivePrefixes(job.ev.prefixes, job.now), t, job.tcp, job.udp) && t.cell.fam == job.fam
    }

    /** A lapsed ban touches the cell of a managed task. */
    ghost predicate Uncertain(job: Job, t: Task) {
      crowdsec && t.attachment.managed && PlanOf(families, job.fam).Some? && !Certain(job.ev, t.cell, job.now)
    }

    ghost function Due(job: Job, t: Task): Option<Outcome> {
      Expected(families, LivePrefixes(job.ev.prefixes, job.now), job.explain, t)
    }

    /** How many records the answers take. */
    ghost function Cost(job: Job, ts: seq<Task>): nat {
      if ts == [] then 0
      else
        var o := Due(job, ts[|ts| - 1]);
        Cost(job, ts[..|ts| - 1]) + if o.Some? then 1 + Size(o.value.key.account) else 0
    }

    /** What keeps them from being answered together. */
    ghost predicate Barred(job: Job, ts: seq<Task>, why: Trouble) {
      match why
      case Unavailable => exists t :: t in ts && Uncertain(job, t)
      case LimitExceeded => Cost(job, ts) > MAX_RECORDS || exists t :: t in ts && Due(job, t).None?
    }

    ghost predicate Free(job: Job, ts: seq<Task>) {
      !Barred(job, ts, Unavailable) && !Barred(job, ts, LimitExceeded)
    }

    lemma {:induction false} BarredMore(job: Job, ts: seq<Task>, more: seq<Task>, why: Trouble)
      requires Barred(job, ts, why)
      ensures Barred(job, ts + more, why)
    {
      CostMore(job, ts, more);
      assert forall t :: t in ts ==> t in ts + more;
    }

    lemma {:induction false} CostMore(job: Job, ts: seq<Task>, more: seq<Task>)
      ensures Cost(job, ts) <= Cost(job, ts + more)
      decreases |more|
    {
      if more == [] {
        assert ts + more == ts;
      } else {
        var n := |more| - 1;
        assert (ts + more)[..|ts| + n] == ts + more[..n];
        CostMore(job, ts, more[..n]);
      }
    }

    /** Exactly these tasks are answered, within the record limit. */
    ghost predicate Progress(job: Job, outs: seq<Outcome>, done: seq<Task>) {
      && Answered(outs, done, families, LivePrefixes(job.ev.prefixes, job.now), job.explain)
      && Cost(job, done) <= MAX_RECORDS
      && forall t :: t in done ==> TaskOf(t, job.cells, job.scopes, job.q, attachments) && !Uncertain(job, t)
    }

    lemma ProgressFree(job: Job, outs: seq<Outcome>, done: seq<Task>)
      requires Progress(job, outs, done)
      ensures Free(job, done)
    {
      forall t | t in done
        ensures Due(job, t).Some?
      {
        var i :| 0 <= i < |done| && done[i] == t;
        assert Due(job, done[i]) == Some(outs[i]);
      }
    }

    /** What an attempt has come to. */
    ghost predicate Stands(job: Job, r: Attempt, ts: seq<Task>) {
      match r
      case Done(outs, records) => Progress(job, outs, ts) && records == Cost(job, ts)
      case Failed(why) => Barred(job, ts, why)
    }

    lemma StandsMore(job: Job, r: Attempt, ts: seq<Task>, more: seq<Task>, all: seq<Task>)
      requires Stands(job, r, ts) && r.Failed? && all == ts + more
      ensures Stands(job, r, all)
    {
      BarredMore(job, ts, more, r.why);
    }

    // ----- A job in the order it is done -----

    ghost function SiteTasks(cell: Prefix, d: Direction, s: TrafficCell, sites: seq<Attachment>): seq<Task> {
      seq(|sites|, i requires 0 <= i < |sites| => Task(cell, d, s, sites[i]))
    }

    ghost function ScopeTasks(cell: Prefix, d: Direction, scopes: seq<TrafficCell>): seq<Task> {
      if scopes == [] then []
      else ScopeTasks(cell, d, scopes[..|scopes| - 1]) + SiteTasks(cell, d, scopes[|scopes| - 1], Sites(attachments, d))
    }

    ghost function AskedTasks(job: Job, cell: Prefix, d: Direction): seq<Task> {
      if job.q.direction.None? || job.q.direction.value == d then ScopeTasks(cell, d, job.scopes) else []
    }

    ghost function CellTasks(job: Job, cells: seq<Prefix>): seq<Task> {
      if cells == [] then []
      else
        var cell := cells[|cells| - 1];
        CellTasks(job, cells[..|cells| - 1]) + (AskedTasks(job, cell, Ingress) + AskedTasks(job, cell, Egress))
    }

    lemma {:induction false} ScopeTasksAre(cell: Prefix, d: Direction, scopes: seq<TrafficCell>, t: Task)
      ensures t in ScopeTasks(cell, d, scopes) <==> t.cell == cell && t.direction == d && t.traffic in scopes && t.attachment in Sites(attachments, d)
      decreases |scopes|
    {
      if scopes != [] {
        var front, s, sites := scopes[..|scopes| - 1], scopes[|scopes| - 1], Sites(attachments, d);
        ScopeTasksAre(cell, d, front, t);
        assert scopes == front + [s];
        if t == Task(cell, d, s, t.attachment) && t.attachment in sites {
          var i :| 0 <= i < |sites| && sites[i] == t.attachment;
          assert SiteTasks(cell, d, s, sites)[i] == t;
        }
      }
    }

    lemma {:induction false} CellTasksAre(job: Job, cells: seq<Prefix>, t: Task)
      ensures t in CellTasks(job, cells) <==> TaskOf(t, cells, job.scopes, job.q, attachments)
      decreases |cells|
    {
      if cells != [] {
        var cell := cells[|cells| - 1];
        CellTasksAre(job, cells[..|cells| - 1], t);
        ScopeTasksAre(cell, Ingress, job.scopes, t);
        ScopeTasksAre(cell, Egress, job.scopes, t);
        assert cells == cells[..|cells| - 1] + [cell];
        assert t.direction == Ingress || t.direction == Egress;
      }
    }

    ghost predicate Context(job: Job)
      reads this
    {
      Ready() && Indexed() && JobOk(job) && ValidEvidence(job.ev)
    }

    lemma ProgressStep(job: Job, outs: seq<Outcome>, done: seq<Task>, t: Task, o: Outcome)
      requires Progress(job, outs, done) && TaskOf(t, job.cells, job.scopes, job.q, attachments) && !Uncertain(job, t)
      requires Due(job, t) == Some(o) && Cost(job, done + [t]) <= MAX_RECORDS
      ensures Progress(job, outs + [o], done + [t])
    {
    }

    lemma CostSnoc(job: Job, done: seq<Task>, t: Task)
      ensures var o := Due(job, t);
              Cost(job, done + [t]) == Cost(job, done) + if o.Some? then 1 + Size(o.value.key.account) else 0
    {
      assert (done + [t])[..|done|] == done;
    }

    /** One attachment. */
    method EvaluateTask(job: Job, t: Task, records: nat) returns (o: Option<Outcome>, why: Trouble)
      requires Context(job) && TaskOf(t, job.cells, job.scopes, job.q, attachments) && records <= MAX_RECORDS
      ensures o.Some? ==> o == Due(job, t) && !Uncertain(job, t)
      ensures o.None? ==> if why.Unavailable? then Uncertain(job, t) else Unanswered(Due(job, t), MAX_RECORDS - records - 1)
    {
      assert Fit(families, LivePrefixes(job.ev.prefixes, job.now), t, job.tcp, job.udp);
      why := LimitExceeded;
      var plan := PlanOf(families, job.fam);
      if !t.attachment.managed || plan.None? {
        if records >= MAX_RECORDS {
          return None, why;
        }
        return Some(Unmanaged(t, if t.attachment.managed then OtherFamily else NoAttachment)), why;
      }
      PlanOfIs(families, job.fam);
      ghost var i :| 0 <= i < |families| && families[i] == plan.value;
      assert PlanIndexed(families[i], setIndex, boundaries);
      var uncertain := UncertainDynamic(job.ev, t.cell, job.now);
      if crowdsec && uncertain {
        return None, Unavailable;
      }
      o := EvaluateScope(IndexOf(setIndex, job.fam), plan.value, job.ev.prefixes, job.now, job.explain, t,
                         MAX_RECORDS - records - 1, job.tcp, job.udp);
    }

    /** Evaluates one task and counts its records. */
    method AddTask(job: Job, t: Task, before: Attempt, ghost done: seq<Task>) returns (r: Attempt)
      requires Context(job) && before.Done? && Stands(job, before, done) && TaskOf(t, job.cells, job.scopes, job.q, attachments)
      ensures Stands(job, r, done + [t])
    {
      CostSnoc(job, done, t);
      assert t in done + [t];
      var o, why := EvaluateTask(job, t, before.records);
      if o.None? {
        return Failed(why);
      }
      var count := before.records + 1 + Size(o.value.key.account);
      if count > MAX_RECORDS {
        return Failed(LimitExceeded);
      }
      ProgressStep(job, before.outs, done, t, o.value);
      return Done(before.outs + [o.value], count);
    }

    lemma SiteTasksSplit(done: seq<Task>, ts: seq<Task>, i: nat)
      requires i < |ts|
      ensures done + ts[..i] + [ts[i]] == done + ts[..i + 1]
      ensures done + ts == done + ts[..i + 1] + ts[i + 1..]
    {
    }

    method OverSites(job: Job, cell: Prefix, d: Direction, traffic: TrafficCell, before: Attempt, ghost done: seq<Task>)
      returns (r: Attempt)
      requires Context(job) && before.Done? && Stands(job, before, done)
      requires cell in job.cells && traffic in job.scopes && (job.q.direction.None? || job.q.direction.value == d)
      ensures Stands(job, r, done + SiteTasks(cell, d, traffic, Sites(attachments, d)))
    {
      var sites := Sites(attachments, d);
      ghost var ts := SiteTasks(cell, d, traffic, sites);
      r := before;
      assert done + ts[..0] == done;
      for i := 0 to |sites|
        invariant r.Done? && Stands(job, r, done + ts[..i])
      {
        SiteTasksSplit(done, ts, i);
        r := AddTask(job, Task(cell, d, traffic, sites[i]), r, done + ts[..i]);
        if r.Failed? {
          StandsMore(job, r, done + ts[..i + 1], ts[i + 1..], done + ts);
          return;
        }
      }
      assert ts[..|sites|] == ts;
    }

    lemma ScopeTasksSplit(done: seq<Task>, cell: Prefix, d: Direction, scopes: seq<TrafficCell>, i: nat)
      returns (rest: seq<Task>)
      requires i < |scopes|
      ensures done + ScopeTasks(cell, d, scopes[..i + 1]) ==
              done + ScopeTasks(cell, d, scopes[..i]) + SiteTasks(cell, d, scopes[i], Sites(attachments, d))
      ensures done + ScopeTasks(cell, d, scopes) == done + ScopeTasks(cell, d, scopes[..i + 1]) + rest
    {
      assert scopes[..i + 1][..i] == scopes[..i];
      rest := ScopeTasksRest(cell, d, scopes, i + 1);
    }

    lemma {:induction false} ScopeTasksRest(cell: Prefix, d: Direction, scopes: seq<TrafficCell>, i: nat)
      returns (rest: seq<Task>)
      requires i <= |scopes|
      ensures ScopeTasks(cell, d, scopes) == ScopeTasks(cell, d, scopes[..i]) + rest
      decreases |scopes|
    {
      if i == |scopes| {
        assert scopes[..i] == scopes;
        rest := [];
      } else {
        var n := |scopes| - 1;
        var inner := ScopeTasksRest(cell, d, scopes[..n], i);
        assert scopes[..n][..i] == scopes[..i];
        rest := inner + SiteTasks(cell, d, scopes[n], Sites(attachments, d));
      }
    }

    method OverScopes(job: Job, cell: Prefix, d: Direction, before: Attempt, ghost done: seq<Task>) returns (r: Attempt)
      requires Context(job) && before.Done? && Stands(job, before, done) && cell in job.cells
      ensures Stands(job, r, done + AskedTasks(job, cell, d))
    {
      r := before;
      assert done + [] == done;
      if job.q.direction.Some? && job.q.direction.value != d {
        return;
      }
      ghost var all := done + ScopeTasks(cell, d, job.scopes);
      for i := 0 to |job.scopes|
        invariant r.Done? && Stands(job, r, done + ScopeTasks(cell, d, job.scopes[..i]))
      {
        ghost var rest := ScopeTasksSplit(done, cell, d, job.scopes, i);
        r := OverSites(job, cell, d, job.scopes[i], r, done + ScopeTasks(cell, d, job.scopes[..i]));
        if r.Failed? {
          StandsMore(job, r, done + ScopeTasks(cell, d, job.scopes[..i + 1]), rest, all);
          return;
        }
      }
      assert job.scopes[..|job.scopes|] == job.scopes;
    }

    method OverDirections(job: Job, cell: Prefix, before: Attempt, ghost done: seq<Task>) returns (r: Attempt)
      requires Context(job) && before.Done? && Stands(job, before, done) && cell in job.cells
      ensures Stands(job, r, done + (AskedTasks(job, cell, Ingress) + AskedTasks(job, cell, Egress)))
    {
      ghost var first, second := AskedTasks(job, cell, Ingress), AskedTasks(job, cell, Egress);
      assert done + (first + second) == done + first + second;
      r := OverScopes(job, cell, Ingress, before, done);
      if r.Failed? {
        StandsMore(job, r, done + first, second, done + first + second);
        return;
      }
      r := OverScopes(job, cell, Egress, r, done + first);
    }

    lemma {:induction false} CellTasksRest(job: Job, cells: seq<Prefix>, i: nat) returns (rest: seq<Task>)
      requires i <= |cells|
      ensures CellTasks(job, cells) == CellTasks(job, cells[..i]) + rest
      decreases |cells|
    {
      if i == |cells| {
        assert cells[..i] == cells;
        rest := [];
      } else {
        var n := |cells| - 1;
        var inner := CellTasksRest(job, cells[..n], i);
        assert cells[..n][..i] == cells[..i];
        rest := inner + (AskedTasks(job, cells[n], Ingress) + AskedTasks(job, cells[n], Egress));
      }
    }

    lemma CellTasksSplit(job: Job, i: nat) returns (rest: seq<Task>)
      requires i < |job.cells|
      ensures CellTasks(job, job.cells[..i + 1]) ==
              CellTasks(job, job.cells[..i]) + (AskedTasks(job, job.cells[i], Ingress) + AskedTasks(job, job.cells[i], Egress))
      ensures CellTasks(job, job.cells) == CellTasks(job, job.cells[..i + 1]) + rest
    {
      assert job.cells[..i + 1][..i] == job.cells[..i];
      rest := CellTasksRest(job, job.cells, i + 1);
    }

    method OverCells(job: Job) returns (r: Attempt)
      requires Context(job)
      ensures Stands(job, r, CellTasks(job, job.cells))
    {
      r := Done([], 0);
      ghost var all := CellTasks(job, job.cells);
      for i := 0 to |job.cells|
        invariant r.Done? && Stands(job, r, CellTasks(job, job.cells[..i]))
      {
        ghost var rest := CellTasksSplit(job, i);
        r := OverDirections(job, job.cells[i], r, CellTasks(job, job.cells[..i]));
        if r.Failed? {
          StandsMore(job, r, CellTasks(job, job.cells[..i + 1]), rest, all);
          return;
        }
      }
      assert job.cells[..|job.cells|] == job.cells;
    }

    /** All prefixes of the evidence. */
    function Touched(ev: Evidence): seq<Prefix> {
      Prefixes(ev.prefixes) + DecisionPrefixes(ev.decisions)
    }

    /** The evidence is well formed, and its view has not ended. */
    ghost predicate Usable(ev: Evidence, now: int) {
      ValidEvidence(ev) && !(crowdsec && ev.validUntil.Some? && ev.validUntil.value <= now)
    }

    /** Splitting the query stays within the work limits. */
    ghost predicate WithinLimits(query: Prefix, ev: Evidence)
      requires Indexed() && query.Valid() && ValidEvidence(ev)
      reads this
    {
      Fits(query, BoundsOf(boundaries, query.fam), Touched(ev))
    }

    /** The job is this request, over cells and traffic that split it. */
    ghost predicate JobFor(job: Job, ev: Evidence, query: Prefix, q: Request, now: int, explain: Explain)
      requires query.Valid()
      reads this
    {
      && job.fam == query.fam && job.q == q && job.ev == ev && job.now == now && job.explain == explain
      && Splits(job.cells, query) && Coarse(job.cells, query, BoundsOf(boundaries, query.fam) + Touched(ev))
      && TrafficSplit(job.scopes, q, job.tcp, job.udp)
    }

    /** Every point is answered once and rightly, in as few outcomes as that takes, and no lapsed ban
        touches a query that some attachment manages. */
    ghost predicate Sound(outs: seq<Outcome>, ev: Evidence, query: Prefix, q: Request, now: int)
      requires query.Valid()
    {
      && Answers(outs, families, LivePrefixes(ev.prefixes, now), query, q, attachments)
      && Shaped(outs, families, query, q, attachments) && Joined(outs)
      && (crowdsec && PlanOf(families, query.fam).Some? ==>
            forall d :: (q.direction.None? || q.direction.value == d) && Sites(attachments, d) != [Unattached] ==> Certain(ev, query, now))
    }

    /** The cells of the query, on which all sets and bans are constant. */
    method CellsOf(query: Prefix, ev: Evidence, now: int) returns (cells: Option<seq<Prefix>>)
      requires Ready() && Indexed() && query.Valid() && ValidEvidence(ev)
      ensures cells.Some? <==> WithinLimits(query, ev)
      ensures cells.Some? ==> Splits(cells.value, query) && Coarse(cells.value, query, BoundsOf(boundaries, query.fam) + Touched(ev))
      ensures cells.Some? ==> forall c :: c in cells.value ==> c.Valid() && c.fam == query.fam && ConstantOn(LivePrefixes(ev.prefixes, now), c)
      ensures cells.Some? ==> forall c, i :: c in cells.value && 0 <= i < |families| && families[i].fam == query.fam ==> Bounded(families[i], c)
    {
      var dynamic := Touched(ev);
      assert forall i :: 0 <= i < |ev.prefixes| ==> Prefixes(ev.prefixes)[i] == ev.prefixes[i].prefix;
      var bounds := BoundsOf(boundaries, query.fam);
      cells := PartitionPrefixes(query, bounds, dynamic);
      if cells.Some? {
        forall c | c in cells.value
          ensures c.Valid() && c.fam == query.fam && ConstantOn(LivePrefixes(ev.prefixes, now), c)
          ensures forall i :: 0 <= i < |families| && families[i].fam == query.fam ==> Bounded(families[i], c)
        {
          var n :| 0 <= n < |cells.value| && cells.value[n] == c;
          assert ConstantOn(bounds, cells.value[n]) && ConstantOn(dynamic, cells.value[n]) && query.Covers(cells.value[n]);
          ConstantPart(dynamic, Prefixes(ev.prefixes), c);
          LiveConstant(ev.prefixes, now, c);
          forall i | 0 <= i < |families| && families[i].fam == query.fam
            ensures Bounded(families[i], c)
          {
            assert PlanIndexed(families[i], setIndex, boundaries);
            forall j | 0 <= j < |families[i].sets|
              ensures ConstantOn(families[i].sets[j].prefixes, c)
            {
              ConstantPart(bounds, families[i].sets[j].prefixes, c);
            }
          }
        }
      }
    }

    /** A complete answer covers every point of the request exactly once, each with the
        first match of the compiled plans there, and rests on no lapsed ban.  There is one
        exactly when the evidence is usable, the cells and the records stay within their
        limits, some rule matches in every cell, and no lapsed ban touches a managed cell. */
    method Evaluate(ev: Evidence, query: Prefix, q: Request, now: int, explain: Explain)
      returns (r: Response, ghost job: Job)
      requires Ready() && Indexed() && query.Valid() && q.Normalized()
      ensures r.Complete? <==>
              Usable(ev, now) && WithinLimits(query, ev) && Free(job, CellTasks(job, job.cells))
      ensures Usable(ev, now) && WithinLimits(query, ev) ==> JobFor(job, ev, query, q, now, explain)
      ensures r == Unknown(Unavailable) ==> !Usable(ev, now) || Barred(job, CellTasks(job, job.cells), Unavailable)
      ensures r == Unknown(LimitExceeded) ==>
                Usable(ev, now) && (!WithinLimits(query, ev) || Barred(job, CellTasks(job, job.cells), LimitExceeded))
      ensures r.Complete? ==> Sound(r.outcomes, ev, query, q, now)
      ensures forall p :: p in LivePrefixes(ev.prefixes, now) <==>
                          exists i :: 0 <= i < |ev.prefixes| && ev.prefixes[i].prefix == p && ev.prefixes[i].deadline > now
      ensures r.Complete? ==> Tells(r.verdict, families, LivePrefixes(ev.prefixes, now), query, q, attachments)
    {
      job := Job(query.fam, q, ev, now, explain, [], [], [], []);
      LiveIs(ev.prefixes, now);
      var valid := CheckEvidence(ev);
      if !valid {
        return Unknown(Unavailable), job;
      }
      if crowdsec && ev.validUntil.Some? && ev.validUntil.value <= now {
        return Unknown(Unavailable), job;
      }
      var work := JobOf(ev, query, q, now, explain);
      if work.None? {
        return Unknown(LimitExceeded), job;
      }
      job := work.value;
      var raw := OverCells(work.value);
      if raw.Failed? {
        return Unknown(raw.why), job;
      }
      r := Respond(work.value, query, raw.outs);
      ProgressFree(work.value, raw.outs, CellTasks(job, job.cells));
    }

    /** The complete response to a finished job. */
    method Respond(job: Job, query: Prefix, raw: seq<Outcome>) returns (r: Response)
      requires Context(job) && query.Valid() && job.q.Normalized() && JobFor(job, job.ev, query, job.q, job.now, job.explain)
      requires Progress(job, raw, CellTasks(job, job.cells))
      ensures r.Complete? && Sound(r.outcomes, job.ev, query, job.q, job.now)
      ensures Tells(r.verdict, families, LivePrefixes(job.ev.prefixes, job.now), query, job.q, attachments)
    {
      var outs := Conclude(job, query, raw);
      var verdict := Summarize(outs);
      HeadlineTells(verdict, outs, families, LivePrefixes(job.ev.prefixes, job.now), query, job.q, attachments);
      r := Complete(outs, verdict);
    }

    /** Splits the request into cells whose representatives answer for them. */
    method JobOf(ev: Evidence, query: Prefix, q: Request, now: int, explain: Explain) returns (r: Option<Job>)
      requires Ready() && Indexed() && query.Valid() && q.Normalized() && ValidEvidence(ev)
      ensures r.Some? <==> WithinLimits(query, ev)
      ensures r.Some? ==> JobFor(r.value, ev, query, q, now, explain) && JobOk(r.value)
    {
      var cells := CellsOf(query, ev, now);
      if cells.None? {
        return None;
      }
      var plan := PlanOf(families, query.fam);
      PlanOfIs(families, query.fam);
      var tcp, udp := CollectRanges(plan);
      // The report of a request without traffic cannot be reached: every request has some.
      var scopes := TrafficScopes(q, tcp, udp);
      var job := Job(query.fam, q, ev, now, explain, cells.value, scopes, tcp, udp);
      forall t | TaskOf(t, job.cells, job.scopes, job.q, attachments)
        ensures Fit(families, LivePrefixes(ev.prefixes, now), t, tcp, udp) && t.cell.fam == query.fam
      {
        assert t.cell in cells.value && t.traffic in scopes;
      }
      return Some(job);
    }

    /** Joins the outcomes of a finished job. */
    method Conclude(job: Job, query: Prefix, raw: seq<Outcome>) returns (outs: seq<Outcome>)
      requires Context(job) && query.Valid() && job.q.Normalized() && JobFor(job, job.ev, query, job.q, job.now, job.explain)
      requires Progress(job, raw, CellTasks(job, job.cells))
      ensures Sound(outs, job.ev, query, job.q, job.now)
    {
      ghost var done, bans := CellTasks(job, job.cells), LivePrefixes(job.ev.prefixes, job.now);
      assert AllCells(raw) by {
        CellsOfOutcomes(job, raw, done);
      }
      outs := CoalesceOutcomes(raw);
      forall t
        ensures TaskOf(t, job.cells, job.scopes, job.q, attachments) <==> t in done
      {
        CellTasksAre(job, job.cells, t);
      }
      assert Evaluated(query, job.q, attachments, families, bans, job.explain, job.cells, job.scopes, job.tcp, job.udp, raw, done);
      EvaluatedAnswers(query, job.q, attachments, families, bans, job.explain, job.cells, job.scopes, job.tcp, job.udp, raw, done, outs);
      RawShaped(query, job.q, attachments, families, bans, job.explain, job.cells, job.scopes, job.tcp, job.udp, raw, done);
      CoalescedShaped(raw, outs, families, query, job.q, attachments);
      if crowdsec && PlanOf(families, query.fam).Some? {
        forall d | (job.q.direction.None? || job.q.direction.value == d) && Sites(attachments, d) != [Unattached]
          ensures Certain(job.ev, query, job.now)
        {
          CellsCertain(job, query, d);
        }
      }
    }

    lemma CellsCertain(job: Job, query: Prefix, d: Direction)
      requires Ready() && ValidEvidence(job.ev) && query.Valid() && job.q.Normalized() && job.fam == query.fam
      requires Splits(job.cells, query) && TrafficSplit(job.scopes, job.q, job.tcp, job.udp)
      requires crowdsec && PlanOf(families, query.fam).Some?
      requires forall t :: TaskOf(t, job.cells, job.scopes, job.q, attachments) ==> !Uncertain(job, t)
      requires (job.q.direction.None? || job.q.direction.value == d) && Sites(attachments, d) != [Unattached]
      ensures Certain(job.ev, query, job.now)
    {
      var s := SomeScope(job.q, job.scopes, job.tcp, job.udp);
      var site := Sites(attachments, d)[0];
      SiteManaged(attachments, d, site);
      forall c | c in job.cells
        ensures Certain(job.ev, c, job.now)
      {
        assert TaskOf(Task(c, d, s, site), job.cells, job.scopes, job.q, attachments);
      }
      CertainEverywhere(job.ev, query, job.cells, job.now);
    }

    lemma CellsOfOutcomes(job: Job, outs: seq<Outcome>, done: seq<Task>)
      requires JobOk(job) && Progress(job, outs, done)
      ensures AllCells(outs)
    {
      forall i | 0 <= i < |outs|
        ensures outs[i].prefix.Valid()
      {
        assert done[i] in done;
        ExpectedShape(families, LivePrefixes(job.ev.prefixes, job.now), job.explain, done[i]);
      }
    }
  }
}
