/** Splitting the requested traffic into cells on which every rule's scope is constant
    (internal/lookup/evaluate.go:299-344, 428-464).
 */
module Ports {
  import opened Basics
  import opened Sorting
  import opened Policy

  const PORTS := 65536

  // ---------- Port cells ----------

  ghost predicate PortIn(c: PortRange, port: nat) {
    c.start <= port <= c.end
  }

  /** Consecutive ranges from port 0 to the last one. */
  ghost predicate SplitsPorts(cells: seq<PortRange>) {
    && cells != [] && cells[0].start == 0 && cells[|cells| - 1].end == PORTS - 1
    && (forall i :: 0 <= i < |cells| ==> cells[i].start <= cells[i].end < PORTS)
    && (forall i, j :: 0 <= i < j < |cells| ==> cells[i].end < cells[j].start)
    && (forall i :: 0 <= i < |cells| - 1 ==> cells[i].end + 1 == cells[i + 1].start)
  }

  /** The range holds all of the cell or none of it. */
  ghost predicate PortConstant(r: PortRange, c: PortRange) {
    (r.start <= c.start && c.end <= r.end) || r.end < c.start || c.end < r.start
  }

  ghost predicate Fits16(r: PortRange) {
    r.start < PORTS && r.end < PORTS
  }

  lemma {:induction false} SomeCell(cells: seq<PortRange>, port: nat) returns (i: nat)
    requires SplitsPorts(cells) && port < PORTS
    ensures i < |cells| && PortIn(cells[i], port)
  {
    i := 0;
    while cells[i].end < port
      invariant i < |cells| && cells[i].start <= port
      decreases |cells| - i
    {
      i := i + 1;
    }
  }

  lemma OneCell(cells: seq<PortRange>, port: nat, i: nat, j: nat)
    requires SplitsPorts(cells) && i < |cells| && j < |cells| && PortIn(cells[i], port) && PortIn(cells[j], port)
    ensures i == j
  {
  }

  predicate NatLeq(a: nat, b: nat) {
    a <= b
  }

  /** Sorted without duplicates. */
  method SortUnique(values: seq<nat>) returns (r: seq<nat>)
    ensures (forall i, j :: 0 <= i < j < |r| ==> r[i] < r[j]) && forall x :: x in r <==> x in values
  {
    var sorted := Sort(NatLeq, values);
    SameElements(sorted, values);
    r := [];
    for i := 0 to |sorted|
      invariant forall i, j :: 0 <= i < j < |r| ==> r[i] < r[j]
      invariant forall x :: x in r <==> x in sorted[..i]
      invariant r != [] ==> i > 0 && r[|r| - 1] == sorted[i - 1]
    {
      assert sorted[..i + 1] == sorted[..i] + [sorted[i]];
      if i == 0 || sorted[i] != sorted[i - 1] {
        assert i > 0 ==> sorted[i - 1] in sorted[..i];
        assert i > 0 ==> NatLeq(sorted[i - 1], sorted[i]);
        r := r + [sorted[i]];
      } else {
        assert sorted[i - 1] in sorted[..i];
      }
    }
    assert sorted[..|sorted|] == sorted;
  }

  /** Where ranges start, and the port after each one ends. */
  ghost predicate Marks(marks: seq<nat>, ranges: seq<PortRange>) {
    && 0 in marks && (forall m :: m in marks ==> m < PORTS)
    && forall i :: 0 <= i < |ranges| ==> ranges[i].start in marks && (ranges[i].end < PORTS - 1 ==> ranges[i].end + 1 in marks)
  }

  method CollectMarks(ranges: seq<PortRange>) returns (marks: seq<nat>)
    requires forall i :: 0 <= i < |ranges| ==> Fits16(ranges[i])
    ensures Marks(marks, ranges)
  {
    marks := [0];
    for i := 0 to |ranges|
      invariant Marks(marks, ranges[..i])
    {
      var more := marks + [ranges[i].start];
      if ranges[i].end < PORTS - 1 {
        more := more + [ranges[i].end + 1];
      }
      assert forall m :: m in marks ==> m in more;
      assert ranges[i].start in more;
      assert ranges[..i + 1] == ranges[..i] + [ranges[i]];
      marks := more;
    }
    assert ranges[..|ranges|] == ranges;
  }

  lemma MarkedConstant(unique: seq<nat>, marks: seq<nat>, ranges: seq<PortRange>, i: nat, c: PortRange, k: nat)
    requires Marks(marks, ranges) && (forall x :: x in unique <==> x in marks)
    requires forall i, j :: 0 <= i < j < |unique| ==> unique[i] < unique[j]
    requires i < |unique| && c.start == unique[i] && c.end + 1 == NextMark(unique, i)
    requires k < |ranges| && Fits16(ranges[k])
    ensures PortConstant(ranges[k], c)
  {
    var r := ranges[k];
    assert r.start in marks && r.start in unique;
    var x :| 0 <= x < |unique| && unique[x] == r.start;
    if i < x {
      assert i + 1 < x ==> unique[i + 1] < unique[x];
      assert c.end < r.start;
    } else {
      assert x < i ==> unique[x] < unique[i];
      assert r.start <= c.start;
      assert i + 1 < |unique| ==> unique[i + 1] in marks;
      if r.end < PORTS - 1 {
        assert r.end + 1 in marks && r.end + 1 in unique;
        var y :| 0 <= y < |unique| && unique[y] == r.end + 1;
        assert y < i ==> unique[y] < unique[i];
        assert i + 1 < y ==> unique[i + 1] < unique[y];
      }
    }
  }

  function NextMark(unique: seq<nat>, k: nat): nat {
    if k + 1 < |unique| then unique[k + 1] else PORTS
  }

  /** Each cell reaches from one mark to just before the next. */
  ghost predicate Between(unique: seq<nat>, cells: seq<PortRange>) {
    |cells| <= |unique| && forall k :: 0 <= k < |cells| ==> cells[k].start == unique[k] && cells[k].end + 1 == NextMark(unique, k)
  }

  method CellsBetween(unique: seq<nat>) returns (cells: seq<PortRange>)
    requires forall i, j :: 0 <= i < j < |unique| ==> unique[i] < unique[j]
    ensures Between(unique, cells) && |cells| == |unique|
  {
    cells := [];
    for i := 0 to |unique|
      invariant |cells| == i && Between(unique, cells)
    {
      var end := PORTS - 1;
      if i + 1 < |unique| {
        assert unique[i] < unique[i + 1];
        end := unique[i + 1] - 1;
      }
      cells := cells + [PortRange(unique[i], end)];
    }
  }

  /** Cells of all ports on which each of the ranges is constant. */
  method PortCells(ranges: seq<PortRange>) returns (cells: seq<PortRange>)
    requires forall i :: 0 <= i < |ranges| ==> Fits16(ranges[i])
    ensures SplitsPorts(cells)
    ensures forall i, k :: 0 <= i < |cells| && 0 <= k < |ranges| ==> PortConstant(ranges[k], cells[i])
  {
    var marks := CollectMarks(ranges);
    var unique := SortUnique(marks);
    cells := CellsBetween(unique);
    forall i, k | 0 <= i < |cells| && 0 <= k < |ranges|
      ensures PortConstant(ranges[k], cells[i])
    {
      MarkedConstant(unique, marks, ranges, i, cells[i], k);
    }
    CellsInOrder(unique, marks, cells);
  }

  lemma CellsInOrder(unique: seq<nat>, marks: seq<nat>, cells: seq<PortRange>)
    requires 0 in marks && (forall m :: m in marks ==> m < PORTS) && forall x :: x in unique <==> x in marks
    requires forall i, j :: 0 <= i < j < |unique| ==> unique[i] < unique[j]
    requires |cells| == |unique| && Between(unique, cells)
    ensures SplitsPorts(cells)
  {
    assert 0 in unique;
    assert forall i :: 0 < i < |unique| ==> unique[0] < unique[i];
    forall i | 0 <= i < |cells|
      ensures unique[i] < NextMark(unique, i) <= PORTS
    {
      assert unique[i] in marks;
      assert i + 1 < |unique| ==> unique[i + 1] in marks && unique[i] < unique[i + 1];
    }
    forall i, j | 0 <= i < j < |cells|
      ensures cells[i].end < cells[j].start
    {
      assert i + 1 < j ==> unique[i + 1] < unique[j];
    }
  }

  // ---------- Traffic cells ----------

  /** A normalized request: a port only with TCP or UDP. */
  datatype Request = Request(direction: Option<Direction>, protocol: Option<Protocol>, port: Option<nat>) {
    predicate Normalized() {
      port.Some? ==> port.value < PORTS && (protocol == Some(TCP) || protocol == Some(UDP))
    }
  }

  datatype TrafficCell = TrafficCell(protocol: Protocol, ports: Option<PortRange>)

  ghost predicate HoldsTraffic(c: TrafficCell, protocol: Protocol, port: nat) {
    c.protocol == protocol && (c.ports.None? || PortIn(c.ports.value, port))
  }

  predicate Portless(p: Protocol) {
    p.ICMP? || p.OtherProtocol?
  }

  /** The traffic the request asks about. */
  ghost predicate Asks(q: Request, protocol: Protocol, port: nat) {
    port < PORTS && (q.protocol.None? || q.protocol.value == protocol) && (q.port.None? || q.port.value == port)
  }

  ghost predicate Held(cells: seq<TrafficCell>, protocol: Protocol, port: nat) {
    exists i :: 0 <= i < |cells| && HoldsTraffic(cells[i], protocol, port)
  }

  /** At most one cell holds any traffic. */
  ghost predicate Single(cells: seq<TrafficCell>) {
    forall c, d, protocol, port :: c in cells && d in cells && HoldsTraffic(c, protocol, port) && HoldsTraffic(d, protocol, port) ==> c == d
  }

  /** The ranges of the cell's protocol are constant on it. */
  ghost predicate TrafficConstant(c: TrafficCell, tcp: seq<PortRange>, udp: seq<PortRange>) {
    && (c.ports.None? <==> Portless(c.protocol))
    && (c.protocol.TCP? ==> forall r :: r in tcp ==> PortConstant(r, c.ports.value))
    && (c.protocol.UDP? ==> forall r :: r in udp ==> PortConstant(r, c.ports.value))
    && (c.ports.Some? ==> c.ports.value.start <= c.ports.value.end < PORTS)
  }

  /** The cells of one protocol. */
  method ProtocolCells(q: Request, protocol: Protocol, tcp: seq<PortRange>, udp: seq<PortRange>)
    returns (cells: seq<TrafficCell>)
    requires q.Normalized() && (q.protocol.None? || q.protocol.value == protocol)
    requires (forall i :: 0 <= i < |tcp| ==> Fits16(tcp[i])) && forall i :: 0 <= i < |udp| ==> Fits16(udp[i])
    ensures forall c :: c in cells ==> c.protocol == protocol && TrafficConstant(c, tcp, udp)
    ensures Single(cells) && forall port :: Asks(q, protocol, port) ==> Held(cells, protocol, port)
    ensures q.port.Some? ==> cells == [TrafficCell(protocol, Some(PortRange(q.port.value, q.port.value)))]
  {
    if q.port.Some? {
      var c := TrafficCell(protocol, Some(PortRange(q.port.value, q.port.value)));
      cells := [c];
      assert HoldsTraffic(cells[0], protocol, q.port.value);
      return;
    }
    if Portless(protocol) {
      cells := [TrafficCell(protocol, None)];
      forall port | Asks(q, protocol, port)
        ensures Held(cells, protocol, port)
      {
        assert HoldsTraffic(cells[0], protocol, port);
      }
      return;
    }
    var ranges := if protocol.TCP? then tcp else udp;
    var ports := PortCells(ranges);
    cells := seq(|ports|, i requires 0 <= i < |ports| => TrafficCell(protocol, Some(ports[i])));
    forall port | Asks(q, protocol, port)
      ensures Held(cells, protocol, port)
    {
      var i := SomeCell(ports, port);
      assert HoldsTraffic(cells[i], protocol, port);
    }
    forall c, d, p, port | c in cells && d in cells && HoldsTraffic(c, p, port) && HoldsTraffic(d, p, port)
      ensures c == d
    {
      var i :| 0 <= i < |cells| && cells[i] == c;
      var j :| 0 <= j < |cells| && cells[j] == d;
      OneCell(ports, port, i, j);
    }
    forall c | c in cells
      ensures TrafficConstant(c, tcp, udp)
    {
      var i :| 0 <= i < |cells| && cells[i] == c;
      forall r | r in ranges
        ensures PortConstant(r, ports[i])
      {
        var k :| 0 <= k < |ranges| && ranges[k] == r;
      }
    }
  }

  /** Cells of the requested traffic, one for each protocol and port asked about. */
  ghost predicate TrafficSplit(cells: seq<TrafficCell>, q: Request, tcp: seq<PortRange>, udp: seq<PortRange>) {
    && (forall c :: c in cells ==> (q.protocol.None? || q.protocol.value == c.protocol) && TrafficConstant(c, tcp, udp))
    && (forall protocol, port :: Asks(q, protocol, port) ==> Held(cells, protocol, port))
    && Single(cells)
    && (q.port.Some? ==> forall c :: c in cells ==> c.ports == Some(PortRange(q.port.value, q.port.value)))
  }

  lemma HeldAppend(a: seq<TrafficCell>, b: seq<TrafficCell>, protocol: Protocol, port: nat)
    ensures Held(a, protocol, port) || Held(b, protocol, port) ==> Held(a + b, protocol, port)
  {
    var all := a + b;
    if Held(a, protocol, port) {
      var i :| 0 <= i < |a| && HoldsTraffic(a[i], protocol, port);
      assert all[i] == a[i];
    } else if Held(b, protocol, port) {
      var i :| 0 <= i < |b| && HoldsTraffic(b[i], protocol, port);
      assert all[|a| + i] == b[i];
    }
  }

  const ALL_PROTOCOLS := [TCP, UDP, ICMP, OtherProtocol]

  lemma EveryProtocol(p: Protocol)
    ensures p in ALL_PROTOCOLS
  {
    assert ALL_PROTOCOLS[0] == TCP && ALL_PROTOCOLS[1] == UDP && ALL_PROTOCOLS[2] == ICMP && ALL_PROTOCOLS[3] == OtherProtocol;
  }

  ghost predicate SplitFor(cells: seq<TrafficCell>, done: seq<Protocol>, q: Request, tcp: seq<PortRange>,
                           udp: seq<PortRange>) {
    && (forall c :: c in cells ==> c.protocol in done && TrafficConstant(c, tcp, udp))
    && (forall protocol, port :: protocol in done && Asks(q, protocol, port) ==> Held(cells, protocol, port))
    && Single(cells)
    && (q.port.Some? ==> forall c :: c in cells ==> c.ports == Some(PortRange(q.port.value, q.port.value)))
  }

  lemma SplitSnoc(cells: seq<TrafficCell>, done: seq<Protocol>, p: Protocol, own: seq<TrafficCell>, q: Request,
                  tcp: seq<PortRange>, udp: seq<PortRange>)
    requires SplitFor(cells, done, q, tcp, udp) && p !in done
    requires forall c :: c in own ==> c.protocol == p && TrafficConstant(c, tcp, udp)
    requires Single(own) && forall port :: Asks(q, p, port) ==> Held(own, p, port)
    requires q.port.Some? ==> forall c :: c in own ==> c.ports == Some(PortRange(q.port.value, q.port.value))
    ensures SplitFor(cells + own, done + [p], q, tcp, udp)
  {
    forall protocol, port | protocol in done + [p] && Asks(q, protocol, port)
      ensures Held(cells + own, protocol, port)
    {
      HeldAppend(cells, own, protocol, port);
    }
  }

  method TrafficScopes(q: Request, tcp: seq<PortRange>, udp: seq<PortRange>) returns (cells: seq<TrafficCell>)
    requires q.Normalized()
    requires (forall i :: 0 <= i < |tcp| ==> Fits16(tcp[i])) && forall i :: 0 <= i < |udp| ==> Fits16(udp[i])
    ensures TrafficSplit(cells, q, tcp, udp)
  {
    var protocols := if q.protocol.Some? then [q.protocol.value] else ALL_PROTOCOLS;
    cells := [];
    for i := 0 to |protocols|
      invariant SplitFor(cells, protocols[..i], q, tcp, udp)
    {
      var own := ProtocolCells(q, protocols[i], tcp, udp);
      assert protocols[..i + 1] == protocols[..i] + [protocols[i]];
      SplitSnoc(cells, protocols[..i], protocols[i], own, q, tcp, udp);
      cells := cells + own;
    }
    assert protocols[..|protocols|] == protocols;
    forall protocol, port | Asks(q, protocol, port)
      ensures Held(cells, protocol, port)
    {
      EveryProtocol(protocol);
    }
  }

  // ---------- Scopes on cells ----------

  /** Some range holds the whole cell. */
  predicate PortsMatch(ranges: seq<PortRange>, ports: Option<PortRange>) {
    if ports.None? then |ranges| > 0
    else exists i :: 0 <= i < |ranges| && ranges[i].start <= ports.value.start && ports.value.end <= ranges[i].end
  }

  predicate ScopeMatches(s: Scope, c: TrafficCell) {
    s.any ||
    match c.protocol
    case TCP => PortsMatch(s.tcp, c.ports)
    case UDP => PortsMatch(s.udp, c.ports)
    case ICMP => s.icmp
    case OtherProtocol => false
  }

  lemma PortsAnswer(ranges: seq<PortRange>, c: PortRange, port: nat)
    requires c.start <= c.end && PortIn(c, port) && forall r :: r in ranges ==> PortConstant(r, c)
    ensures PortsMatch(ranges, Some(c)) <==> InPorts(ranges, port)
  {
    if InPorts(ranges, port) {
      var i :| 0 <= i < |ranges| && ranges[i].start <= port <= ranges[i].end;
      assert PortConstant(ranges[i], c);
    }
  }

  /** A scope answers for a whole cell as for each packet in it. */
  lemma ScopeAnswers(s: Scope, c: TrafficCell, tcp: seq<PortRange>, udp: seq<PortRange>, k: Packet)
    requires TrafficConstant(c, tcp, udp) && HoldsTraffic(c, k.protocol, k.port)
    requires s.any || ((forall r :: r in s.tcp ==> r in tcp) && forall r :: r in s.udp ==> r in udp)
    ensures ScopeMatches(s, c) <==> InScope(s, k)
  {
    if !s.any && c.protocol.TCP? {
      PortsAnswer(s.tcp, c.ports.value, k.port);
    }
    if !s.any && c.protocol.UDP? {
      PortsAnswer(s.udp, c.ports.value, k.port);
    }
  }
}
