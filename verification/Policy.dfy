/** The backend-neutral policy model and what it decides
    (internal/policy/model.go).
 */
module Policy {
  import opened Address
  import opened Basics

  // ---------- Rules ----------

  datatype Direction = Ingress | Egress

  /** `Return` leaves the packet to the surrounding firewall. */
  datatype Action = Return | Drop | Reject

  datatype Flow = AnyFlow | EstablishedRelated | NotNew

  /** Inclusive at both ends. */
  datatype PortRange = PortRange(start: nat, end: nat)

  /** With `any` false, an otherwise empty scope matches nothing. */
  datatype Scope = Scope(any: bool, tcp: seq<PortRange>, udp: seq<PortRange>, icmp: bool)

  const AnyTraffic := Scope(true, [], [], false)

  /** Set names as the compiler writes them; the text of a geo set's name is "geo/" and
      the name of a policy, and every other text is `Other`. */
  datatype SetID = NoSet | Allowlisted | Blocklisted | Banned | Eligible | Geo(policy: string) | Other(text: string)

  /** A conjunction; `NoSet` omits the address test. */
  datatype Match = Match(flow: Flow, setID: SetID, negate: bool, traffic: Scope)

  datatype Reason = GlobalBlocklist | CrowdSec | GeoPolicy

  datatype Counter = NoCounter | Denied(reason: Reason, action: Action)

  datatype Rule = Rule(guard: Match, action: Action, policy: string, counter: Counter)

  datatype Remote = SourceAddress | DestinationAddress

  datatype Path = Path(direction: Direction, remote: Remote, rules: seq<Rule>)

  datatype SetKind = StaticSet | DynamicCrowdSecSet

  datatype NamedSet = NamedSet(id: SetID, kind: SetKind, prefixes: seq<Prefix>)

  datatype FamilyPlan = FamilyPlan(fam: Family, sets: seq<NamedSet>, paths: seq<Path>)

  // ---------- Packets ----------

  datatype Protocol = TCP | UDP | ICMP | OtherProtocol

  datatype Conntrack = New | Established | Related | Invalid | Untracked

  datatype Packet = Packet(fam: Family, direction: Direction, source: nat, destination: nat,
                           protocol: Protocol, port: nat, conntrack: Conntrack)

  function RemoteOf(remote: Remote, k: Packet): nat {
    if remote.SourceAddress? then k.source else k.destination
  }

  predicate InPorts(ranges: seq<PortRange>, port: nat) {
    exists i :: 0 <= i < |ranges| && ranges[i].start <= port <= ranges[i].end
  }

  predicate InScope(s: Scope, k: Packet) {
    s.any ||
    match k.protocol
    case TCP => InPorts(s.tcp, k.port)
    case UDP => InPorts(s.udp, k.port)
    case ICMP => s.icmp
    case OtherProtocol => false
  }

  predicate InFlow(f: Flow, c: Conntrack) {
    match f
    case AnyFlow => true
    case EstablishedRelated => c.Established? || c.Related?
    case NotNew => !c.New?
  }

  // ---------- First match ----------

  /** The first set of that name. */
  function Find(sets: seq<NamedSet>, id: SetID): (r: Option<NamedSet>)
    ensures r.Some? <==> exists i :: 0 <= i < |sets| && sets[i].id == id
    ensures r.Some? ==> r.value in sets && r.value.id == id
  {
    if sets == [] then None
    else if sets[0].id == id then Some(sets[0])
    else
      assert forall i :: 0 < i < |sets| ==> sets[i] == sets[1..][i - 1];
      Find(sets[1..], id)
  }

  ghost predicate UniqueIDs(sets: seq<NamedSet>) {
    forall i, j :: 0 <= i < j < |sets| ==> sets[i].id != sets[j].id
  }

  lemma FindUnique(sets: seq<NamedSet>, s: NamedSet)
    requires UniqueIDs(sets) && s in sets
    ensures Find(sets, s.id) == Some(s)
  {
  }

  /** The addresses a set holds; a dynamic set holds the current bans. */
  ghost predicate Holds(s: NamedSet, bans: seq<Prefix>, f: Family, a: nat) {
    Covered(if s.kind.StaticSet? then s.prefixes else bans, f, a)
  }

  ghost predicate Member(sets: seq<NamedSet>, bans: seq<Prefix>, id: SetID, f: Family, a: nat) {
    Find(sets, id).Some? && Holds(Find(sets, id).value, bans, f, a)
  }

  ghost predicate Matches(sets: seq<NamedSet>, bans: seq<Prefix>, remote: Remote, m: Match, k: Packet) {
    && InFlow(m.flow, k.conntrack)
    && (m.setID.NoSet? || (Member(sets, bans, m.setID, k.fam, RemoteOf(remote, k)) != m.negate))
    && InScope(m.traffic, k)
  }

  ghost function FirstMatch(sets: seq<NamedSet>, bans: seq<Prefix>, remote: Remote, rules: seq<Rule>,
                            k: Packet): Option<Rule> {
    if rules == [] then None
    else if Matches(sets, bans, remote, rules[0].guard, k) then Some(rules[0])
    else FirstMatch(sets, bans, remote, rules[1..], k)
  }

  lemma {:induction false} FirstMatchAppend(sets: seq<NamedSet>, bans: seq<Prefix>, remote: Remote, a: seq<Rule>,
                                            b: seq<Rule>, k: Packet)
    ensures FirstMatch(sets, bans, remote, a + b, k) ==
            if FirstMatch(sets, bans, remote, a, k).Some? then FirstMatch(sets, bans, remote, a, k)
            else FirstMatch(sets, bans, remote, b, k)
    decreases |a|
  {
    if a == [] {
      assert a + b == b;
    } else {
      assert (a + b)[1..] == a[1..] + b;
      FirstMatchAppend(sets, bans, remote, a[1..], b, k);
    }
  }

  lemma FirstMatchOne(sets: seq<NamedSet>, bans: seq<Prefix>, remote: Remote, r: Rule, k: Packet)
    ensures FirstMatch(sets, bans, remote, [r], k) == if Matches(sets, bans, remote, r.guard, k) then Some(r) else None
  {
    assert FirstMatch(sets, bans, remote, [r][1..], k) == None;
  }

  lemma FirstMatchCons(sets: seq<NamedSet>, bans: seq<Prefix>, remote: Remote, r: Rule, rest: seq<Rule>, k: Packet)
    ensures FirstMatch(sets, bans, remote, [r] + rest, k) ==
            if Matches(sets, bans, remote, r.guard, k) then Some(r) else FirstMatch(sets, bans, remote, rest, k)
  {
    assert ([r] + rest)[1..] == rest;
  }

  /** What is done with a packet, on whose account, and which counter moves. */
  datatype Verdict = Verdict(action: Action, policy: string, counter: Counter)

  const Pass := Verdict(Return, "", NoCounter)

  function RuleVerdict(r: Option<Rule>): Verdict {
    if r.None? then Pass else Verdict(r.value.action, r.value.policy, r.value.counter)
  }

  ghost function PathVerdict(sets: seq<NamedSet>, bans: seq<Prefix>, path: Path, k: Packet): Verdict {
    RuleVerdict(FirstMatch(sets, bans, path.remote, path.rules, k))
  }

  /** The first path in the packet's direction decides. */
  ghost function PathsVerdict(sets: seq<NamedSet>, bans: seq<Prefix>, paths: seq<Path>, k: Packet): Verdict {
    if paths == [] then Pass
    else if paths[0].direction == k.direction then PathVerdict(sets, bans, paths[0], k)
    else PathsVerdict(sets, bans, paths[1..], k)
  }

  /** Families without a plan are not managed. */
  ghost function PlanVerdict(plans: seq<FamilyPlan>, bans: seq<Prefix>, k: Packet): Verdict {
    if plans == [] then Pass
    else if plans[0].fam == k.fam then PathsVerdict(plans[0].sets, bans, plans[0].paths, k)
    else PlanVerdict(plans[1..], bans, k)
  }

  // ---------- Flow guards ----------

  function RemoteFor(d: Direction): Remote {
    if d.Ingress? then SourceAddress else DestinationAddress
  }

  predicate FlowGuard(r: Rule) {
    !r.guard.flow.AnyFlow? && r.guard.setID.NoSet? && r.guard.traffic.any && r.action.Return?
  }

  /** The first `n` rules are flow guards, one of them stops everything that is not new,
      and no guard comes later. */
  ghost predicate GuardsFirst(rules: seq<Rule>, n: nat) {
    && n <= |rules|
    && (forall i :: 0 <= i < n ==> FlowGuard(rules[i]))
    && (exists i :: 0 <= i < n && rules[i].guard.flow.NotNew?)
    && (forall i :: n <= i < |rules| ==> rules[i].guard.flow.AnyFlow?)
  }

  lemma GuardsAppend(rules: seq<Rule>, n: nat, more: seq<Rule>)
    requires GuardsFirst(rules, n) && forall r :: r in more ==> r.guard.flow.AnyFlow?
    ensures GuardsFirst(rules + more, n)
  {
    var all := rules + more;
    var i :| 0 <= i < n && rules[i].guard.flow.NotNew?;
    assert all[i] == rules[i];
    assert forall j :: |rules| <= j < |all| ==> all[j] in more;
  }
}
