/** Lowering of compiled paths to native rules
    (internal/firewall/nftables_model.go:652-790, internal/firewall/iptables_model.go:480-648).

    Each backend turns a path into an entry chain, which holds the flow guards, and a
    generation chain, which holds the rest.  Both give every packet the fate the path
    asks for, so they agree with each other.
 */
module Lowering {
  import opened Address
  import opened Basics
  import opened Policy

  // ---------- Native packets and rules ----------

  datatype L4 = Tcp | Udp | Icmp | Icmpv6 | OtherL4

  /** `originalPort` is the destination port before address translation. */
  datatype Native = Native(fam: Family, direction: Direction, source: nat, destination: nat,
                           l4: L4, port: nat, originalPort: nat, conntrack: Conntrack)

  /** The packet as the policy sees it; ICMP is that of the packet's own family. */
  function Logical(k: Native, original: bool): Packet {
    var protocol :=
      match k.l4
      case Tcp => TCP
      case Udp => UDP
      case Icmp => if k.fam.V4? then ICMP else OtherProtocol
      case Icmpv6 => if k.fam.V6? then ICMP else OtherProtocol
      case OtherL4 => OtherProtocol;
    Packet(k.fam, k.direction, k.source, k.destination, protocol, if original then k.originalPort else k.port, k.conntrack)
  }

  datatype Matcher =
    | StateIn(states: set<Conntrack>)
    | StateNot(state: Conntrack)
    | ProtocolIs(l4: L4)
    | ProtocolNot(l4: L4)
    | Port(range: PortRange)
    | OriginalPort(range: PortRange)
    | PayloadPort(l4: L4, range: PortRange)

  predicate Meets(m: Matcher, k: Native) {
    match m
    case StateIn(states) => k.conntrack in states
    case StateNot(state) => k.conntrack != state
    case ProtocolIs(l4) => k.l4 == l4
    case ProtocolNot(l4) => k.l4 != l4
    case Port(range) => range.start <= k.port <= range.end
    case OriginalPort(range) => range.start <= k.originalPort <= range.end
    case PayloadPort(l4, range) => k.l4 == l4 && range.start <= k.port <= range.end
  }

  predicate MeetsAll(ms: seq<Matcher>, k: Native) {
    forall i :: 0 <= i < |ms| ==> Meets(ms[i], k)
  }

  datatype RejectKind = TcpReset | AdminProhibited(fam: Family)

  /** What becomes of a packet in the chains of this program. */
  datatype Fate = Passed | Dropped | Rejected(kind: RejectKind)

  datatype NativeVerdict = Continue | Jump | Done(fate: Fate)

  datatype SetTest = SetTest(id: SetID, remote: Remote, negate: bool)

  datatype NativeRule = NativeRule(test: Option<SetTest>, traffic: seq<Matcher>, verdict: NativeVerdict)

  ghost predicate InSets(sets: seq<NamedSet>, bans: seq<Prefix>, t: Option<SetTest>, k: Native) {
    t.None? || Member(sets, bans, t.value.id, k.fam, RemoteOf(t.value.remote, Logical(k, false))) != t.value.negate
  }

  ghost predicate RuleMeets(sets: seq<NamedSet>, bans: seq<Prefix>, r: NativeRule, k: Native) {
    InSets(sets, bans, r.test, k) && MeetsAll(r.traffic, k)
  }

  /** The fate a chain without jumps decides, if it decides one. */
  ghost function Run(sets: seq<NamedSet>, bans: seq<Prefix>, rules: seq<NativeRule>, k: Native): Option<Fate> {
    if rules == [] then None
    else if RuleMeets(sets, bans, rules[0], k) && rules[0].verdict.Done? then Some(rules[0].verdict.fate)
    else Run(sets, bans, rules[1..], k)
  }

  /** The fate decided from an entry chain, whose jumps lead to the generation chain. */
  ghost function Enter(sets: seq<NamedSet>, bans: seq<Prefix>, entry: seq<NativeRule>, generation: seq<NativeRule>,
                       k: Native): Fate {
    if entry == [] then Passed
    else if RuleMeets(sets, bans, entry[0], k) && entry[0].verdict.Done? then entry[0].verdict.fate
    else if RuleMeets(sets, bans, entry[0], k) && entry[0].verdict.Jump? &&
            Run(sets, bans, generation, k).Some? && !Run(sets, bans, generation, k).value.Passed? then
      Run(sets, bans, generation, k).value
    else Enter(sets, bans, entry[1..], generation, k)
  }

  lemma {:induction false} RunAppend(sets: seq<NamedSet>, bans: seq<Prefix>, a: seq<NativeRule>, b: seq<NativeRule>,
                                     k: Native)
    ensures Run(sets, bans, a + b, k) == if Run(sets, bans, a, k).Some? then Run(sets, bans, a, k) else Run(sets, bans, b, k)
    decreases |a|
  {
    if a == [] {
      assert a + b == b;
    } else {
      assert (a + b)[1..] == a[1..] + b;
      RunAppend(sets, bans, a[1..], b, k);
    }
  }

  // ---------- The fate a path asks for ----------

  /** TCP is refused with a reset, everything else as administratively prohibited. */
  function Meaning(a: Action, k: Native): Fate {
    match a
    case Return => Passed
    case Drop => Dropped
    case Reject => Rejected(if k.l4.Tcp? then TcpReset else AdminProhibited(k.fam))
  }

  ghost function Asked(m: Option<Rule>, k: Native): Option<Fate> {
    if m.None? then None else Some(Meaning(m.value.action, k))
  }

  /** The rules without flow guards, which the generation chain holds. */
  function Unguarded(rules: seq<Rule>): seq<Rule> {
    if rules == [] then []
    else
      var n := |rules| - 1;
      Unguarded(rules[..n]) + (if rules[n].guard.flow.AnyFlow? then [rules[n]] else [])
  }

  // ---------- Traffic variants ----------

  /** One native way to match part of a scope, and what to do with the packet. */
  datatype Variant = Variant(traffic: seq<Matcher>, verdict: NativeVerdict)

  ghost predicate Hits(vs: seq<Variant>, k: Native) {
    exists i :: 0 <= i < |vs| && MeetsAll(vs[i].traffic, k)
  }

  /** Every packet that meets a variant gets the fate of the action from it. */
  ghost predicate Sound(v: Variant, a: Action, f: Family) {
    forall k: Native :: k.fam == f && MeetsAll(v.traffic, k) ==> v.verdict == Done(Meaning(a, k))
  }

  ghost predicate AllSound(vs: seq<Variant>, a: Action, f: Family) {
    forall i :: 0 <= i < |vs| ==> Sound(vs[i], a, f)
  }

  /** Together the variants match exactly the scope. */
  ghost predicate Express(vs: seq<Variant>, scope: Scope, a: Action, f: Family, original: bool) {
    && AllSound(vs, a, f)
    && forall k: Native :: k.fam == f ==> (Hits(vs, k) <==> InScope(scope, Logical(k, original)))
  }

  lemma HitsSnoc(vs: seq<Variant>, v: Variant, k: Native)
    ensures Hits(vs + [v], k) <==> Hits(vs, k) || MeetsAll(v.traffic, k)
  {
    var all := vs + [v];
    assert all[|vs|] == v;
    assert forall i :: 0 <= i < |vs| ==> all[i] == vs[i];
  }

  lemma InPortsSnoc(ranges: seq<PortRange>, i: nat, port: nat)
    requires i < |ranges|
    ensures InPorts(ranges[..i + 1], port) <==> InPorts(ranges[..i], port) || ranges[i].start <= port <= ranges[i].end
  {
    assert forall j :: 0 <= j < i ==> ranges[..i + 1][j] == ranges[..i][j];
    assert ranges[..i + 1][i] == ranges[i];
  }

  // ---------- nftables ----------

  /** A reset when the variant singles out TCP. */
  function NftVerdict(a: Action, f: Family, traffic: seq<Matcher>): NativeVerdict {
    match a
    case Return => Done(Passed)
    case Drop => Done(Dropped)
    case Reject =>
      if exists i :: 0 <= i < |traffic| && ((traffic[i].PayloadPort? && traffic[i].l4.Tcp?) || traffic[i] == ProtocolIs(Tcp))
      then Done(Rejected(TcpReset)) else Done(Rejected(AdminProhibited(f)))
  }

  function OwnIcmp(f: Family): L4 {
    if f.V4? then Icmp else Icmpv6
  }

  function NftVariant(traffic: seq<Matcher>, a: Action, f: Family): Variant {
    Variant(traffic, NftVerdict(a, f, traffic))
  }

  /** The ports of one protocol, one variant each. */
  method NftPorts(l4: L4, ranges: seq<PortRange>, a: Action, f: Family) returns (vs: seq<Variant>)
    requires l4.Tcp? || l4.Udp?
    ensures AllSound(vs, a, f)
    ensures forall k: Native :: Hits(vs, k) <==> k.l4 == l4 && InPorts(ranges, k.port)
  {
    vs := [];
    for i := 0 to |ranges|
      invariant AllSound(vs, a, f)
      invariant forall k: Native :: Hits(vs, k) <==> k.l4 == l4 && InPorts(ranges[..i], k.port)
    {
      var v := NftVariant([PayloadPort(l4, ranges[i])], a, f);
      forall k: Native
        ensures Hits(vs + [v], k) <==> k.l4 == l4 && InPorts(ranges[..i + 1], k.port)
        ensures MeetsAll(v.traffic, k) ==> v.verdict == Done(Meaning(a, k)) || k.fam != f
      {
        HitsSnoc(vs, v, k);
        InPortsSnoc(ranges, i, k.port);
        assert MeetsAll(v.traffic, k) <==> Meets(v.traffic[0], k);
      }
      vs := vs + [v];
    }
    assert ranges[..|ranges|] == ranges;
  }

  lemma HitsAppend(a: seq<Variant>, b: seq<Variant>, k: Native)
    ensures Hits(a + b, k) <==> Hits(a, k) || Hits(b, k)
  {
    var all := a + b;
    assert forall i :: 0 <= i < |a| ==> all[i] == a[i];
    assert forall i :: 0 <= i < |b| ==> all[|a| + i] == b[i];
    if Hits(all, k) {
      var i :| 0 <= i < |all| && MeetsAll(all[i].traffic, k);
      assert i >= |a| ==> all[i] == b[i - |a|];
    }
  }

  lemma OneHit(v: Variant, k: Native)
    ensures Hits([v], k) <==> MeetsAll(v.traffic, k)
  {
    assert [v][0] == v;
  }

  /** A variant with one matcher, or none, meets what the matcher meets. */
  lemma MeetsFew(m: Matcher, k: Native)
    ensures MeetsAll([], k) && (MeetsAll([m], k) <==> Meets(m, k))
  {
    assert [m][0] == m;
  }

  method NftVariants(scope: Scope, a: Action, f: Family) returns (vs: seq<Variant>)
    ensures Express(vs, scope, a, f, false)
  {
    if scope.any {
      vs := NftAny(a, f);
      return;
    }
    var tcp := NftPorts(Tcp, scope.tcp, a, f);
    var udp := NftPorts(Udp, scope.udp, a, f);
    vs := tcp + udp;
    var icmp := NftVariant([ProtocolIs(OwnIcmp(f))], a, f);
    forall k: Native | k.fam == f
      ensures MeetsAll(icmp.traffic, k) <==> k.l4 == OwnIcmp(f)
      ensures Hits(tcp + udp, k) <==> Hits(tcp, k) || Hits(udp, k)
      ensures Hits(tcp + udp + [icmp], k) <==> Hits(tcp + udp, k) || k.l4 == OwnIcmp(f)
    {
      MeetsFew(icmp.traffic[0], k);
      HitsAppend(tcp, udp, k);
      HitsSnoc(tcp + udp, icmp, k);
    }
    assert Sound(icmp, a, f);
    if scope.icmp {
      vs := vs + [icmp];
    }
  }

  /** Unrestricted traffic needs two variants only to reject it. */
  method NftAny(a: Action, f: Family) returns (vs: seq<Variant>)
    ensures AllSound(vs, a, f) && forall k: Native :: Hits(vs, k)
  {
    if a.Reject? {
      var tcp, rest := NftVariant([ProtocolIs(Tcp)], a, f), NftVariant([ProtocolNot(Tcp)], a, f);
      vs := [tcp] + [rest];
      forall k: Native
        ensures Hits(vs, k)
        ensures MeetsAll(tcp.traffic, k) <==> k.l4.Tcp?
        ensures MeetsAll(rest.traffic, k) <==> !k.l4.Tcp?
      {
        MeetsFew(tcp.traffic[0], k);
        MeetsFew(rest.traffic[0], k);
        HitsSnoc([tcp], rest, k);
        OneHit(tcp, k);
      }
      assert tcp.traffic[0] == ProtocolIs(Tcp);
    } else {
      var v := NftVariant([], a, f);
      vs := [v];
      forall k: Native
        ensures Hits(vs, k)
      {
        OneHit(v, k);
        assert MeetsAll([], k);
      }
    }
  }

  // ---------- Rules from variants ----------

  function Block(test: Option<SetTest>, vs: seq<Variant>): (r: seq<NativeRule>)
    ensures |r| == |vs| && forall i :: 0 <= i < |vs| ==> r[i] == NativeRule(test, vs[i].traffic, vs[i].verdict)
  {
    seq(|vs|, i requires 0 <= i < |vs| => NativeRule(test, vs[i].traffic, vs[i].verdict))
  }

  /** The first variant a packet meets gives it the fate of the action. */
  lemma {:induction false} BlockRuns(sets: seq<NamedSet>, bans: seq<Prefix>, test: Option<SetTest>, vs: seq<Variant>,
                                     a: Action, k: Native)
    requires AllSound(vs, a, k.fam)
    ensures Run(sets, bans, Block(test, vs), k) == if InSets(sets, bans, test, k) && Hits(vs, k) then Some(Meaning(a, k)) else None
    decreases |vs|
  {
    if vs == [] {
    } else {
      var rest := vs[1..];
      assert Block(test, vs)[1..] == Block(test, rest);
      assert vs == [vs[0]] + rest;
      HitsAppend([vs[0]], rest, k);
      OneHit(vs[0], k);
      BlockRuns(sets, bans, test, rest, a, k);
    }
  }

  function TestOf(m: Match, remote: Remote): Option<SetTest> {
    if m.setID.NoSet? then None else Some(SetTest(m.setID, remote, m.negate))
  }

  /** The generation chain decides as the rules do, whatever the sets and bans hold. */
  ghost predicate StandsFor(chain: seq<NativeRule>, rules: seq<Rule>, f: Family, remote: Remote, original: bool) {
    forall sets, bans, k: Native :: k.fam == f ==>
      Run(sets, bans, chain, k) == Asked(FirstMatch(sets, bans, remote, rules, Logical(k, original)), k)
  }

  lemma BlockStands(chain: seq<NativeRule>, rules: seq<Rule>, r: Rule, vs: seq<Variant>, f: Family, remote: Remote,
                    original: bool)
    requires StandsFor(chain, rules, f, remote, original)
    requires r.guard.flow.AnyFlow? && Express(vs, r.guard.traffic, r.action, f, original)
    ensures StandsFor(chain + Block(TestOf(r.guard, remote), vs), rules + [r], f, remote, original)
  {
    var test := TestOf(r.guard, remote);
    forall sets, bans, k: Native | k.fam == f
      ensures Run(sets, bans, chain + Block(test, vs), k) == Asked(FirstMatch(sets, bans, remote, rules + [r], Logical(k, original)), k)
    {
      RunAppend(sets, bans, chain, Block(test, vs), k);
      BlockRuns(sets, bans, test, vs, r.action, k);
      FirstMatchAppend(sets, bans, remote, rules, [r], Logical(k, original));
      FirstMatchOne(sets, bans, remote, r, Logical(k, original));
    }
  }

  lemma UnguardedSnoc(rules: seq<Rule>, i: nat)
    requires i < |rules|
    ensures Unguarded(rules[..i + 1]) ==
            if rules[i].guard.flow.AnyFlow? then Unguarded(rules[..i]) + [rules[i]] else Unguarded(rules[..i])
  {
    assert rules[..i + 1][..i] == rules[..i];
    assert Unguarded(rules[..i]) + [] == Unguarded(rules[..i]);
  }

  /** The generation chain of a path in the nftables backend. */
  method NftRules(rules: seq<Rule>, d: Direction, f: Family) returns (chain: seq<NativeRule>)
    ensures StandsFor(chain, Unguarded(rules), f, RemoteFor(d), false)
  {
    chain := [];
    for i := 0 to |rules|
      invariant StandsFor(chain, Unguarded(rules[..i]), f, RemoteFor(d), false)
    {
      var r := rules[i];
      UnguardedSnoc(rules, i);
      if r.guard.flow.AnyFlow? {
        var vs := NftVariants(r.guard.traffic, r.action, f);
        BlockStands(chain, Unguarded(rules[..i]), r, vs, f, RemoteFor(d), false);
        chain := chain + Block(TestOf(r.guard, RemoteFor(d)), vs);
      }
    }
    assert rules[..|rules|] == rules;
  }

  // ---------- iptables ----------

  function PortArgs(range: PortRange, original: bool): Matcher {
    if original then OriginalPort(range) else Port(range)
  }

  /** Return and drop, or a rejection suited to the protocol the variant names. */
  function IptVerdict(a: Action, f: Family, tcp: bool): NativeVerdict {
    match a
    case Return => Done(Passed)
    case Drop => Done(Dropped)
    case Reject => Done(Rejected(if tcp then TcpReset else AdminProhibited(f)))
  }

  method IptPorts(l4: L4, ranges: seq<PortRange>, a: Action, f: Family, original: bool) returns (vs: seq<Variant>)
    requires l4.Tcp? || l4.Udp?
    ensures AllSound(vs, a, f) && |vs| == |ranges|
    ensures forall k: Native :: Hits(vs, k) <==> k.l4 == l4 && InPorts(ranges, Logical(k, original).port)
  {
    vs := [];
    for i := 0 to |ranges|
      invariant AllSound(vs, a, f) && |vs| == i
      invariant forall k: Native :: Hits(vs, k) <==> k.l4 == l4 && InPorts(ranges[..i], Logical(k, original).port)
    {
      var v := Variant([ProtocolIs(l4), PortArgs(ranges[i], original)], IptVerdict(a, f, l4.Tcp?));
      forall k: Native
        ensures Hits(vs + [v], k) <==> k.l4 == l4 && InPorts(ranges[..i + 1], Logical(k, original).port)
        ensures MeetsAll(v.traffic, k) ==> v.verdict == Done(Meaning(a, k)) || k.fam != f
      {
        HitsSnoc(vs, v, k);
        InPortsSnoc(ranges, i, Logical(k, original).port);
        assert MeetsAll(v.traffic, k) <==> Meets(v.traffic[0], k) && Meets(v.traffic[1], k);
      }
      vs := vs + [v];
    }
    assert ranges[..|ranges|] == ranges;
  }

  method IptVariants(scope: Scope, a: Action, f: Family, original: bool) returns (vs: seq<Variant>)
    ensures Express(vs, scope, a, f, original)
    ensures |vs| == 0 <==> !scope.any && |scope.tcp| == 0 && |scope.udp| == 0 && !scope.icmp
  {
    if scope.any {
      vs := IptAny(a, f);
      return;
    }
    var tcp := IptPorts(Tcp, scope.tcp, a, f, original);
    var udp := IptPorts(Udp, scope.udp, a, f, original);
    vs := tcp + udp;
    var icmp := Variant([ProtocolIs(OwnIcmp(f))], IptVerdict(a, f, false));
    forall k: Native | k.fam == f
      ensures MeetsAll(icmp.traffic, k) <==> k.l4 == OwnIcmp(f)
      ensures Hits(tcp + udp, k) <==> Hits(tcp, k) || Hits(udp, k)
      ensures Hits(tcp + udp + [icmp], k) <==> Hits(tcp + udp, k) || k.l4 == OwnIcmp(f)
    {
      MeetsFew(icmp.traffic[0], k);
      HitsAppend(tcp, udp, k);
      HitsSnoc(tcp + udp, icmp, k);
    }
    assert Sound(icmp, a, f);
    if scope.icmp {
      vs := vs + [icmp];
    }
  }

  method IptAny(a: Action, f: Family) returns (vs: seq<Variant>)
    ensures AllSound(vs, a, f) && |vs| > 0 && forall k: Native :: Hits(vs, k)
  {
    if a.Reject? {
      var tcp, rest := Variant([ProtocolIs(Tcp)], IptVerdict(a, f, true)), Variant([ProtocolNot(Tcp)], IptVerdict(a, f, false));
      vs := [tcp] + [rest];
      forall k: Native
        ensures Hits(vs, k)
        ensures MeetsAll(tcp.traffic, k) <==> k.l4.Tcp?
        ensures MeetsAll(rest.traffic, k) <==> !k.l4.Tcp?
      {
        MeetsFew(tcp.traffic[0], k);
        MeetsFew(rest.traffic[0], k);
        HitsSnoc([tcp], rest, k);
        OneHit(tcp, k);
      }
    } else {
      var v := Variant([], IptVerdict(a, f, false));
      vs := [v];
      forall k: Native
        ensures Hits(vs, k)
      {
        OneHit(v, k);
        assert MeetsAll([], k);
      }
    }
  }

  ghost predicate RangesValid(ranges: seq<PortRange>) {
    forall i :: 0 <= i < |ranges| ==> 0 < ranges[i].start <= ranges[i].end
  }

  ghost predicate ValidScope(s: Scope) {
    if s.any then |s.tcp| == 0 && |s.udp| == 0 && !s.icmp
    else (|s.tcp| > 0 || |s.udp| > 0 || s.icmp) && RangesValid(s.tcp) && RangesValid(s.udp)
  }

  /** What the iptables backend demands of a rule. */
  ghost predicate Lowerable(r: Rule, known: set<SetID>) {
    && ValidScope(r.guard.traffic)
    && if r.guard.flow.AnyFlow? then (r.guard.negate ==> r.guard.setID.Eligible?) && (r.guard.setID.NoSet? || r.guard.setID in known)
       else r.guard.traffic.any && r.guard.setID.NoSet? && r.policy == ""
  }

  method CheckRanges(ranges: seq<PortRange>) returns (ok: bool)
    ensures ok <==> RangesValid(ranges)
  {
    for i := 0 to |ranges|
      invariant forall j :: 0 <= j < i ==> 0 < ranges[j].start <= ranges[j].end
    {
      if ranges[i].start == 0 || ranges[i].start > ranges[i].end {
        return false;
      }
    }
    return true;
  }

  method CheckScope(s: Scope) returns (ok: bool)
    ensures ok <==> ValidScope(s)
  {
    if s.any {
      return |s.tcp| == 0 && |s.udp| == 0 && !s.icmp;
    }
    if |s.tcp| == 0 && |s.udp| == 0 && !s.icmp {
      return false;
    }
    var tcp := CheckRanges(s.tcp);
    var udp := CheckRanges(s.udp);
    return tcp && udp;
  }

  /** What the backend refuses: a scope it cannot write, a flow guard that matches anything else, a negated
      set other than the geo-eligible one, and a set it does not have. */
  method CheckRule(r: Rule, known: set<SetID>) returns (ok: bool)
    ensures ok <==> Lowerable(r, known)
  {
    var scope := CheckScope(r.guard.traffic);
    if !scope {
      return false;
    }
    if !r.guard.flow.AnyFlow? {
      return r.guard.traffic.any && r.guard.setID.NoSet? && r.policy == "";
    }
    if r.guard.negate && !r.guard.setID.Eligible? {
      return false;
    }
    return r.guard.setID.NoSet? || r.guard.setID in known;
  }

  /** Appends what one rule becomes; flow guards become nothing here. */
  method AppendIpt(out: seq<NativeRule>, rules: seq<Rule>, i: nat, remote: Remote, f: Family, original: bool)
    returns (next: seq<NativeRule>)
    requires i < |rules| && StandsFor(out, Unguarded(rules[..i]), f, remote, original)
    ensures StandsFor(next, Unguarded(rules[..i + 1]), f, remote, original)
  {
    var r := rules[i];
    UnguardedSnoc(rules, i);
    next := out;
    if r.guard.flow.AnyFlow? {
      var vs := IptVariants(r.guard.traffic, r.action, f, original);
      BlockStands(out, Unguarded(rules[..i]), r, vs, f, remote, original);
      next := out + Block(TestOf(r.guard, remote), vs);
    }
  }

  /** The generation chain of a path in the iptables backend, or an error. */
  method IptRules(rules: seq<Rule>, remote: Remote, f: Family, known: set<SetID>, original: bool)
    returns (chain: Option<seq<NativeRule>>)
    ensures chain.Some? <==> forall i :: 0 <= i < |rules| ==> Lowerable(rules[i], known)
    ensures chain.Some? ==> StandsFor(chain.value, Unguarded(rules), f, remote, original)
  {
    var out: seq<NativeRule> := [];
    for i := 0 to |rules|
      invariant forall j :: 0 <= j < i ==> Lowerable(rules[j], known)
      invariant StandsFor(out, Unguarded(rules[..i]), f, remote, original)
    {
      var fine := CheckRule(rules[i], known);
      if !fine {
        return None;
      }
      out := AppendIpt(out, rules, i, remote, f, original);
    }
    assert rules[..|rules|] == rules;
    return Some(out);
  }

  // ---------- Entry and generation chains together ----------

  /** Both backends write the same entry chain: count, the two flow guards, dispatch. */
  const EntryRules := [
    NativeRule(None, [], Continue),
    NativeRule(None, [StateIn({Established, Related})], Done(Passed)),
    NativeRule(None, [StateNot(New)], Done(Passed)),
    NativeRule(None, [], Jump)]

  lemma EntryRuns(sets: seq<NamedSet>, bans: seq<Prefix>, generation: seq<NativeRule>, k: Native)
    ensures Enter(sets, bans, EntryRules, generation, k) ==
            if !k.conntrack.New? || Run(sets, bans, generation, k).None? then Passed else Run(sets, bans, generation, k).value
  {
    var count, established, notNew, dispatch := EntryRules[0], EntryRules[1], EntryRules[2], EntryRules[3];
    MeetsFew(StateIn({Established, Related}), k);
    MeetsFew(StateNot(New), k);
    EnterCons(sets, bans, dispatch, [], generation, k);
    EnterCons(sets, bans, notNew, [dispatch], generation, k);
    EnterCons(sets, bans, established, [notNew] + [dispatch], generation, k);
    EnterCons(sets, bans, count, [established] + ([notNew] + [dispatch]), generation, k);
    assert [dispatch] + [] == [dispatch];
    assert EntryRules == [count] + ([established] + ([notNew] + [dispatch]));
  }

  lemma EnterCons(sets: seq<NamedSet>, bans: seq<Prefix>, r: NativeRule, rest: seq<NativeRule>,
                  generation: seq<NativeRule>, k: Native)
    ensures var m := Run(sets, bans, generation, k);
            Enter(sets, bans, [r] + rest, generation, k) ==
            if RuleMeets(sets, bans, r, k) && r.verdict.Done? then r.verdict.fate
            else if RuleMeets(sets, bans, r, k) && r.verdict.Jump? && m.Some? && !m.value.Passed? then m.value
            else Enter(sets, bans, rest, generation, k)
  {
    assert ([r] + rest)[1..] == rest;
  }

  lemma {:induction false} UnguardedTail(rules: seq<Rule>, n: nat)
    requires n <= |rules| && (forall i :: 0 <= i < n ==> FlowGuard(rules[i]))
    requires forall i :: n <= i < |rules| ==> rules[i].guard.flow.AnyFlow?
    ensures Unguarded(rules) == rules[n..]
    decreases |rules|
  {
    if |rules| == n {
      NothingUnguarded(rules);
    } else {
      var m := |rules| - 1;
      UnguardedTail(rules[..m], n);
      assert rules[..m][n..] + [rules[m]] == rules[n..];
    }
  }

  lemma {:induction false} NothingUnguarded(rules: seq<Rule>)
    requires forall i :: 0 <= i < |rules| ==> FlowGuard(rules[i])
    ensures Unguarded(rules) == []
    decreases |rules|
  {
    if rules != [] {
      NothingUnguarded(rules[..|rules| - 1]);
    }
  }

  /** Guards decide exactly the packets that are not new, and pass them. */
  lemma {:induction false} GuardsDecide(sets: seq<NamedSet>, bans: seq<Prefix>, remote: Remote, guards: seq<Rule>,
                                        k: Packet)
    requires forall i :: 0 <= i < |guards| ==> FlowGuard(guards[i])
    ensures var m := FirstMatch(sets, bans, remote, guards, k);
            && (m.Some? ==> !k.conntrack.New? && m.value.action.Return?)
            && (m.None? ==> k.conntrack.New? || forall i :: 0 <= i < |guards| ==> !guards[i].guard.flow.NotNew?)
    decreases |guards|
  {
    if guards != [] {
      GuardsDecide(sets, bans, remote, guards[1..], k);
      assert forall i :: 1 <= i < |guards| ==> guards[i] == guards[1..][i - 1];
    }
  }

  /** Entry chain plus generation chain give the fate of the whole path, reset versus
      prohibition included. */
  lemma LoweringPreserves(sets: seq<NamedSet>, bans: seq<Prefix>, path: Path, n: nat, generation: seq<NativeRule>,
                          original: bool, k: Native)
    requires GuardsFirst(path.rules, n)
    requires StandsFor(generation, Unguarded(path.rules), k.fam, path.remote, original)
    ensures Enter(sets, bans, EntryRules, generation, k) == Meaning(PathVerdict(sets, bans, path, Logical(k, original)).action, k)
  {
    var guards, rest := path.rules[..n], path.rules[n..];
    var p := Logical(k, original);
    assert path.rules == guards + rest;
    EntryRuns(sets, bans, generation, k);
    UnguardedTail(path.rules, n);
    FirstMatchAppend(sets, bans, path.remote, guards, rest, p);
    GuardsDecide(sets, bans, path.remote, guards, p);
    var i :| 0 <= i < n && path.rules[i].guard.flow.NotNew?;
    assert guards[i].guard.flow.NotNew?;
    assert Run(sets, bans, generation, k) == Asked(FirstMatch(sets, bans, path.remote, rest, p), k);
  }

  /** The two backends agree on every packet when iptables reads current ports. */
  method LowerBoth(path: Path, ghost n: nat, f: Family, known: set<SetID>)
    returns (nft: seq<NativeRule>, ipt: Option<seq<NativeRule>>)
    requires GuardsFirst(path.rules, n) && path.remote == RemoteFor(path.direction)
    ensures ipt.Some? <==> forall i :: 0 <= i < |path.rules| ==> Lowerable(path.rules[i], known)
    ensures ipt.Some? ==> forall sets, bans, k: Native :: k.fam == f ==>
              (Enter(sets, bans, EntryRules, nft, k) == Enter(sets, bans, EntryRules, ipt.value, k)
               == Meaning(PathVerdict(sets, bans, path, Logical(k, false)).action, k))
  {
    nft := NftRules(path.rules, path.direction, f);
    ipt := IptRules(path.rules, path.remote, f, known, false);
    if ipt.Some? {
      forall sets, bans, k: Native | k.fam == f
        ensures Enter(sets, bans, EntryRules, nft, k) == Meaning(PathVerdict(sets, bans, path, Logical(k, false)).action, k)
        ensures Enter(sets, bans, EntryRules, ipt.value, k) == Meaning(PathVerdict(sets, bans, path, Logical(k, false)).action, k)
      {
        LoweringPreserves(sets, bans, path, n, nft, false, k);
        LoweringPreserves(sets, bans, path, n, ipt.value, false, k);
      }
    }
  }
}
