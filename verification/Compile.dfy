/** The policy compiler (internal/policy/compile.go) and the declarative policy it
    implements.

    `Declared` reads a configuration directly: flow state, allowlist, blocklist,
    bans, geo eligibility, then the policy of lowest priority number whose traffic
    scope matches.  It mentions neither rules nor sets nor the order of the
    configuration.  `Compile` produces first-match rules with the same verdict for
    every packet.
 */
module Compile {
  import opened Address
  import opened Basics
  import opened PrefixSet
  import opened Policy
  import opened GeoSets
  import opened Sorting
  import opened Text

  // ---------- Configuration ----------

  datatype Selector = Selector(kind: string, value: string)

  /** A configuration field that should name one of a few values. */
  datatype Written<T> = Known(value: T) | Unknown(text: string)

  datatype Mode = Disabled | AllowlistMode | BlocklistMode

  datatype Traffic = Traffic(any: bool, tcp: seq<PortRange>, udp: seq<PortRange>, icmp: bool, icmpv6: bool)

  /** `includes` and `excludes` are the canonical source identities a selection stands
      for, or `None` when it names an unknown one. */
  datatype PolicyConfig = PolicyConfig(name: string, priority: Int64,
                                       direction: Written<Direction>, mode: Written<Mode>,
                                       traffic: Traffic,
                                       includes: Option<seq<Selector>>, excludes: Option<seq<Selector>>)

  datatype Config = Config(denyAction: Written<Action>, allow: seq<Prefix>, block: seq<Prefix>,
                           policies: seq<PolicyConfig>, ipv4: bool, ipv6: bool, crowdsec: bool)

  type Snapshot = map<Selector, Set>

  /** The pinned geo-eligible addresses of each family. */
  datatype Geo = Geo(v4: Set, v6: Set) {
    function Of(f: Family): Set {
      if f.V4? then v4 else v6
    }

    ghost predicate Valid() {
      v4.Valid() && v6.Valid()
    }
  }

  ghost predicate SnapshotValid(s: Snapshot) {
    forall k :: k in s ==> s[k].Valid()
  }

  function Enabled(cfg: Config, f: Family): bool {
    if f.V4? then cfg.ipv4 else cfg.ipv6
  }

  // ---------- The declarative policy ----------

  predicate InTraffic(t: Traffic, k: Packet) {
    t.any ||
    match k.protocol
    case TCP => InPorts(t.tcp, k.port)
    case UDP => InPorts(t.udp, k.port)
    case ICMP => if k.fam.V4? then t.icmp else t.icmpv6
    case OtherProtocol => false
  }

  predicate Applies(p: PolicyConfig, k: Packet) {
    p.mode != Known(Disabled) && p.direction == Known(k.direction) && InTraffic(p.traffic, k)
  }

  /** `p` has the lowest priority number of the policies that apply. */
  ghost predicate Decides(policies: seq<PolicyConfig>, k: Packet, p: PolicyConfig) {
    && p in policies && Applies(p, k)
    && forall q :: q in policies && Applies(q, k) ==> p.priority <= q.priority
  }

  ghost predicate Picks(keys: Option<seq<Selector>>, s: Snapshot, f: Family, a: nat) {
    keys.Some? && exists i :: 0 <= i < |keys.value| && keys.value[i] in s && s[keys.value[i]].Has(f, a)
  }

  /** Included and not excluded. */
  ghost predicate Selected(p: PolicyConfig, s: Snapshot, f: Family, a: nat) {
    Picks(p.includes, s, f, a) && !Picks(p.excludes, s, f, a)
  }

  function Deny(value: Written<Action>): Action {
    if value == Known(Drop) then Drop else Reject
  }

  function Denial(deny: Action, policy: string, reason: Reason): Verdict {
    Verdict(deny, policy, Denied(reason, deny))
  }

  /** A blocklist denies what it selects, an allowlist what it does not. */
  function PolicyVerdict(p: PolicyConfig, selected: bool, deny: Action): Verdict {
    if (p.mode == Known(BlocklistMode)) == selected then Denial(deny, p.name, GeoPolicy) else Verdict(Return, p.name, NoCounter)
  }

  ghost predicate GeoDeclared(policies: seq<PolicyConfig>, s: Snapshot, deny: Action, a: nat, k: Packet, v: Verdict) {
    && (forall p :: Decides(policies, k, p) ==> v == PolicyVerdict(p, Selected(p, s, k.fam, a), deny))
    && ((forall p :: p in policies ==> !Applies(p, k)) ==> v == Pass)
  }

  /** The verdict the configuration asks for. */
  ghost predicate Declared(cfg: Config, s: Snapshot, geo: Geo, bans: seq<Prefix>, k: Packet, v: Verdict) {
    var a := if k.direction.Ingress? then k.source else k.destination;
    var deny := Deny(cfg.denyAction);
    if !k.conntrack.New? || Listed(cfg.allow, k.fam, a) then v == Pass
    else if Listed(cfg.block, k.fam, a) then v == Denial(deny, "", GlobalBlocklist)
    else if cfg.crowdsec && k.direction.Ingress? && Covered(bans, k.fam, a) then v == Denial(deny, "", CrowdSec)
    else if !geo.Of(k.fam).Has(k.fam, a) then v == Pass
    else GeoDeclared(cfg.policies, s, deny, a, k, v)
  }

  // ---------- What that means for a packet ----------

  /** The remote address of a packet. */
  ghost function Far(k: Packet): nat {
    if k.direction.Ingress? then k.source else k.destination
  }

  ghost predicate BlockedGlobally(cfg: Config, k: Packet) {
    k.conntrack.New? && !Listed(cfg.allow, k.fam, Far(k)) && Listed(cfg.block, k.fam, Far(k))
  }

  ghost predicate BannedNow(cfg: Config, bans: seq<Prefix>, k: Packet) {
    && k.conntrack.New? && !Listed(cfg.allow, k.fam, Far(k)) && !Listed(cfg.block, k.fam, Far(k))
    && cfg.crowdsec && k.direction.Ingress? && Covered(bans, k.fam, Far(k))
  }

  /** Nothing global decides, and geo policy has a say about the address. */
  ghost predicate LeftToPolicies(cfg: Config, geo: Geo, bans: seq<Prefix>, k: Packet) {
    && k.conntrack.New? && !Listed(cfg.allow, k.fam, Far(k)) && !Listed(cfg.block, k.fam, Far(k))
    && !BannedNow(cfg, bans, k) && geo.Of(k.fam).Has(k.fam, Far(k))
  }

  /** The verdict stops the packet as configured, for the reason and the policy given. */
  ghost predicate Stops(cfg: Config, v: Verdict, policy: string, reason: Reason) {
    cfg.denyAction == Known(v.action) && !v.action.Return? && v.policy == policy && v.counter == Denied(reason, v.action)
  }

  ghost predicate Lets(v: Verdict, policy: string) {
    v == Verdict(Return, policy, NoCounter)
  }

  /** Case by case, what becomes of a packet. */
  ghost predicate Behaves(cfg: Config, s: Snapshot, geo: Geo, bans: seq<Prefix>, k: Packet, v: Verdict) {
    && (BlockedGlobally(cfg, k) ==> Stops(cfg, v, "", GlobalBlocklist))
    && (BannedNow(cfg, bans, k) ==> Stops(cfg, v, "", CrowdSec))
    && (!BlockedGlobally(cfg, k) && !BannedNow(cfg, bans, k) && !LeftToPolicies(cfg, geo, bans, k) ==> Lets(v, ""))
    && (LeftToPolicies(cfg, geo, bans, k) ==>
          && ((forall p :: p in cfg.policies ==> !Applies(p, k)) ==> Lets(v, ""))
          && (forall p :: Decides(cfg.policies, k, p) && p.mode == Known(BlocklistMode) ==>
                if Selected(p, s, k.fam, Far(k)) then Stops(cfg, v, p.name, GeoPolicy) else Lets(v, p.name))
          && (forall p :: Decides(cfg.policies, k, p) && p.mode == Known(AllowlistMode) ==>
                if Selected(p, s, k.fam, Far(k)) then Lets(v, p.name) else Stops(cfg, v, p.name, GeoPolicy)))
  }

  lemma DeclaredBehaves(cfg: Config, s: Snapshot, geo: Geo, bans: seq<Prefix>, k: Packet, v: Verdict)
    requires Declared(cfg, s, geo, bans, k, v) && (cfg.denyAction == Known(Drop) || cfg.denyAction == Known(Reject))
    ensures Behaves(cfg, s, geo, bans, k, v)
  {
  }

  /** Whatever the configuration, a packet is let through or stopped by the configured action. */
  lemma BehavesActs(cfg: Config, s: Snapshot, geo: Geo, bans: seq<Prefix>, k: Packet, v: Verdict)
    requires PoliciesOk(cfg.policies, s) && Behaves(cfg, s, geo, bans, k, v)
    ensures v.action.Return? || cfg.denyAction == Known(v.action)
  {
    if LeftToPolicies(cfg, geo, bans, k) {
      PolicyActs(cfg, s, geo, bans, k, v);
    }
  }

  lemma PolicyActs(cfg: Config, s: Snapshot, geo: Geo, bans: seq<Prefix>, k: Packet, v: Verdict)
    requires PoliciesOk(cfg.policies, s) && Behaves(cfg, s, geo, bans, k, v) && LeftToPolicies(cfg, geo, bans, k)
    ensures v.action.Return? || cfg.denyAction == Known(v.action)
  {
    if exists p :: p in cfg.policies && Applies(p, k) {
      var p := DecidingPolicy(cfg.policies, s, k);
      assert Decides(cfg.policies, k, p);
    }
  }

  lemma DecidingPolicy(policies: seq<PolicyConfig>, s: Snapshot, k: Packet) returns (p: PolicyConfig)
    requires PoliciesOk(policies, s) && exists p :: p in policies && Applies(p, k)
    ensures Decides(policies, k, p) && (p.mode == Known(BlocklistMode) || p.mode == Known(AllowlistMode))
  {
    LeastPriority(policies, k);
    p :| Decides(policies, k, p);
    assert PolicyOk(p, s) && p.mode == Known(p.mode.value);
    assert p.mode.value.Disabled? || p.mode.value.AllowlistMode? || p.mode.value.BlocklistMode?;
  }

  // ---------- When a configuration compiles ----------

  ghost predicate Resolves(keys: Option<seq<Selector>>, s: Snapshot) {
    keys.Some? && forall i :: 0 <= i < |keys.value| ==> keys.value[i] in s
  }

  ghost predicate SelectsSome(p: PolicyConfig, s: Snapshot) {
    exists f, a :: Selected(p, s, f, a)
  }

  ghost predicate PolicyOk(p: PolicyConfig, s: Snapshot) {
    && p.direction.Known?
    && (p.mode == Known(Disabled) ||
        (p.mode.Known? && Resolves(p.includes, s) && Resolves(p.excludes, s) && SelectsSome(p, s)))
  }

  predicate Compatible(p: PolicyConfig, q: PolicyConfig) {
    p.name != q.name && (p.direction == q.direction ==> p.priority != q.priority)
  }

  /** No duplicate names, no duplicate priority in one direction, and each policy acceptable. */
  ghost predicate PoliciesOk(policies: seq<PolicyConfig>, s: Snapshot) {
    && Distinct(policies)
    && (forall p, q :: p in policies && q in policies && p != q ==> Compatible(p, q))
    && (forall p :: p in policies ==> PolicyOk(p, s))
  }

  ghost predicate Active(cfg: Config) {
    cfg.crowdsec || |cfg.block| > 0 || exists p :: p in cfg.policies && p.mode != Known(Disabled)
  }

  ghost predicate Compilable(cfg: Config, s: Snapshot) {
    && (cfg.denyAction == Known(Drop) || cfg.denyAction == Known(Reject))
    && (forall i :: 0 <= i < |cfg.allow| ==> WellFormed(cfg.allow[i]))
    && (forall i :: 0 <= i < |cfg.block| ==> WellFormed(cfg.block[i]))
    && PoliciesOk(cfg.policies, s)
    && (Active(cfg) ==> cfg.ipv4 || cfg.ipv6)
  }

  // ---------- Policies ----------

  /** A policy with the addresses it selects. */
  datatype CompiledPolicy = CompiledPolicy(policy: PolicyConfig, included: Set)

  /** Egress, ingress, then unknown directions, whose place decides only which error is reported. */
  predicate DirectionLeq(a: Written<Direction>, b: Written<Direction>) {
    match (a, b)
    case (Known(d), Known(e)) => d.Egress? || e.Ingress?
    case (Unknown(s), Unknown(t)) => StrLeq(s, t)
    case _ => a.Known?
  }

  /** Direction, priority, then name. */
  predicate PolicyLeq(p: PolicyConfig, q: PolicyConfig) {
    if p.direction != q.direction then DirectionLeq(p.direction, q.direction)
    else if p.priority != q.priority then p.priority < q.priority
    else StrLeq(p.name, q.name)
  }

  lemma DirectionOrder(a: Written<Direction>, b: Written<Direction>, c: Written<Direction>)
    ensures DirectionLeq(a, b) || DirectionLeq(b, a)
    ensures DirectionLeq(a, b) && DirectionLeq(b, a) ==> a == b
    ensures DirectionLeq(a, b) && DirectionLeq(b, c) ==> DirectionLeq(a, c)
  {
    if a.Unknown? && b.Unknown? {
      StrTotal(a.text, b.text);
      if c.Unknown? && StrLeq(a.text, b.text) && StrLeq(b.text, c.text) {
        StrTransitive(a.text, b.text, c.text);
      }
    }
  }

  lemma PolicyOrder()
    ensures TotalPreorder(PolicyLeq)
  {
    forall p, q
      ensures PolicyLeq(p, q) || PolicyLeq(q, p)
    {
      DirectionOrder(p.direction, q.direction, q.direction);
      StrTotal(p.name, q.name);
    }
    forall p, q, r | PolicyLeq(p, q) && PolicyLeq(q, r)
      ensures PolicyLeq(p, r)
    {
      DirectionOrder(p.direction, q.direction, r.direction);
      if StrLeq(p.name, q.name) && StrLeq(q.name, r.name) {
        StrTransitive(p.name, q.name, r.name);
      }
    }
  }

  ghost predicate Stands(c: CompiledPolicy, s: Snapshot) {
    c.included.Valid() && forall f, a :: c.included.Has(f, a) <==> Selected(c.policy, s, f, a)
  }

  /** The enabled policies, each with its selection, in priority order within a direction. */
  ghost predicate CompiledFrom(policies: seq<PolicyConfig>, s: Snapshot, out: seq<CompiledPolicy>) {
    && (forall i :: 0 <= i < |out| ==> out[i].policy in policies && out[i].policy.mode != Known(Disabled) && Stands(out[i], s))
    && (forall p :: p in policies && p.mode != Known(Disabled) ==> Has(out, p))
    && (forall i, j :: 0 <= i < j < |out| ==> Ordered(out[i].policy, out[j].policy))
  }

  ghost predicate Has(out: seq<CompiledPolicy>, p: PolicyConfig) {
    exists i :: 0 <= i < |out| && out[i].policy == p
  }

  predicate Ordered(p: PolicyConfig, q: PolicyConfig) {
    p.name != q.name && (p.direction == q.direction ==> p.priority < q.priority)
  }

  function Names(policies: seq<PolicyConfig>): set<string> {
    set p | p in policies :: p.name
  }

  function Priorities(policies: seq<PolicyConfig>): set<(Written<Direction>, Int64)> {
    set p | p in policies :: (p.direction, p.priority)
  }

  ghost predicate Unseen(policies: seq<PolicyConfig>, p: PolicyConfig) {
    p.name !in Names(policies) && (p.direction, p.priority) !in Priorities(policies)
  }

  lemma UnseenCompatible(policies: seq<PolicyConfig>, p: PolicyConfig)
    ensures Unseen(policies, p) <==> forall q :: q in policies ==> Compatible(p, q)
  {
    if Unseen(policies, p) {
      assert forall q :: q in policies ==> q.name in Names(policies) && (q.direction, q.priority) in Priorities(policies);
    }
  }

  lemma OkSnoc(policies: seq<PolicyConfig>, p: PolicyConfig, s: Snapshot)
    ensures PoliciesOk(policies + [p], s) <==> PoliciesOk(policies, s) && Unseen(policies, p) && PolicyOk(p, s)
  {
    var all := policies + [p];
    UnseenCompatible(policies, p);
    DistinctSnoc(policies, p);
    assert forall q :: q in all <==> q in policies || q == p;
    assert p in all;
    if PoliciesOk(all, s) {
      assert forall q :: q in policies ==> q in all && q != p && Compatible(p, q);
    }
  }

  lemma {:induction false} OkPrefix(policies: seq<PolicyConfig>, i: nat, s: Snapshot)
    requires i <= |policies| && PoliciesOk(policies, s)
    ensures PoliciesOk(policies[..i], s)
  {
    assert forall q :: q in policies[..i] ==> q in policies;
  }

  lemma OkPermuted(a: seq<PolicyConfig>, b: seq<PolicyConfig>, s: Snapshot)
    requires multiset(a) == multiset(b) && PoliciesOk(a, s)
    ensures PoliciesOk(b, s)
  {
    SameElements(a, b);
    DistinctPermuted(a, b);
  }

  lemma CompiledSnoc(policies: seq<PolicyConfig>, s: Snapshot, out: seq<CompiledPolicy>, c: CompiledPolicy)
    requires CompiledFrom(policies, s, out) && Stands(c, s) && c.policy.mode != Known(Disabled)
    requires PoliciesOk(policies + [c.policy], s)
    requires forall i :: 0 <= i < |policies| ==> PolicyLeq(policies[i], c.policy)
    ensures CompiledFrom(policies + [c.policy], s, out + [c])
  {
    var all, more := policies + [c.policy], out + [c];
    assert all[|policies|] == c.policy && more[|out|] == c;
    assert forall p :: p in all <==> p in policies || p == c.policy;
    forall i | 0 <= i < |out|
      ensures Ordered(out[i].policy, c.policy)
    {
      OrderedAfter(policies, out[i].policy, c.policy, s);
    }
    forall p | p in policies && p.mode != Known(Disabled)
      ensures Has(more, p)
    {
      var i :| 0 <= i < |out| && out[i].policy == p;
      assert more[i].policy == p;
    }
  }

  lemma OrderedAfter(policies: seq<PolicyConfig>, p: PolicyConfig, q: PolicyConfig, s: Snapshot)
    requires p in policies && PoliciesOk(policies + [q], s)
    requires forall i :: 0 <= i < |policies| ==> PolicyLeq(policies[i], q)
    ensures Ordered(p, q)
  {
    DistinctSnoc(policies, q);
    assert p in policies + [q] && q in policies + [q];
    assert Compatible(p, q);
  }

  /** The union of the snapshot sets of the selectors; fails on one the snapshot lacks. */
  method SnapshotUnion(keys: seq<Selector>, s: Snapshot) returns (r: Option<Set>)
    requires SnapshotValid(s)
    ensures r.Some? <==> Resolves(Some(keys), s)
    ensures r.Some? ==> r.value.Valid() && forall f, a :: r.value.Has(f, a) <==> Picks(Some(keys), s, f, a)
  {
    var sets: seq<Set> := [];
    for i := 0 to |keys|
      invariant |sets| == i
      invariant forall k :: 0 <= k < i ==> keys[k] in s && sets[k] == s[keys[k]]
    {
      if keys[i] !in s {
        return None;
      }
      sets := sets + [s[keys[i]]];
    }
    var union := PrefixSet.Union(sets);
    forall f, a
      ensures union.Has(f, a) <==> Picks(Some(keys), s, f, a)
    {
      if union.Has(f, a) {
        var i :| 0 <= i < |sets| && sets[i].Has(f, a);
        assert keys[i] in s && s[keys[i]].Has(f, a);
      }
      if Picks(Some(keys), s, f, a) {
        var i :| 0 <= i < |keys| && keys[i] in s && s[keys[i]].Has(f, a);
        assert sets[i].Has(f, a);
      }
    }
    return Some(union);
  }

  /** Included minus excluded; fails when a selector is unknown or nothing is left. */
  method SelectPolicy(p: PolicyConfig, s: Snapshot) returns (r: Option<CompiledPolicy>)
    requires SnapshotValid(s)
    requires p.direction.Known? && p.mode != Known(Disabled)
    ensures r.Some? <==> PolicyOk(p, s)
    ensures r.Some? ==> r.value.policy == p && Stands(r.value, s)
  {
    if p.mode.Unknown? {
      return None;
    }
    if p.includes.None? || p.excludes.None? {
      return None;
    }
    var included := SnapshotUnion(p.includes.value, s);
    if included.None? {
      return None;
    }
    var excluded := SnapshotUnion(p.excludes.value, s);
    if excluded.None? {
      return None;
    }
    var effective := PrefixSet.Difference(included.value, excluded.value);
    if |effective.prefixes| == 0 {
      assert forall f, a :: !effective.Has(f, a);
      return None;
    }
    SomeAddress(effective);
    ghost var f, a :| effective.Has(f, a);
    assert Selected(p, s, f, a);
    return Some(CompiledPolicy(p, effective));
  }

  lemma SomeAddress(s: Set)
    requires s.Valid() && |s.prefixes| > 0
    ensures exists f, a :: s.Has(f, a)
  {
    var p := s.prefixes[0];
    EndInFamily(p);
    assert s.Has(p.fam, p.addr);
  }

  lemma CompiledSkip(policies: seq<PolicyConfig>, s: Snapshot, out: seq<CompiledPolicy>, p: PolicyConfig)
    requires CompiledFrom(policies, s, out) && p.mode == Known(Disabled)
    ensures CompiledFrom(policies + [p], s, out)
  {
    assert forall q :: q in policies + [p] <==> q in policies || q == p;
  }

  /** One turn of the loop: `done` are the policies seen before. */
  method AddPolicy(value: PolicyConfig, s: Snapshot, names: set<string>, priorities: set<(Written<Direction>, Int64)>,
                   compiled: seq<CompiledPolicy>, ghost done: seq<PolicyConfig>)
    returns (r: Option<seq<CompiledPolicy>>)
    requires SnapshotValid(s) && names == Names(done) && priorities == Priorities(done)
    requires PoliciesOk(done, s) && CompiledFrom(done, s, compiled)
    requires forall i :: 0 <= i < |done| ==> PolicyLeq(done[i], value)
    ensures r.Some? <==> PoliciesOk(done + [value], s)
    ensures r.Some? ==> CompiledFrom(done + [value], s, r.value)
  {
    OkSnoc(done, value, s);
    if value.name in names || value.direction.Unknown? {
      return None;
    }
    if (value.direction, value.priority) in priorities {
      return None;
    }
    if value.mode == Known(Disabled) {
      CompiledSkip(done, s, compiled, value);
      return Some(compiled);
    }
    var selected := SelectPolicy(value, s);
    if selected.None? {
      return None;
    }
    CompiledSnoc(done, s, compiled, selected.value);
    return Some(compiled + [selected.value]);
  }

  lemma SeenSnoc(done: seq<PolicyConfig>, p: PolicyConfig)
    ensures Names(done + [p]) == Names(done) + {p.name}
    ensures Priorities(done + [p]) == Priorities(done) + {(p.direction, p.priority)}
  {
    assert forall q :: q in done + [p] <==> q in done || q == p;
  }

  /** Succeeds exactly on acceptable policies, whatever their order. */
  method CompilePolicies(policies: seq<PolicyConfig>, s: Snapshot) returns (r: Option<seq<CompiledPolicy>>)
    requires SnapshotValid(s)
    ensures r.Some? <==> PoliciesOk(policies, s)
    ensures r.Some? ==> CompiledFrom(policies, s, r.value)
  {
    PolicyOrder();
    var sorted := Sort(PolicyLeq, policies);
    var seenNames: set<string> := {};
    var seenPriorities: set<(Written<Direction>, Int64)> := {};
    var compiled: seq<CompiledPolicy> := [];
    for i := 0 to |sorted|
      invariant seenNames == Names(sorted[..i]) && seenPriorities == Priorities(sorted[..i])
      invariant PoliciesOk(sorted[..i], s) && CompiledFrom(sorted[..i], s, compiled)
    {
      assert sorted[..i + 1] == sorted[..i] + [sorted[i]];
      var next := AddPolicy(sorted[i], s, seenNames, seenPriorities, compiled, sorted[..i]);
      if next.None? {
        if PoliciesOk(policies, s) {
          OkPermuted(policies, sorted, s);
          OkPrefix(sorted, i + 1, s);
        }
        return None;
      }
      compiled := next.value;
      SeenSnoc(sorted[..i], sorted[i]);
      seenNames := seenNames + {sorted[i].name};
      seenPriorities := seenPriorities + {(sorted[i].direction, sorted[i].priority)};
    }
    assert sorted[..|sorted|] == sorted;
    OkPermuted(sorted, policies, s);
    SameElements(sorted, policies);
    return Some(compiled);
  }

  // ---------- Rules of one path ----------

  predicate PolicyApplies(t: Traffic, f: Family) {
    t.any || |t.tcp| > 0 || |t.udp| > 0 || (if f.V4? then t.icmp else t.icmpv6)
  }

  function PolicyScope(t: Traffic, f: Family): Option<Scope> {
    if !PolicyApplies(t, f) then None
    else if t.any then Some(AnyTraffic)
    else Some(Scope(false, t.tcp, t.udp, if f.V4? then t.icmp else t.icmpv6))
  }

  /** The compiled scope matches a packet of its family exactly when the configured traffic does. */
  lemma ScopeMeaning(t: Traffic, k: Packet)
    ensures match PolicyScope(t, k.fam)
            case None => !InTraffic(t, k)
            case Some(scope) => InScope(scope, k) <==> InTraffic(t, k)
  {
  }

  function Plain(flow: Flow, setID: SetID, negate: bool): Match {
    Match(flow, setID, negate, AnyTraffic)
  }

  const FlowGuards := [
    Rule(Plain(EstablishedRelated, NoSet, false), Return, "", NoCounter),
    Rule(Plain(NotNew, NoSet, false), Return, "", NoCounter)]

  const FinalRule := Rule(Plain(AnyFlow, NoSet, false), Return, "", NoCounter)

  const GeoRule := Rule(Plain(AnyFlow, Eligible, true), Return, "", NoCounter)

  const AllowRule := Rule(Plain(AnyFlow, Allowlisted, false), Return, "", NoCounter)

  function DenyRule(setID: SetID, deny: Action, reason: Reason): Rule {
    Rule(Plain(AnyFlow, setID, false), deny, "", Denied(reason, deny))
  }

  /** What a listed address gets, then what any other address in scope gets. */
  function PolicyPair(p: PolicyConfig, scope: Scope, setID: SetID, deny: Action): seq<Rule> {
    var inSet, rest := Match(AnyFlow, setID, false, scope), Match(AnyFlow, NoSet, false, scope);
    if p.mode == Known(BlocklistMode) then
      [Rule(inSet, deny, p.name, Denied(GeoPolicy, deny)), Rule(rest, Return, p.name, NoCounter)]
    else
      [Rule(inSet, Return, p.name, NoCounter), Rule(rest, deny, p.name, Denied(GeoPolicy, deny))]
  }

  function RulesOf(p: PolicyConfig, d: Direction, f: Family, bindings: map<string, SetID>, deny: Action): seq<Rule>
    requires p.name in bindings
  {
    if p.direction != Known(d) then []
    else match PolicyScope(p.traffic, f)
      case None => []
      case Some(scope) => PolicyPair(p, scope, bindings[p.name], deny)
  }

  ghost predicate AllBound(policies: seq<CompiledPolicy>, bindings: map<string, SetID>) {
    forall i :: 0 <= i < |policies| ==> policies[i].policy.name in bindings
  }

  ghost function PolicyRules(policies: seq<CompiledPolicy>, d: Direction, f: Family, bindings: map<string, SetID>,
                             deny: Action): seq<Rule>
    requires AllBound(policies, bindings)
  {
    if policies == [] then []
    else
      var n := |policies| - 1;
      PolicyRules(policies[..n], d, f, bindings, deny) + RulesOf(policies[n].policy, d, f, bindings, deny)
  }

  ghost predicate HasGeo(policies: seq<CompiledPolicy>, d: Direction) {
    exists i :: 0 <= i < |policies| && policies[i].policy.direction == Known(d)
  }

  function When<T>(c: bool, x: T): seq<T> {
    if c then [x] else []
  }

  function GlobalRules(d: Direction, allow: seq<Prefix>, block: seq<Prefix>, crowdsec: bool, deny: Action): seq<Rule> {
    FlowGuards + When(allow != [], AllowRule) + When(block != [], DenyRule(Blocklisted, deny, GlobalBlocklist))
    + When(crowdsec && d.Ingress?, DenyRule(Banned, deny, CrowdSec))
  }

  ghost function PathRules(d: Direction, f: Family, allow: seq<Prefix>, block: seq<Prefix>,
                           policies: seq<CompiledPolicy>,
                           bindings: map<string, SetID>, crowdsec: bool, deny: Action): seq<Rule>
    requires AllBound(policies, bindings)
  {
    GlobalRules(d, allow, block, crowdsec, deny) + When(HasGeo(policies, d), GeoRule)
    + PolicyRules(policies, d, f, bindings, deny) + [FinalRule]
  }

  method AnyInDirection(policies: seq<CompiledPolicy>, d: Direction) returns (found: bool)
    ensures found <==> HasGeo(policies, d)
  {
    for i := 0 to |policies|
      invariant forall k :: 0 <= k < i ==> policies[k].policy.direction != Known(d)
    {
      if policies[i].policy.direction == Known(d) {
        return true;
      }
    }
    return false;
  }

  lemma PolicyRulesNext(head: seq<Rule>, policies: seq<CompiledPolicy>, i: nat, d: Direction, f: Family,
                        bindings: map<string, SetID>, deny: Action)
    requires AllBound(policies, bindings) && i < |policies|
    ensures head + PolicyRules(policies[..i + 1], d, f, bindings, deny) ==
            head + PolicyRules(policies[..i], d, f, bindings, deny) + RulesOf(policies[i].policy, d, f, bindings, deny)
  {
    assert policies[..i + 1][..i] == policies[..i];
  }

  method AppendPolicies(head: seq<Rule>, d: Direction, f: Family, policies: seq<CompiledPolicy>,
                        bindings: map<string, SetID>, deny: Action)
    returns (rules: seq<Rule>)
    requires AllBound(policies, bindings)
    ensures rules == head + PolicyRules(policies, d, f, bindings, deny)
  {
    rules := head;
    for i := 0 to |policies|
      invariant rules == head + PolicyRules(policies[..i], d, f, bindings, deny)
    {
      PolicyRulesNext(head, policies, i, d, f, bindings, deny);
      rules := rules + RulesOf(policies[i].policy, d, f, bindings, deny);
    }
    assert policies[..|policies|] == policies;
  }

  method CompilePath(d: Direction, remote: Remote, f: Family, allow: seq<Prefix>, block: seq<Prefix>,
                     policies: seq<CompiledPolicy>,
                     bindings: map<string, SetID>, crowdsec: bool, deny: Action) returns (path: Path)
    requires AllBound(policies, bindings)
    ensures path == Path(d, remote, PathRules(d, f, allow, block, policies, bindings, crowdsec, deny))
  {
    var rules := GlobalRules(d, allow, block, crowdsec, deny);
    var hasGeo := AnyInDirection(policies, d);
    rules := rules + When(hasGeo, GeoRule);
    rules := AppendPolicies(rules, d, f, policies, bindings, deny);
    path := Path(d, remote, rules + [FinalRule]);
  }

  lemma {:induction false} PolicyRulesUnguarded(policies: seq<CompiledPolicy>, d: Direction, f: Family,
                                                bindings: map<string, SetID>, deny: Action)
    requires AllBound(policies, bindings)
    ensures forall r :: r in PolicyRules(policies, d, f, bindings, deny) ==> r.guard.flow.AnyFlow?
    decreases |policies|
  {
    if policies != [] {
      PolicyRulesUnguarded(policies[..|policies| - 1], d, f, bindings, deny);
    }
  }

  /** Compiled paths start with the two flow guards and have no other. */
  lemma PathGuarded(d: Direction, f: Family, allow: seq<Prefix>, block: seq<Prefix>, policies: seq<CompiledPolicy>,
                    bindings: map<string, SetID>, crowdsec: bool, deny: Action)
    requires AllBound(policies, bindings)
    ensures GuardsFirst(PathRules(d, f, allow, block, policies, bindings, crowdsec, deny), 2)
  {
    var global, own := GlobalRules(d, allow, block, crowdsec, deny), PolicyRules(policies, d, f, bindings, deny);
    var head := global + When(HasGeo(policies, d), GeoRule);
    GlobalGuarded(d, allow, block, crowdsec, deny);
    GuardsAppend(global, 2, When(HasGeo(policies, d), GeoRule));
    PolicyRulesUnguarded(policies, d, f, bindings, deny);
    GuardsAppend(head, 2, own);
    GuardsAppend(head + own, 2, [FinalRule]);
  }

  lemma GlobalGuarded(d: Direction, allow: seq<Prefix>, block: seq<Prefix>, crowdsec: bool, deny: Action)
    ensures GuardsFirst(GlobalRules(d, allow, block, crowdsec, deny), 2)
  {
    var r1 := FlowGuards + When(allow != [], AllowRule);
    var r2 := r1 + When(block != [], DenyRule(Blocklisted, deny, GlobalBlocklist));
    assert FlowGuards[1].guard.flow.NotNew?;
    assert GuardsFirst(FlowGuards, 2);
    GuardsAppend(FlowGuards, 2, When(allow != [], AllowRule));
    GuardsAppend(r1, 2, When(block != [], DenyRule(Blocklisted, deny, GlobalBlocklist)));
    GuardsAppend(r2, 2, When(crowdsec && d.Ingress?, DenyRule(Banned, deny, CrowdSec)));
  }

  // ---------- What a path decides ----------

  /** The policy's set holds exactly what the policy selects in the family. */
  ghost predicate SetStands(sets: seq<NamedSet>, bindings: map<string, SetID>, c: CompiledPolicy, f: Family) {
    && c.policy.name in bindings && !bindings[c.policy.name].NoSet?
    && forall bans, a :: Member(sets, bans, bindings[c.policy.name], f, a) <==> c.included.Has(f, a)
  }

  ghost predicate AllStand(sets: seq<NamedSet>, bindings: map<string, SetID>, policies: seq<CompiledPolicy>,
                           f: Family) {
    forall i :: 0 <= i < |policies| ==> SetStands(sets, bindings, policies[i], f)
  }

  /** The rules of one policy decide exactly the packets it applies to. */
  lemma OnePolicy(sets: seq<NamedSet>, bans: seq<Prefix>, remote: Remote, c: CompiledPolicy,
                  bindings: map<string, SetID>, deny: Action, k: Packet)
    requires SetStands(sets, bindings, c, k.fam) && c.policy.mode != Known(Disabled)
    ensures var m := FirstMatch(sets, bans, remote, RulesOf(c.policy, k.direction, k.fam, bindings, deny), k);
            if Applies(c.policy, k) then m.Some? && RuleVerdict(m) == PolicyVerdict(c.policy, c.included.Has(k.fam, RemoteOf(remote, k)), deny)
            else m.None?
  {
    var rules := RulesOf(c.policy, k.direction, k.fam, bindings, deny);
    ScopeMeaning(c.policy.traffic, k);
    if |rules| == 2 {
      assert rules == [rules[0]] + [rules[1]];
      FirstMatchCons(sets, bans, remote, rules[0], [rules[1]], k);
      FirstMatchOne(sets, bans, remote, rules[1], k);
      assert Member(sets, bans, bindings[c.policy.name], k.fam, RemoteOf(remote, k)) <==> c.included.Has(k.fam, RemoteOf(remote, k));
    }
  }

  ghost predicate FirstApplying(policies: seq<CompiledPolicy>, k: Packet, i: int) {
    0 <= i < |policies| && Applies(policies[i].policy, k) && forall j :: 0 <= j < i ==> !Applies(policies[j].policy, k)
  }

  /** `m` is the rule with which the first policy that applies decides about address `a`. */
  ghost predicate Chosen(policies: seq<CompiledPolicy>, k: Packet, a: nat, deny: Action, m: Option<Rule>) {
    && (m.None? <==> forall i :: 0 <= i < |policies| ==> !Applies(policies[i].policy, k))
    && (forall i :: FirstApplying(policies, k, i) ==>
          RuleVerdict(m) == PolicyVerdict(policies[i].policy, policies[i].included.Has(k.fam, a), deny))
  }

  lemma ChosenSnoc(front: seq<CompiledPolicy>, c: CompiledPolicy, k: Packet, a: nat, deny: Action, m: Option<Rule>,
                   next: Option<Rule>)
    requires Chosen(front, k, a, deny, m)
    requires next.Some? <==> Applies(c.policy, k)
    requires next.Some? ==> RuleVerdict(next) == PolicyVerdict(c.policy, c.included.Has(k.fam, a), deny)
    ensures Chosen(front + [c], k, a, deny, if m.Some? then m else next)
  {
    var all := front + [c];
    assert all[|front|] == c;
    assert forall i :: 0 <= i < |front| ==> all[i] == front[i];
    forall i | FirstApplying(all, k, i)
      ensures i < |front| ==> FirstApplying(front, k, i)
      ensures i == |front| ==> m.None?
    {
    }
  }

  /** The first policy that applies decides. */
  lemma {:induction false} PolicyRulesDecide(sets: seq<NamedSet>, bans: seq<Prefix>, remote: Remote,
                                             policies: seq<CompiledPolicy>,
                                             bindings: map<string, SetID>, deny: Action, k: Packet)
    requires AllBound(policies, bindings) && AllStand(sets, bindings, policies, k.fam)
    requires forall i :: 0 <= i < |policies| ==> policies[i].policy.mode != Known(Disabled)
    ensures Chosen(policies, k, RemoteOf(remote, k), deny,
                   FirstMatch(sets, bans, remote, PolicyRules(policies, k.direction, k.fam, bindings, deny), k))
    decreases |policies|
  {
    if policies != [] {
      var n := |policies| - 1;
      var front, last := policies[..n], policies[n];
      assert policies == front + [last];
      var rest := PolicyRules(front, k.direction, k.fam, bindings, deny);
      var own := RulesOf(last.policy, k.direction, k.fam, bindings, deny);
      PolicyRulesDecide(sets, bans, remote, front, bindings, deny, k);
      OnePolicy(sets, bans, remote, last, bindings, deny, k);
      FirstMatchAppend(sets, bans, remote, rest, own, k);
      ChosenSnoc(front, last, k, RemoteOf(remote, k), deny, FirstMatch(sets, bans, remote, rest, k), FirstMatch(sets, bans, remote, own, k));
    }
  }

  // ---------- Well-made rules ----------

  ghost predicate HasSet(sets: seq<NamedSet>, id: SetID) {
    exists x :: x in sets && x.id == id
  }

  ghost predicate PolicyTraffic(policies: seq<PolicyConfig>, f: Family, scope: Scope) {
    exists p :: p in policies && PolicyScope(p.traffic, f) == Some(scope)
  }

  /** A rule matches any traffic or that of a policy, refers only to sets of its plan, and to a geo set
      only for the policy bound to it; it negates only the geo-eligible set, and tests the flow only by
      itself. */
  ghost predicate WellMade(policies: seq<PolicyConfig>, f: Family, sets: seq<NamedSet>, bindings: map<string, SetID>,
                           r: Rule) {
    && (r.guard.traffic == AnyTraffic || PolicyTraffic(policies, f, r.guard.traffic))
    && (r.guard.setID.NoSet? || HasSet(sets, r.guard.setID)) && (r.guard.negate ==> r.guard.setID.Eligible?)
    && (r.guard.setID.Geo? ==> r.policy in bindings && bindings[r.policy] == r.guard.setID)
    && (r.guard.flow.AnyFlow? || (r.guard.traffic == AnyTraffic && r.guard.setID.NoSet? && r.policy == ""))
  }

  ghost predicate AllWellMade(policies: seq<PolicyConfig>, f: Family, sets: seq<NamedSet>,
                              bindings: map<string, SetID>, rules: seq<Rule>) {
    forall r :: r in rules ==> WellMade(policies, f, sets, bindings, r)
  }

  ghost predicate PoliciesHaveSets(configured: seq<PolicyConfig>, policies: seq<CompiledPolicy>,
                                   bindings: map<string, SetID>,
                                   sets: seq<NamedSet>) {
    AllBound(policies, bindings) &&
    forall i :: 0 <= i < |policies| ==> policies[i].policy in configured && HasSet(sets, bindings[policies[i].policy.name])
  }

  lemma {:induction false} PolicyRulesWellMade(configured: seq<PolicyConfig>, policies: seq<CompiledPolicy>,
                                               d: Direction, f: Family,
                                               bindings: map<string, SetID>, deny: Action, sets: seq<NamedSet>)
    requires PoliciesHaveSets(configured, policies, bindings, sets)
    ensures AllWellMade(configured, f, sets, bindings, PolicyRules(policies, d, f, bindings, deny))
    decreases |policies|
  {
    if policies != [] {
      var n := |policies| - 1;
      PolicyRulesWellMade(configured, policies[..n], d, f, bindings, deny, sets);
      var p := policies[n].policy;
      forall r | r in RulesOf(p, d, f, bindings, deny)
        ensures WellMade(configured, f, sets, bindings, r)
      {
        assert PolicyTraffic(configured, f, r.guard.traffic);
      }
    }
  }

  lemma GlobalRulesWellMade(configured: seq<PolicyConfig>, d: Direction, f: Family, allow: seq<Prefix>,
                            block: seq<Prefix>,
                            crowdsec: bool, deny: Action, sets: seq<NamedSet>, bindings: map<string, SetID>)
    requires allow != [] ==> HasSet(sets, Allowlisted)
    requires block != [] ==> HasSet(sets, Blocklisted)
    requires crowdsec ==> HasSet(sets, Banned)
    ensures AllWellMade(configured, f, sets, bindings, GlobalRules(d, allow, block, crowdsec, deny))
  {
    assert AllWellMade(configured, f, sets, bindings, FlowGuards);
  }

  /** Whatever the other rules pass over, the last one decides. */
  ghost predicate EndsOpen(rules: seq<Rule>) {
    rules != [] && rules[|rules| - 1] == FinalRule
  }

  lemma PathWellMade(configured: seq<PolicyConfig>, d: Direction, f: Family, allow: seq<Prefix>, block: seq<Prefix>,
                     policies: seq<CompiledPolicy>, bindings: map<string, SetID>, crowdsec: bool, deny: Action, sets: seq<NamedSet>)
    requires PoliciesHaveSets(configured, policies, bindings, sets)
    requires allow != [] ==> HasSet(sets, Allowlisted)
    requires block != [] ==> HasSet(sets, Blocklisted)
    requires crowdsec ==> HasSet(sets, Banned)
    requires policies != [] ==> HasSet(sets, Eligible)
    ensures AllWellMade(configured, f, sets, bindings, PathRules(d, f, allow, block, policies, bindings, crowdsec, deny))
    ensures EndsOpen(PathRules(d, f, allow, block, policies, bindings, crowdsec, deny))
  {
    GlobalRulesWellMade(configured, d, f, allow, block, crowdsec, deny, sets, bindings);
    PolicyRulesWellMade(configured, policies, d, f, bindings, deny, sets);
    assert AllWellMade(configured, f, sets, bindings, When(HasGeo(policies, d), GeoRule));
  }

  // ---------- One family ----------

  /** The policies of `all` whose traffic can occur in the family, in the same order. */
  ghost predicate FilteredFor(all: seq<CompiledPolicy>, f: Family, out: seq<CompiledPolicy>) {
    && (forall i :: 0 <= i < |out| ==> out[i] in all)
    && (forall c :: c in all && PolicyApplies(c.policy.traffic, f) ==> c in out)
    && (forall i, j :: 0 <= i < j < |out| ==> Ordered(out[i].policy, out[j].policy))
  }

  method FamilyPolicies(all: seq<CompiledPolicy>, f: Family) returns (out: seq<CompiledPolicy>)
    requires forall i, j :: 0 <= i < j < |all| ==> Ordered(all[i].policy, all[j].policy)
    ensures FilteredFor(all, f, out)
  {
    out := [];
    for i := 0 to |all|
      invariant FilteredFor(all[..i], f, out)
      invariant forall x, j :: 0 <= x < |out| && i <= j < |all| ==> Ordered(out[x].policy, all[j].policy)
    {
      assert all[..i + 1] == all[..i] + [all[i]];
      if PolicyApplies(all[i].policy.traffic, f) {
        out := out + [all[i]];
      }
    }
    assert all[..|all|] == all;
  }

  lemma CompiledElement(policies: seq<PolicyConfig>, s: Snapshot, all: seq<CompiledPolicy>, f: Family,
                        out: seq<CompiledPolicy>, i: nat)
    requires CompiledFrom(policies, s, all) && FilteredFor(all, f, out) && i < |out|
    ensures out[i].policy in policies && out[i].policy.mode != Known(Disabled) && Stands(out[i], s)
  {
    assert out[i] in all;
  }

  /** The deciding policy is the first of the family's policies that applies. */
  lemma DecidesFirst(policies: seq<PolicyConfig>, s: Snapshot, all: seq<CompiledPolicy>, out: seq<CompiledPolicy>,
                     k: Packet, p: PolicyConfig)
    returns (i: nat)
    requires CompiledFrom(policies, s, all) && FilteredFor(all, k.fam, out) && Decides(policies, k, p)
    ensures FirstApplying(out, k, i) && out[i].policy == p
  {
    assert Has(all, p);
    var x :| 0 <= x < |all| && all[x].policy == p;
    assert PolicyApplies(p.traffic, k.fam);
    assert all[x] in out;
    i :| 0 <= i < |out| && out[i] == all[x];
    forall j | 0 <= j < i
      ensures !Applies(out[j].policy, k)
    {
      assert Ordered(out[j].policy, out[i].policy);
      CompiledElement(policies, s, all, k.fam, out, j);
    }
  }

  /** The chosen rule gives the verdict of the deciding policy, read from the configuration. */
  lemma ChosenDeclared(policies: seq<PolicyConfig>, s: Snapshot, all: seq<CompiledPolicy>, out: seq<CompiledPolicy>,
                       k: Packet, a: nat, deny: Action, m: Option<Rule>)
    requires CompiledFrom(policies, s, all) && FilteredFor(all, k.fam, out) && Chosen(out, k, a, deny, m)
    ensures GeoDeclared(policies, s, deny, a, k, RuleVerdict(m))
  {
    forall p | Decides(policies, k, p)
      ensures RuleVerdict(m) == PolicyVerdict(p, Selected(p, s, k.fam, a), deny)
    {
      var i := DecidesFirst(policies, s, all, out, k, p);
      CompiledElement(policies, s, all, k.fam, out, i);
    }
    if forall p :: p in policies ==> !Applies(p, k) {
      forall i | 0 <= i < |out|
        ensures !Applies(out[i].policy, k)
      {
        CompiledElement(policies, s, all, k.fam, out, i);
      }
    }
  }

  /** An optional rule on a set is reached when nothing before it matches. */
  lemma WhenMatch(sets: seq<NamedSet>, bans: seq<Prefix>, remote: Remote, before: seq<Rule>, c: bool, r: Rule,
                  k: Packet)
    requires !r.guard.setID.NoSet? && r.guard == Plain(AnyFlow, r.guard.setID, r.guard.negate)
    ensures FirstMatch(sets, bans, remote, before + When(c, r), k) ==
            if FirstMatch(sets, bans, remote, before, k).Some? then FirstMatch(sets, bans, remote, before, k)
            else if c && Member(sets, bans, r.guard.setID, k.fam, RemoteOf(remote, k)) != r.guard.negate then Some(r) else None
  {
    FirstMatchAppend(sets, bans, remote, before, When(c, r), k);
    FirstMatchOne(sets, bans, remote, r, k);
  }

  lemma GuardMatch(sets: seq<NamedSet>, bans: seq<Prefix>, remote: Remote, k: Packet)
    ensures FirstMatch(sets, bans, remote, FlowGuards, k).Some? <==> !k.conntrack.New?
    ensures RuleVerdict(FirstMatch(sets, bans, remote, FlowGuards, k)) == Pass
  {
    assert FlowGuards == [FlowGuards[0]] + [FlowGuards[1]];
    FirstMatchCons(sets, bans, remote, FlowGuards[0], [FlowGuards[1]], k);
    FirstMatchOne(sets, bans, remote, FlowGuards[1], k);
  }

  /** The stages before the policies: what they decide, if anything. */
  ghost function Staged(sets: seq<NamedSet>, bans: seq<Prefix>, remote: Remote, d: Direction, allow: seq<Prefix>,
                        block: seq<Prefix>,
                        crowdsec: bool, deny: Action, k: Packet): Option<Verdict> {
    var a := RemoteOf(remote, k);
    if !k.conntrack.New? then Some(Pass)
    else if allow != [] && Member(sets, bans, Allowlisted, k.fam, a) then Some(Pass)
    else if block != [] && Member(sets, bans, Blocklisted, k.fam, a) then Some(Denial(deny, "", GlobalBlocklist))
    else if crowdsec && d.Ingress? && Member(sets, bans, Banned, k.fam, a) then Some(Denial(deny, "", CrowdSec))
    else None
  }

  lemma GlobalStaged(sets: seq<NamedSet>, bans: seq<Prefix>, remote: Remote, d: Direction, allow: seq<Prefix>,
                     block: seq<Prefix>,
                     crowdsec: bool, deny: Action, k: Packet)
    ensures var m := FirstMatch(sets, bans, remote, GlobalRules(d, allow, block, crowdsec, deny), k);
            var staged := Staged(sets, bans, remote, d, allow, block, crowdsec, deny, k);
            (m.Some? <==> staged.Some?) && (m.Some? ==> RuleVerdict(m) == staged.value)
  {
    var r1 := FlowGuards + When(allow != [], AllowRule);
    var blocked := DenyRule(Blocklisted, deny, GlobalBlocklist);
    var r2 := r1 + When(block != [], blocked);
    AllowStaged(sets, bans, remote, allow, k);
    WhenMatch(sets, bans, remote, r1, block != [], blocked, k);
    WhenMatch(sets, bans, remote, r2, crowdsec && d.Ingress?, DenyRule(Banned, deny, CrowdSec), k);
  }

  lemma AllowStaged(sets: seq<NamedSet>, bans: seq<Prefix>, remote: Remote, allow: seq<Prefix>, k: Packet)
    ensures var m := FirstMatch(sets, bans, remote, FlowGuards + When(allow != [], AllowRule), k);
            && (m.Some? <==> !k.conntrack.New? || (allow != [] && Member(sets, bans, Allowlisted, k.fam, RemoteOf(remote, k))))
            && RuleVerdict(m) == Pass
  {
    GuardMatch(sets, bans, remote, k);
    WhenMatch(sets, bans, remote, FlowGuards, allow != [], AllowRule, k);
  }

  lemma PathStaged(sets: seq<NamedSet>, bans: seq<Prefix>, remote: Remote, d: Direction, f: Family, allow: seq<Prefix>,
                   block: seq<Prefix>,
                   policies: seq<CompiledPolicy>, bindings: map<string, SetID>, crowdsec: bool, deny: Action, k: Packet)
    requires AllBound(policies, bindings)
    ensures var verdict := RuleVerdict(FirstMatch(sets, bans, remote, PathRules(d, f, allow, block, policies, bindings, crowdsec, deny), k));
            var staged := Staged(sets, bans, remote, d, allow, block, crowdsec, deny, k);
            if staged.Some? then verdict == staged.value
            else if HasGeo(policies, d) && !Member(sets, bans, Eligible, k.fam, RemoteOf(remote, k)) then verdict == Pass
            else verdict == RuleVerdict(FirstMatch(sets, bans, remote, PolicyRules(policies, d, f, bindings, deny), k))
  {
    var own, global := PolicyRules(policies, d, f, bindings, deny), GlobalRules(d, allow, block, crowdsec, deny);
    var head := global + When(HasGeo(policies, d), GeoRule);
    GlobalStaged(sets, bans, remote, d, allow, block, crowdsec, deny, k);
    WhenMatch(sets, bans, remote, global, HasGeo(policies, d), GeoRule, k);
    FirstMatchAppend(sets, bans, remote, head, own, k);
    FinalPasses(sets, bans, remote, head + own, k);
  }

  lemma FinalPasses(sets: seq<NamedSet>, bans: seq<Prefix>, remote: Remote, before: seq<Rule>, k: Packet)
    ensures RuleVerdict(FirstMatch(sets, bans, remote, before + [FinalRule], k)) == RuleVerdict(FirstMatch(sets, bans, remote, before, k))
  {
    FirstMatchAppend(sets, bans, remote, before, [FinalRule], k);
    FirstMatchOne(sets, bans, remote, FinalRule, k);
  }

  /** The global sets hold an address when the configuration lists it. */
  ghost predicate GlobalsStand(sets: seq<NamedSet>, cfg: Config, geo: Geo, allow: seq<Prefix>, block: seq<Prefix>,
                               hasPolicies: bool,
                               bans: seq<Prefix>, f: Family, a: nat) {
    && (Listed(cfg.allow, f, a) <==> allow != [] && Member(sets, bans, Allowlisted, f, a))
    && (Listed(cfg.block, f, a) <==> block != [] && Member(sets, bans, Blocklisted, f, a))
    && (cfg.crowdsec ==> (Member(sets, bans, Banned, f, a) <==> Covered(bans, f, a)))
    && (hasPolicies ==> (Member(sets, bans, Eligible, f, a) <==> geo.Of(f).Has(f, a)))
  }

  lemma PathDeclared(cfg: Config, s: Snapshot, geo: Geo, sets: seq<NamedSet>, bans: seq<Prefix>, allow: seq<Prefix>,
                     block: seq<Prefix>,
                     all: seq<CompiledPolicy>, out: seq<CompiledPolicy>, bindings: map<string, SetID>, k: Packet)
    requires CompiledFrom(cfg.policies, s, all) && FilteredFor(all, k.fam, out)
    requires AllBound(out, bindings) && AllStand(sets, bindings, out, k.fam)
    requires GlobalsStand(sets, cfg, geo, allow, block, out != [], bans, k.fam, if k.direction.Ingress? then k.source else k.destination)
    ensures var remote := if k.direction.Ingress? then SourceAddress else DestinationAddress;
            var rules := PathRules(k.direction, k.fam, allow, block, out, bindings, cfg.crowdsec && k.direction.Ingress?, Deny(cfg.denyAction));
            Declared(cfg, s, geo, bans, k, RuleVerdict(FirstMatch(sets, bans, remote, rules, k)))
  {
    var remote := if k.direction.Ingress? then SourceAddress else DestinationAddress;
    var deny := Deny(cfg.denyAction);
    var a := RemoteOf(remote, k);
    PathStaged(sets, bans, remote, k.direction, k.fam, allow, block, out, bindings, cfg.crowdsec && k.direction.Ingress?, deny, k);
    forall i | 0 <= i < |out|
      ensures out[i].policy.mode != Known(Disabled)
    {
      CompiledElement(cfg.policies, s, all, k.fam, out, i);
    }
    PolicyRulesDecide(sets, bans, remote, out, bindings, deny, k);
    var m := FirstMatch(sets, bans, remote, PolicyRules(out, k.direction, k.fam, bindings, deny), k);
    ChosenDeclared(cfg.policies, s, all, out, k, a, deny, m);
    if !HasGeo(out, k.direction) {
      assert forall i :: 0 <= i < |out| ==> !Applies(out[i].policy, k);
    }
  }

  method AddSet(sets: seq<NamedSet>, c: bool, x: NamedSet) returns (r: seq<NamedSet>)
    requires UniqueIDs(sets) && forall y :: y in sets ==> y.id != x.id
    ensures UniqueIDs(r) && forall y :: y in r <==> y in sets || (c && y == x)
  {
    r := if c then sets + [x] else sets;
  }

  lemma UniqueAppend(a: seq<NamedSet>, b: seq<NamedSet>)
    requires UniqueIDs(a) && UniqueIDs(b)
    requires forall x, y :: x in a && y in b ==> x.id != y.id
    ensures UniqueIDs(a + b)
  {
  }

  /** In sets with unique IDs, membership under an ID is membership in its set. */
  lemma MemberIn(sets: seq<NamedSet>, x: NamedSet, bans: seq<Prefix>, f: Family, a: nat)
    requires UniqueIDs(sets) && x in sets
    ensures Member(sets, bans, x.id, f, a) <==> Holds(x, bans, f, a)
  {
    FindUnique(sets, x);
  }

  /** The family's sets, with each configured list in its set. */
  ghost predicate FamilySets(sets: seq<NamedSet>, allow: seq<Prefix>, block: seq<Prefix>, crowdsec: bool,
                             hasPolicies: bool, eligible: seq<Prefix>) {
    && UniqueIDs(sets)
    && (allow != [] ==> NamedSet(Allowlisted, StaticSet, allow) in sets)
    && (block != [] ==> NamedSet(Blocklisted, StaticSet, block) in sets)
    && (crowdsec ==> NamedSet(Banned, DynamicCrowdSecSet, []) in sets)
    && (hasPolicies ==> NamedSet(Eligible, StaticSet, eligible) in sets)
  }

  /** Only the set of bans is dynamic; a set holds blocks of its family only, or is the given geo-eligible set. */
  ghost predicate OwnPrefixes(x: NamedSet, f: Family, eligible: seq<Prefix>) {
    && (x.kind.DynamicCrowdSecSet? <==> x.id.Banned?)
    && ((Canonical(x.prefixes) && AllOf(x.prefixes, f)) || x.prefixes == eligible)
  }

  lemma GeoOwnPrefixes(policies: seq<CompiledPolicy>, f: Family, named: seq<Named>, x: NamedSet, eligible: seq<Prefix>)
    requires |named| == |policies|
    requires forall i :: 0 <= i < |policies| ==> policies[i].included.Valid() && named[i].sequence == policies[i].included.OfFamily(f)
    requires OwnedSet(named, x)
    ensures OwnPrefixes(x, f, eligible)
  {
    var i: nat :| NamedSetOf(named, x, i);
    FamilyPart(policies[i].included, f, 0);
  }

  method GlobalSets(allow: seq<Prefix>, block: seq<Prefix>, crowdsec: bool, hasPolicies: bool, eligible: seq<Prefix>)
    returns (sets: seq<NamedSet>)
    ensures FamilySets(sets, allow, block, crowdsec, hasPolicies, eligible)
    ensures forall y :: y in sets ==> !y.id.Geo? && y.prefixes in [allow, block, [], eligible]
    ensures forall y :: y in sets ==> (y.kind.DynamicCrowdSecSet? <==> y.id.Banned?)
  {
    sets := AddSet([], allow != [], NamedSet(Allowlisted, StaticSet, allow));
    sets := AddSet(sets, block != [], NamedSet(Blocklisted, StaticSet, block));
    sets := AddSet(sets, crowdsec, NamedSet(Banned, DynamicCrowdSecSet, []));
    sets := AddSet(sets, hasPolicies, NamedSet(Eligible, StaticSet, eligible));
  }

  lemma GlobalsFollow(sets: seq<NamedSet>, cfg: Config, geo: Geo, allow: Set, block: Set, hasPolicies: bool,
                      bans: seq<Prefix>, f: Family, a: nat)
    requires allow.Valid() && block.Valid() && geo.Valid()
    requires allow.Has(f, a) <==> Listed(cfg.allow, f, a)
    requires block.Has(f, a) <==> Listed(cfg.block, f, a)
    requires FamilySets(sets, allow.OfFamily(f), block.OfFamily(f), cfg.crowdsec, hasPolicies, geo.Of(f).prefixes)
    ensures GlobalsStand(sets, cfg, geo, allow.OfFamily(f), block.OfFamily(f), hasPolicies, bans, f, a)
  {
    var al, bl := allow.OfFamily(f), block.OfFamily(f);
    FamilyPart(allow, f, a);
    FamilyPart(block, f, a);
    if al != [] {
      MemberIn(sets, NamedSet(Allowlisted, StaticSet, al), bans, f, a);
    }
    if bl != [] {
      MemberIn(sets, NamedSet(Blocklisted, StaticSet, bl), bans, f, a);
    }
    if cfg.crowdsec {
      MemberIn(sets, NamedSet(Banned, DynamicCrowdSecSet, []), bans, f, a);
    }
    if hasPolicies {
      MemberIn(sets, NamedSet(Eligible, StaticSet, geo.Of(f).prefixes), bans, f, a);
    }
  }

  /** What the sets and the bindings of one family must satisfy. */
  lemma BoundStands(sets: seq<NamedSet>, geoSets: seq<NamedSet>, bindings: map<string, SetID>, c: CompiledPolicy,
                    f: Family)
    requires UniqueIDs(sets) && c.included.Valid()
    requires forall x :: x in geoSets ==> x in sets && x.id.Geo?
    requires Bound(geoSets, bindings, Named(c.policy.name, c.included.OfFamily(f)))
    ensures SetStands(sets, bindings, c, f)
  {
    var x := NamedSet(bindings[c.policy.name], StaticSet, c.included.OfFamily(f));
    forall bans, a
      ensures Member(sets, bans, bindings[c.policy.name], f, a) <==> c.included.Has(f, a)
    {
      MemberIn(sets, x, bans, f, a);
      FamilyPart(c.included, f, a);
    }
  }

  /** The plan gives every packet of its family the declared verdict. */
  ghost predicate PlanStands(cfg: Config, s: Snapshot, geo: Geo, plan: FamilyPlan) {
    forall bans, k: Packet :: k.fam == plan.fam ==> Declared(cfg, s, geo, bans, k, PathsVerdict(plan.sets, bans, plan.paths, k))
  }

  /** The shape of a compiled plan: an ingress and an egress path that start with the flow guards,
      and end with a rule for everything, well-made rules, and named sets of its own family. */
  ghost predicate PlanMade(cfg: Config, geo: Geo, plan: FamilyPlan) {
    && TwoGuardedPaths(plan) && EndsOpen(plan.paths[0].rules) && EndsOpen(plan.paths[1].rules)
    && (exists bindings :: RulesMade(cfg.policies, plan, bindings))
    && UniqueIDs(plan.sets) && (forall x :: x in plan.sets ==> OwnPrefixes(x, plan.fam, geo.Of(plan.fam).prefixes))
  }

  ghost predicate RulesMade(policies: seq<PolicyConfig>, plan: FamilyPlan, bindings: map<string, SetID>) {
    forall i :: 0 <= i < |plan.paths| ==> AllWellMade(policies, plan.fam, plan.sets, bindings, plan.paths[i].rules)
  }

  ghost predicate TwoGuardedPaths(plan: FamilyPlan) {
    && |plan.paths| == 2 && plan.paths[0].direction.Ingress? && plan.paths[1].direction.Egress?
    && forall i :: 0 <= i < 2 ==> GuardsFirst(plan.paths[i].rules, 2) && plan.paths[i].remote == RemoteFor(plan.paths[i].direction)
  }

  lemma SetsPresent(sets: seq<NamedSet>, allow: seq<Prefix>, block: seq<Prefix>, crowdsec: bool, hasPolicies: bool,
                    eligible: seq<Prefix>)
    requires FamilySets(sets, allow, block, crowdsec, hasPolicies, eligible)
    ensures (allow != [] ==> HasSet(sets, Allowlisted)) && (block != [] ==> HasSet(sets, Blocklisted))
    ensures (crowdsec ==> HasSet(sets, Banned)) && (hasPolicies ==> HasSet(sets, Eligible))
  {
  }

  lemma PlanIsMade(cfg: Config, geo: Geo, plan: FamilyPlan, al: seq<Prefix>, bl: seq<Prefix>,
                   policies: seq<CompiledPolicy>, bindings: map<string, SetID>)
    requires PoliciesHaveSets(cfg.policies, policies, bindings, plan.sets) && |plan.paths| == 2
    requires FamilySets(plan.sets, al, bl, cfg.crowdsec, policies != [], geo.Of(plan.fam).prefixes)
    requires forall x :: x in plan.sets ==> OwnPrefixes(x, plan.fam, geo.Of(plan.fam).prefixes)
    requires plan.paths[0] ==
             Path(Ingress, SourceAddress, PathRules(Ingress, plan.fam, al, bl, policies, bindings, cfg.crowdsec, Deny(cfg.denyAction)))
    requires plan.paths[1] ==
             Path(Egress, DestinationAddress, PathRules(Egress, plan.fam, al, bl, policies, bindings, false, Deny(cfg.denyAction)))
    requires GuardsFirst(plan.paths[0].rules, 2) && GuardsFirst(plan.paths[1].rules, 2)
    ensures PlanMade(cfg, geo, plan)
  {
    SetsPresent(plan.sets, al, bl, cfg.crowdsec, policies != [], geo.Of(plan.fam).prefixes);
    PathWellMade(cfg.policies, Ingress, plan.fam, al, bl, policies, bindings, cfg.crowdsec, Deny(cfg.denyAction), plan.sets);
    PathWellMade(cfg.policies, Egress, plan.fam, al, bl, policies, bindings, false, Deny(cfg.denyAction), plan.sets);
    assert RulesMade(cfg.policies, plan, bindings);
  }

  function SequencesOf(policies: seq<CompiledPolicy>, f: Family): (r: seq<Named>)
    requires forall i :: 0 <= i < |policies| ==> policies[i].included.v6Start <= |policies[i].included.prefixes|
    ensures |r| == |policies|
    ensures forall i :: 0 <= i < |policies| ==> r[i] == Named(policies[i].policy.name, policies[i].included.OfFamily(f))
  {
    seq(|policies|, i requires 0 <= i < |policies| => Named(policies[i].policy.name, policies[i].included.OfFamily(f)))
  }

  /** All sets of one family, and the set of each policy. */
  method FamilySetsOf(f: Family, allow: seq<Prefix>, block: seq<Prefix>, policies: seq<CompiledPolicy>, crowdsec: bool,
                      eligible: seq<Prefix>, hash: seq<Prefix> -> nat)
    returns (sets: seq<NamedSet>, bindings: map<string, SetID>)
    requires forall i :: 0 <= i < |policies| ==> policies[i].included.Valid()
    requires forall i, j :: 0 <= i < j < |policies| ==> Ordered(policies[i].policy, policies[j].policy)
    requires Canonical(allow) && AllOf(allow, f) && Canonical(block) && AllOf(block, f)
    ensures FamilySets(sets, allow, block, crowdsec, policies != [], eligible)
    ensures AllBound(policies, bindings) && AllStand(sets, bindings, policies, f)
    ensures forall i :: 0 <= i < |policies| ==> HasSet(sets, bindings[policies[i].policy.name])
    ensures forall x :: x in sets ==> OwnPrefixes(x, f, eligible)
  {
    var global := GlobalSets(allow, block, crowdsec, policies != [], eligible);
    var named := SequencesOf(policies, f);
    var geoSets;
    geoSets, bindings := CompileGeoSets(named, hash);
    UniqueAppend(global, geoSets);
    sets := global + geoSets;
    forall x | x in sets
      ensures OwnPrefixes(x, f, eligible)
    {
      if x in geoSets {
        GeoOwnPrefixes(policies, f, named, x, eligible);
      }
    }
    forall i | 0 <= i < |policies|
      ensures policies[i].policy.name in bindings && SetStands(sets, bindings, policies[i], f)
      ensures HasSet(sets, bindings[policies[i].policy.name])
    {
      assert Bound(geoSets, bindings, named[i]);
      BoundStands(sets, geoSets, bindings, policies[i], f);
      assert NamedSet(bindings[named[i].name], StaticSet, named[i].sequence) in sets;
    }
  }

  lemma TwoPaths(sets: seq<NamedSet>, bans: seq<Prefix>, inbound: Path, outbound: Path, k: Packet)
    requires inbound.direction.Ingress? && outbound.direction.Egress?
    ensures PathsVerdict(sets, bans, [inbound, outbound], k) == PathVerdict(sets, bans, if k.direction.Ingress? then inbound else outbound, k)
  {
    assert [inbound, outbound][1..] == [outbound];
  }

  /** Both paths of a family. */
  method CompilePaths(f: Family, cfg: Config, al: seq<Prefix>, bl: seq<Prefix>, policies: seq<CompiledPolicy>,
                      bindings: map<string, SetID>)
    returns (inbound: Path, outbound: Path)
    requires AllBound(policies, bindings)
    ensures inbound == Path(Ingress, SourceAddress, PathRules(Ingress, f, al, bl, policies, bindings, cfg.crowdsec, Deny(cfg.denyAction)))
    ensures outbound == Path(Egress, DestinationAddress, PathRules(Egress, f, al, bl, policies, bindings, false, Deny(cfg.denyAction)))
    ensures GuardsFirst(inbound.rules, 2) && GuardsFirst(outbound.rules, 2)
  {
    var deny := Deny(cfg.denyAction);
    inbound := CompilePath(Ingress, SourceAddress, f, al, bl, policies, bindings, cfg.crowdsec, deny);
    outbound := CompilePath(Egress, DestinationAddress, f, al, bl, policies, bindings, false, deny);
    PathGuarded(Ingress, f, al, bl, policies, bindings, cfg.crowdsec, deny);
    PathGuarded(Egress, f, al, bl, policies, bindings, false, deny);
  }

  /** The chosen path gives the declared verdict. */
  lemma PathsDeclared(cfg: Config, s: Snapshot, geo: Geo, allow: Set, block: Set, all: seq<CompiledPolicy>,
                      policies: seq<CompiledPolicy>,
                      sets: seq<NamedSet>, bindings: map<string, SetID>, inbound: Path, outbound: Path, bans: seq<Prefix>, k: Packet)
    requires allow.Valid() && block.Valid() && geo.Valid()
    requires forall a :: (allow.Has(k.fam, a) <==> Listed(cfg.allow, k.fam, a)) && (block.Has(k.fam, a) <==> Listed(cfg.block, k.fam, a))
    requires CompiledFrom(cfg.policies, s, all) && FilteredFor(all, k.fam, policies)
    requires FamilySets(sets, allow.OfFamily(k.fam), block.OfFamily(k.fam), cfg.crowdsec, policies != [], geo.Of(k.fam).prefixes)
    requires AllBound(policies, bindings) && AllStand(sets, bindings, policies, k.fam)
    requires inbound ==
             Path(Ingress, SourceAddress, PathRules(Ingress, k.fam, allow.OfFamily(k.fam), block.OfFamily(k.fam), policies,
                                                    bindings, cfg.crowdsec, Deny(cfg.denyAction)))
    requires outbound ==
             Path(Egress, DestinationAddress, PathRules(Egress, k.fam, allow.OfFamily(k.fam), block.OfFamily(k.fam), policies,
                                                        bindings, false, Deny(cfg.denyAction)))
    ensures Declared(cfg, s, geo, bans, k, PathsVerdict(sets, bans, [inbound, outbound], k))
  {
    GlobalsFollow(sets, cfg, geo, allow, block, policies != [], bans, k.fam, if k.direction.Ingress? then k.source else k.destination);
    PathDeclared(cfg, s, geo, sets, bans, allow.OfFamily(k.fam), block.OfFamily(k.fam), all, policies, bindings, k);
    TwoPaths(sets, bans, inbound, outbound, k);
  }

  method CompileFamily(f: Family, cfg: Config, allow: Set, block: Set, all: seq<CompiledPolicy>, geo: Geo,
                       ghost s: Snapshot, hash: seq<Prefix> -> nat)
    returns (plan: FamilyPlan)
    requires allow.Valid() && block.Valid() && geo.Valid()
    requires forall a :: (allow.Has(f, a) <==> Listed(cfg.allow, f, a)) && (block.Has(f, a) <==> Listed(cfg.block, f, a))
    requires CompiledFrom(cfg.policies, s, all)
    ensures plan.fam == f && PlanStands(cfg, s, geo, plan) && PlanMade(cfg, geo, plan)
  {
    var policies := FamilyPolicies(all, f);
    forall i | 0 <= i < |policies|
      ensures policies[i].included.Valid() && policies[i].policy in cfg.policies
    {
      CompiledElement(cfg.policies, s, all, f, policies, i);
    }
    var al, bl := allow.OfFamily(f), block.OfFamily(f);
    FamilyPart(allow, f, 0);
    FamilyPart(block, f, 0);
    var sets, bindings := FamilySetsOf(f, al, bl, policies, cfg.crowdsec, geo.Of(f).prefixes, hash);
    var inbound, outbound := CompilePaths(f, cfg, al, bl, policies, bindings);
    plan := FamilyPlan(f, sets, [inbound, outbound]);
    PlanIsMade(cfg, geo, plan, al, bl, policies, bindings);
    forall bans, k: Packet | k.fam == f
      ensures Declared(cfg, s, geo, bans, k, PathsVerdict(sets, bans, plan.paths, k))
    {
      PathsDeclared(cfg, s, geo, allow, block, all, policies, sets, bindings, inbound, outbound, bans, k);
    }
  }

  // ---------- Compilation ----------

  /** An inactive configuration declares nothing. */
  lemma InactivePasses(cfg: Config, s: Snapshot, geo: Geo, bans: seq<Prefix>, k: Packet)
    requires !Active(cfg)
    ensures Declared(cfg, s, geo, bans, k, Pass)
  {
    forall p | p in cfg.policies
      ensures !Applies(p, k)
    {
    }
  }

  lemma ActivePolicies(cfg: Config, s: Snapshot, all: seq<CompiledPolicy>)
    requires CompiledFrom(cfg.policies, s, all)
    ensures |all| > 0 <==> exists p :: p in cfg.policies && p.mode != Known(Disabled)
  {
    if |all| > 0 {
      assert all[0].policy in cfg.policies;
    }
    if p :| p in cfg.policies && p.mode != Known(Disabled) {
      assert Has(all, p);
    }
  }

  lemma EmptyList(values: seq<Prefix>, set_: Set)
    requires set_.Valid() && forall i :: 0 <= i < |values| ==> WellFormed(values[i])
    requires forall f, a :: set_.Has(f, a) <==> Listed(values, f, a)
    ensures |set_.prefixes| == 0 <==> |values| == 0
  {
    if |values| > 0 {
      var p := Masked(values[0]);
      assert Listed(values, values[0].fam, values[0].addr);
    }
    if |set_.prefixes| > 0 {
      SomeAddress(set_);
      var f, a :| set_.Has(f, a);
      assert Listed(values, f, a);
    }
  }

  /** A plan per enabled family, and no plan at all when nothing is configured. */
  ghost predicate PlansStand(cfg: Config, s: Snapshot, geo: Geo, plans: seq<FamilyPlan>) {
    forall bans, k: Packet :: Declared(cfg, s, geo, bans, k, PlanVerdict(plans, bans, k)) || (Active(cfg) && !Enabled(cfg, k.fam))
  }

  ghost predicate HasPlan(plans: seq<FamilyPlan>, f: Family) {
    exists i :: 0 <= i < |plans| && plans[i].fam == f
  }

  /** One plan for each enabled family and no other, each standing for the configuration. */
  ghost predicate FamiliesStand(cfg: Config, s: Snapshot, geo: Geo, plans: seq<FamilyPlan>) {
    && (forall i :: 0 <= i < |plans| ==> PlanStands(cfg, s, geo, plans[i]) && PlanMade(cfg, geo, plans[i]))
    && (forall f :: HasPlan(plans, f) <==> Active(cfg) && Enabled(cfg, f))
    && (forall i, j :: 0 <= i < j < |plans| ==> plans[i].fam != plans[j].fam)
  }

  /** Case by case in every family that is managed, and in any family no action but the configured one. */
  ghost predicate PlansBehave(cfg: Config, s: Snapshot, geo: Geo, plans: seq<FamilyPlan>) {
    && (forall bans, k: Packet :: (Active(cfg) ==> Enabled(cfg, k.fam)) ==> Behaves(cfg, s, geo, bans, k, PlanVerdict(plans, bans, k)))
    && (forall bans, k: Packet :: PlanVerdict(plans, bans, k).action.Return? || cfg.denyAction == Known(PlanVerdict(plans, bans, k).action))
  }

  lemma {:induction false} NoPlanPasses(plans: seq<FamilyPlan>, bans: seq<Prefix>, k: Packet)
    requires !HasPlan(plans, k.fam)
    ensures PlanVerdict(plans, bans, k) == Pass
    decreases |plans|
  {
    if plans != [] {
      assert plans[0].fam != k.fam;
      forall i | 0 <= i < |plans[1..]|
        ensures plans[1..][i].fam != k.fam
      {
        assert plans[1..][i] == plans[i + 1];
      }
      NoPlanPasses(plans[1..], bans, k);
    }
  }

  lemma StandingBehaves(cfg: Config, s: Snapshot, geo: Geo, plans: seq<FamilyPlan>)
    requires PlansStand(cfg, s, geo, plans) && FamiliesStand(cfg, s, geo, plans) && PoliciesOk(cfg.policies, s)
    requires cfg.denyAction == Known(Drop) || cfg.denyAction == Known(Reject)
    ensures PlansBehave(cfg, s, geo, plans)
  {
    forall bans, k: Packet
      ensures (Active(cfg) ==> Enabled(cfg, k.fam)) ==> Behaves(cfg, s, geo, bans, k, PlanVerdict(plans, bans, k))
      ensures PlanVerdict(plans, bans, k).action.Return? || cfg.denyAction == Known(PlanVerdict(plans, bans, k).action)
    {
      var v := PlanVerdict(plans, bans, k);
      if Declared(cfg, s, geo, bans, k, v) {
        DeclaredBehaves(cfg, s, geo, bans, k, v);
        BehavesActs(cfg, s, geo, bans, k, v);
      } else {
        NoPlanPasses(plans, bans, k);
      }
    }
  }

  /** Compiles exactly the acceptable configurations, to rules with the declared verdict
      for every packet of a managed family. */
  method Compile(cfg: Config, s: Snapshot, geo: Geo, hash: (Family, seq<Prefix>) -> nat)
    returns (r: Option<seq<FamilyPlan>>)
    requires SnapshotValid(s) && geo.Valid()
    ensures r.Some? <==> Compilable(cfg, s)
    ensures r.Some? ==> PlansStand(cfg, s, geo, r.value) && FamiliesStand(cfg, s, geo, r.value)
    ensures r.Some? ==> PlansBehave(cfg, s, geo, r.value)
  {
    if cfg.denyAction != Known(Drop) && cfg.denyAction != Known(Reject) {
      return None;
    }
    var allow := PrefixSet.New(cfg.allow);
    if allow.None? {
      return None;
    }
    var block := PrefixSet.New(cfg.block);
    if block.None? {
      return None;
    }
    var policies := CompilePolicies(cfg.policies, s);
    if policies.None? {
      return None;
    }
    ActivePolicies(cfg, s, policies.value);
    EmptyList(cfg.block, block.value);
    if |policies.value| == 0 && |block.value.prefixes| == 0 && !cfg.crowdsec {
      forall bans, k: Packet
        ensures Declared(cfg, s, geo, bans, k, PlanVerdict([], bans, k))
      {
        InactivePasses(cfg, s, geo, bans, k);
      }
      StandingBehaves(cfg, s, geo, []);
      return Some([]);
    }
    if !cfg.ipv4 && !cfg.ipv6 {
      return None;
    }
    var families := CompileFamilies(cfg, allow.value, block.value, policies.value, geo, s, hash);
    StandingBehaves(cfg, s, geo, families);
    return Some(families);
  }

  method CompileFamilies(cfg: Config, allow: Set, block: Set, all: seq<CompiledPolicy>, geo: Geo, ghost s: Snapshot,
                         hash: (Family, seq<Prefix>) -> nat)
    returns (families: seq<FamilyPlan>)
    requires allow.Valid() && block.Valid() && geo.Valid() && Active(cfg)
    requires forall f, a :: (allow.Has(f, a) <==> Listed(cfg.allow, f, a)) && (block.Has(f, a) <==> Listed(cfg.block, f, a))
    requires CompiledFrom(cfg.policies, s, all)
    ensures PlansStand(cfg, s, geo, families) && FamiliesStand(cfg, s, geo, families)
  {
    families := [];
    if cfg.ipv4 {
      var plan := CompileFamily(V4, cfg, allow, block, all, geo, s, x => hash(V4, x));
      families := families + [plan];
    }
    ghost var first := families;
    if cfg.ipv6 {
      var plan := CompileFamily(V6, cfg, allow, block, all, geo, s, x => hash(V6, x));
      families := families + [plan];
      assert families[1..] == if cfg.ipv4 then [plan] else [];
    }
    FamiliesListed(cfg, families);
  }

  lemma FamiliesListed(cfg: Config, plans: seq<FamilyPlan>)
    requires |plans| == (if cfg.ipv4 then 1 else 0) + (if cfg.ipv6 then 1 else 0)
    requires cfg.ipv4 ==> plans[0].fam == V4
    requires cfg.ipv6 ==> plans[|plans| - 1].fam == V6
    ensures forall f :: HasPlan(plans, f) <==> Enabled(cfg, f)
    ensures forall i, j :: 0 <= i < j < |plans| ==> plans[i].fam != plans[j].fam
  {
    forall f
      ensures HasPlan(plans, f) <==> Enabled(cfg, f)
    {
      assert f == V4 || f == V6;
    }
  }

  // ---------- What the verdict does not depend on ----------

  lemma {:induction false} LeastPriority(policies: seq<PolicyConfig>, k: Packet)
    requires exists p :: p in policies && Applies(p, k)
    ensures exists p :: Decides(policies, k, p)
    decreases |policies|
  {
    var n := |policies| - 1;
    var front, last := policies[..n], policies[n];
    assert policies == front + [last];
    if exists p :: p in front && Applies(p, k) {
      LeastPriority(front, k);
      var p :| Decides(front, k, p);
      assert Decides(policies, k, if Applies(last, k) && last.priority < p.priority then last else p);
    } else {
      assert Decides(policies, k, last);
    }
  }

  /** An acceptable configuration declares exactly one verdict for each packet. */
  lemma DeclaredUnique(cfg: Config, s: Snapshot, geo: Geo, bans: seq<Prefix>, k: Packet, v: Verdict, w: Verdict)
    requires Declared(cfg, s, geo, bans, k, v) && Declared(cfg, s, geo, bans, k, w)
    ensures v == w
  {
    if exists p :: p in cfg.policies && Applies(p, k) {
      LeastPriority(cfg.policies, k);
      var p :| Decides(cfg.policies, k, p);
    }
  }

  /** Reordering the policies does not change what compiles. */
  lemma OrderCompilable(cfg: Config, policies: seq<PolicyConfig>, s: Snapshot)
    requires multiset(policies) == multiset(cfg.policies)
    ensures Compilable(cfg, s) <==> Compilable(cfg.(policies := policies), s)
  {
    SameElements(policies, cfg.policies);
    if PoliciesOk(cfg.policies, s) {
      OkPermuted(cfg.policies, policies, s);
    }
    if PoliciesOk(policies, s) {
      OkPermuted(policies, cfg.policies, s);
    }
  }

  /** Reordering the policies does not change what is declared. */
  lemma OrderDeclared(cfg: Config, policies: seq<PolicyConfig>, s: Snapshot, geo: Geo, bans: seq<Prefix>, k: Packet,
                      v: Verdict)
    requires multiset(policies) == multiset(cfg.policies)
    ensures Active(cfg) <==> Active(cfg.(policies := policies))
    ensures Declared(cfg, s, geo, bans, k, v) <==> Declared(cfg.(policies := policies), s, geo, bans, k, v)
  {
    SameElements(policies, cfg.policies);
    assert forall p :: Decides(policies, k, p) <==> Decides(cfg.policies, k, p);
  }

  /** Two compilations of one configuration, whatever the order of its policies and
      whatever the fingerprints, agree on every packet of a managed family. */
  method CompileAgain(cfg: Config, policies: seq<PolicyConfig>, s: Snapshot, geo: Geo,
                      hash: (Family, seq<Prefix>) -> nat, other: (Family, seq<Prefix>) -> nat)
    returns (a: Option<seq<FamilyPlan>>, b: Option<seq<FamilyPlan>>)
    requires SnapshotValid(s) && geo.Valid() && multiset(policies) == multiset(cfg.policies)
    ensures a.Some? <==> b.Some?
    ensures a.Some? ==> forall bans, k: Packet :: Enabled(cfg, k.fam) ==> PlanVerdict(a.value, bans, k) == PlanVerdict(b.value, bans, k)
  {
    var permuted := cfg.(policies := policies);
    a := Compile(cfg, s, geo, hash);
    b := Compile(permuted, s, geo, other);
    OrderCompilable(cfg, policies, s);
    if a.Some? {
      forall bans, k: Packet | Enabled(cfg, k.fam)
        ensures PlanVerdict(a.value, bans, k) == PlanVerdict(b.value, bans, k)
      {
        var v, w := PlanVerdict(a.value, bans, k), PlanVerdict(b.value, bans, k);
        OrderDeclared(cfg, policies, s, geo, bans, k, w);
        DeclaredUnique(cfg, s, geo, bans, k, v, w);
      }
    }
  }
}
