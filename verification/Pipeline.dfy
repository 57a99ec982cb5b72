/** From a configuration and a list of decisions to the fate of a packet: compiler, projection and
    both backends together.
 */
module Pipeline {
  import opened Address
  import opened Basics
  import opened PrefixSet
  import opened Projection
  import opened Policy
  import opened Compile
  import opened Lowering
  import opened LoweredSets
  import Dynamic

  // ---------- What configuration loading has checked ----------

  /** Ports are 16-bit numbers, and a range starts at a port and does not run backwards. */
  ghost predicate PortsValid(policies: seq<PolicyConfig>) {
    forall p :: p in policies ==> SixteenBit(p.traffic.tcp) && SixteenBit(p.traffic.udp)
  }

  ghost predicate SixteenBit(ranges: seq<PortRange>) {
    RangesValid(ranges) && forall r :: r in ranges ==> r.end < 65536
  }

  ghost predicate GeoByFamily(geo: Geo) {
    geo.Valid() && AllOf(geo.v4.prefixes, V4) && AllOf(geo.v6.prefixes, V6)
  }

  // ---------- Configured traffic on the wire ----------

  /** Which packets a policy's traffic means, protocol by protocol as they arrive. */
  lemma TrafficOnWire(t: Traffic, k: Native, original: bool)
    ensures var port := if original then k.originalPort else k.port;
            InTraffic(t, Logical(k, original)) <==>
            || t.any
            || (k.l4.Tcp? && exists r :: r in t.tcp && r.start <= port <= r.end)
            || (k.l4.Udp? && exists r :: r in t.udp && r.start <= port <= r.end)
            || (k.l4.Icmp? && k.fam.V4? && t.icmp)
            || (k.l4.Icmpv6? && k.fam.V6? && t.icmpv6)
  {
    var p := Logical(k, original);
    PortsOnWire(t.tcp, p.port);
    PortsOnWire(t.udp, p.port);
  }

  lemma PortsOnWire(ranges: seq<PortRange>, port: nat)
    ensures InPorts(ranges, port) <==> exists r :: r in ranges && r.start <= port <= r.end
  {
    if i :| 0 <= i < |ranges| && ranges[i].start <= port <= ranges[i].end {
      assert ranges[i] in ranges;
    }
  }

  // ---------- Compiled plans can be lowered ----------

  lemma WellMadeLowerable(policies: seq<PolicyConfig>, f: Family, sets: seq<NamedSet>, bindings: map<string, SetID>,
                          r: Rule)
    requires PortsValid(policies) && WellMade(policies, f, sets, bindings, r)
    ensures Lowerable(r, NamesOf(sets))
  {
    if r.guard.traffic != AnyTraffic {
      var p :| p in policies && PolicyScope(p.traffic, f) == Some(r.guard.traffic);
      assert PolicyApplies(p.traffic, f);
    }
    if !r.guard.setID.NoSet? {
      assert HasSet(sets, r.guard.setID);
      var x :| x in sets && x.id == r.guard.setID;
    }
  }

  lemma PlanLowerable(cfg: Config, geo: Geo, plan: FamilyPlan)
    requires PortsValid(cfg.policies) && PlanMade(cfg, geo, plan)
    ensures forall i :: 0 <= i < 2 ==> AllLowerable(plan.paths[i].rules, NamesOf(plan.sets))
  {
    var bindings :| RulesMade(cfg.policies, plan, bindings);
    forall i, j | 0 <= i < 2 && 0 <= j < |plan.paths[i].rules|
      ensures Lowerable(plan.paths[i].rules[j], NamesOf(plan.sets))
    {
      assert plan.paths[i].rules[j] in plan.paths[i].rules;
      WellMadeLowerable(cfg.policies, plan.fam, plan.sets, bindings, plan.paths[i].rules[j]);
    }
  }

  lemma SetsOfFamily(cfg: Config, geo: Geo, plan: FamilyPlan)
    requires GeoByFamily(geo) && PlanMade(cfg, geo, plan)
    ensures forall x, i :: x in plan.sets && 0 <= i < |x.prefixes| ==> x.prefixes[i].Valid() && x.prefixes[i].fam == plan.fam
  {
    forall x | x in plan.sets
      ensures Canonical(x.prefixes) && AllOf(x.prefixes, plan.fam)
    {
      assert OwnPrefixes(x, plan.fam, geo.Of(plan.fam).prefixes);
    }
  }

  /** What one family is enforced by in either backend. */
  datatype Lowered = Lowered(plan: FamilyPlan, native: seq<NamedSet>, nft: seq<seq<NativeRule>>, ipt: seq<seq<NativeRule>>)

  ghost predicate BothEnforce(cfg: Config, s: Snapshot, geo: Geo, original: bool, x: Lowered) {
    && Enforces(cfg, s, geo, x.plan.sets, x.nft, false, x.plan.fam)
    && Enforces(cfg, s, geo, x.native, x.ipt, original, x.plan.fam)
  }

  method LowerFamily(cfg: Config, ghost s: Snapshot, geo: Geo, plan: FamilyPlan, original: bool) returns (x: Lowered)
    requires PlanStands(cfg, s, geo, plan) && PlanMade(cfg, geo, plan) && PortsValid(cfg.policies) && GeoByFamily(geo)
    ensures x.plan == plan && BothEnforce(cfg, s, geo, original, x)
  {
    SetsOfFamily(cfg, geo, plan);
    PlanLowerable(cfg, geo, plan);
    var native := LowerSets(plan.sets, plan.fam);
    assert native.Some?;
    var nft := EnforceNft(cfg, s, geo, plan);
    var ipt := EnforceIpt(cfg, s, geo, plan, native.value, original);
    x := Lowered(plan, native.value, nft, ipt.value);
  }

  function PlansOf(lowered: seq<Lowered>): (r: seq<FamilyPlan>)
    ensures |r| == |lowered| && forall i :: 0 <= i < |r| ==> r[i] == lowered[i].plan
  {
    seq(|lowered|, i requires 0 <= i < |lowered| => lowered[i].plan)
  }

  ghost predicate CoversFamily(lowered: seq<Lowered>, f: Family) {
    exists i :: 0 <= i < |lowered| && lowered[i].plan.fam == f
  }

  /** Every acceptable configuration compiles and lowers, in both backends, to chains that give each
      packet of an enabled family the fate the configuration declares. */
  method CompileAndLower(cfg: Config, s: Snapshot, geo: Geo, hash: (Family, seq<Prefix>) -> nat, original: bool)
    returns (r: Option<seq<Lowered>>)
    requires SnapshotValid(s) && GeoByFamily(geo) && PortsValid(cfg.policies)
    ensures r.Some? <==> Compilable(cfg, s)
    ensures r.Some? ==> forall i :: 0 <= i < |r.value| ==> BothEnforce(cfg, s, geo, original, r.value[i])
    ensures r.Some? ==> forall f :: CoversFamily(r.value, f) <==> Active(cfg) && Enabled(cfg, f)
    ensures r.Some? ==> PlansStand(cfg, s, geo, PlansOf(r.value)) && FamiliesStand(cfg, s, geo, PlansOf(r.value))
  {
    var plans := Compile.Compile(cfg, s, geo, hash);
    if plans.None? {
      return None;
    }
    var lowered: seq<Lowered> := [];
    for i := 0 to |plans.value|
      invariant |lowered| == i
      invariant forall j :: 0 <= j < i ==> lowered[j].plan == plans.value[j] && BothEnforce(cfg, s, geo, original, lowered[j])
    {
      var x := LowerFamily(cfg, s, geo, plans.value[i], original);
      lowered := lowered + [x];
    }
    forall f
      ensures CoversFamily(lowered, f) <==> HasPlan(plans.value, f)
    {
      if CoversFamily(lowered, f) {
        var i :| 0 <= i < |lowered| && lowered[i].plan.fam == f;
        assert plans.value[i].fam == f;
      }
      if HasPlan(plans.value, f) {
        var i :| 0 <= i < |plans.value| && plans.value[i].fam == f;
        assert lowered[i].plan.fam == f;
      }
    }
    assert PlansOf(lowered) == plans.value;
    return Some(lowered);
  }

  // ---------- The bans ----------

  /** The listed blocks hold exactly the addresses under an unexpired decision. */
  ghost predicate HoldsBans(held: seq<Prefix>, ds: seq<Decision>, f: Family, now: int) {
    forall a :: Covered(held, f, a) <==> Projection.Banned(ds, f, now, a)
  }

  lemma ProjectionCovers(ts: seq<TimedPrefix>, ds: seq<Decision>, f: Family, now: int, a: nat)
    requires Projects(ts, ds, f, now)
    ensures Covered(Prefixes(ts), f, a) <==> Projection.Banned(ds, f, now, a)
  {
    if i :| 0 <= i < |Prefixes(ts)| && Prefixes(ts)[i].Valid() && Prefixes(ts)[i].Has(f, a) {
      assert ts[i].prefix.Has(f, a);
      assert LatestAt(ds, f, now, a, ts[i].deadline);
    }
  }

  lemma OtherFamilyCovers(own: seq<TimedPrefix>, other: seq<TimedPrefix>, all: seq<TimedPrefix>, f: Family, a: nat)
    requires AllOf(Prefixes(other), if f.V4? then V6 else V4) && (all == own + other || all == other + own)
    ensures Covered(Prefixes(all), f, a) <==> Covered(Prefixes(own), f, a)
  {
    var offset := if all == own + other then 0 else |other|;
    if i :| 0 <= i < |own| && own[i].prefix.Valid() && own[i].prefix.Has(f, a) {
      assert Prefixes(own)[i] == Prefixes(all)[offset + i];
    }
    if i :| 0 <= i < |all| && all[i].prefix.Valid() && all[i].prefix.Has(f, a) {
      assert forall j :: 0 <= j < |other| ==> Prefixes(other)[j] == other[j].prefix;
      assert offset <= i < offset + |own|;
      assert Prefixes(own)[i - offset] == Prefixes(all)[i];
    }
  }

  /** What a projection holds in each backend: the unexpired bans of the family. */
  lemma ProjectedBans(v4: seq<TimedPrefix>, v6: seq<TimedPrefix>, ds: seq<Decision>, now: int, f: Family)
    requires Projects(v4, ds, V4, now) && Projects(v6, ds, V6, now)
    ensures HoldsBans(Prefixes(v4 + v6), ds, f, now)
  {
    forall a
      ensures Covered(Prefixes(v4 + v6), f, a) <==> Projection.Banned(ds, f, now, a)
    {
      if f.V4? {
        OtherFamilyCovers(v4, v6, v4 + v6, f, a);
        ProjectionCovers(v4, ds, f, now, a);
      } else {
        OtherFamilyCovers(v6, v4, v4 + v6, f, a);
        ProjectionCovers(v6, ds, f, now, a);
      }
    }
  }

  lemma TimedCovers(ts: seq<TimedPrefix>, f: Family, a: nat)
    requires forall i :: 0 <= i < |ts| ==> ts[i].prefix.Valid()
    ensures Covered(Prefixes(ts), f, a) <==> exists d :: TimedAt(ts, f, a, d)
  {
    if i :| 0 <= i < |Prefixes(ts)| && Prefixes(ts)[i].Valid() && Prefixes(ts)[i].Has(f, a) {
      MaskedValid(ts[i].prefix);
      assert HoldsUntil(ts[i], f, a, ts[i].deadline);
      assert TimedAt(ts, f, a, ts[i].deadline);
    }
    if d :| TimedAt(ts, f, a, d) {
      var i :| 0 <= i < |ts| && HoldsUntil(ts[i], f, a, d);
      MaskedValid(ts[i].prefix);
      assert Prefixes(ts)[i].Has(f, a);
    }
  }

  /** The projection passes validation, and what either backend keeps of it is the unexpired bans. */
  method ProjectBans(ds: seq<Decision>, now: int, f: Family) returns (nft: seq<Prefix>, ipt: seq<Prefix>)
    requires AllValid(ds) && forall d :: d in ds ==> d.deadline != 0
    ensures HoldsBans(nft, ds, f, now) && HoldsBans(ipt, ds, f, now)
  {
    var projection := Project(ds, now);
    ghost var v4, v6 :| projection == v4 + v6 && Projects(v4, ds, V4, now) && Projects(v6, ds, V6, now);
    Dynamic.ProjectionsAcceptable(v4, v6, ds, now);
    ProjectedBans(v4, v6, ds, now, f);
    var entries := LoweredTimed(projection, f);
    nft, ipt := Prefixes(projection), Prefixes(entries);
    forall a
      ensures Covered(ipt, f, a) <==> Covered(nft, f, a)
    {
      TimedCovers(entries, f, a);
      TimedCovers(projection, f, a);
    }
  }

  // ---------- Fates ----------

  ghost function FateIn(sets: seq<NamedSet>, held: seq<Prefix>, chains: seq<seq<NativeRule>>, k: Native): Fate {
    if |chains| == 2 then Enter(sets, held, EntryRules, chains[if k.direction.Ingress? then 0 else 1], k) else Passed
  }

  /** A drop configuration drops; a reject configuration resets TCP and prohibits everything else. */
  ghost predicate Stopped(cfg: Config, k: Native, fate: Fate) {
    (cfg.denyAction == Known(Drop) && fate == Dropped) ||
    (cfg.denyAction == Known(Reject) && fate == Rejected(if k.l4.Tcp? then TcpReset else AdminProhibited(k.fam)))
  }

  /** Without rules, sets or verdicts: only new packets are ever stopped, and only in the configured way;
      the allowlist lets through, the blocklist stops the rest of what it lists, and so does an unexpired
      decision on the way in. */
  ghost predicate FateShows(cfg: Config, ds: seq<Decision>, now: int, k: Native, fate: Fate) {
    var remote := if k.direction.Ingress? then k.source else k.destination;
    var judged := k.conntrack.New? && !Listed(cfg.allow, k.fam, remote);
    && (fate == Passed || Stopped(cfg, k, fate))
    && (!judged ==> fate == Passed)
    && (judged && Listed(cfg.block, k.fam, remote) ==> Stopped(cfg, k, fate))
    && (judged && cfg.crowdsec && k.direction.Ingress? && Projection.Banned(ds, k.fam, now, remote) ==> Stopped(cfg, k, fate))
  }

  lemma FateBehaves(cfg: Config, s: Snapshot, geo: Geo, ds: seq<Decision>, now: int, original: bool, k: Native,
                    bans: seq<Prefix>, fate: Fate)
    requires Enforced(cfg, s, geo, bans, k, original, fate) && HoldsBans(bans, ds, k.fam, now)
    requires Compilable(cfg, s)
    ensures FateShows(cfg, ds, now, k, fate)
  {
    var p := Logical(k, original);
    var v :| Declared(cfg, s, geo, bans, p, v) && fate == Meaning(v.action, k);
    DeclaredBehaves(cfg, s, geo, bans, p, v);
    BehavesActs(cfg, s, geo, bans, p, v);
    assert Far(p) == if k.direction.Ingress? then k.source else k.destination;
    assert Covered(bans, k.fam, Far(p)) <==> Projection.Banned(ds, k.fam, now, Far(p));
  }

  lemma FatesShow(cfg: Config, s: Snapshot, geo: Geo, original: bool, x: Lowered, ds: seq<Decision>, now: int,
                  nft: seq<Prefix>, ipt: seq<Prefix>)
    requires BothEnforce(cfg, s, geo, original, x) && HoldsBans(nft, ds, x.plan.fam, now) && HoldsBans(ipt, ds, x.plan.fam, now)
    requires Compilable(cfg, s)
    ensures forall k: Native :: k.fam == x.plan.fam ==>
              && FateShows(cfg, ds, now, k, FateIn(x.plan.sets, nft, x.nft, k))
              && FateShows(cfg, ds, now, k, FateIn(x.native, ipt, x.ipt, k))
  {
    BansEnforced(cfg, s, geo, original, x, ds, now, nft, ipt);
    forall k: Native | k.fam == x.plan.fam
      ensures FateShows(cfg, ds, now, k, FateIn(x.plan.sets, nft, x.nft, k))
      ensures FateShows(cfg, ds, now, k, FateIn(x.native, ipt, x.ipt, k))
    {
      assert Fated(cfg, s, geo, nft, x.plan.sets, nft, x.nft, false, k);
      assert Fated(cfg, s, geo, nft, x.native, ipt, x.ipt, original, k);
      FateBehaves(cfg, s, geo, ds, now, false, k, nft, FateIn(x.plan.sets, nft, x.nft, k));
      FateBehaves(cfg, s, geo, ds, now, original, k, nft, FateIn(x.native, ipt, x.ipt, k));
    }
  }

  /** The whole way: the configuration decides every packet as it declares, with exactly the addresses
      under an unexpired decision banned, in both backends. */
  method Enforce(cfg: Config, s: Snapshot, geo: Geo, hash: (Family, seq<Prefix>) -> nat, ds: seq<Decision>, now: int,
                 f: Family, original: bool)
    returns (r: Option<Lowered>, nft: seq<Prefix>, ipt: seq<Prefix>)
    requires SnapshotValid(s) && GeoByFamily(geo) && PortsValid(cfg.policies)
    requires AllValid(ds) && forall d :: d in ds ==> d.deadline != 0
    ensures r.Some? <==> Compilable(cfg, s) && Active(cfg) && Enabled(cfg, f)
    ensures r.Some? ==> forall bans, k: Native :: k.fam == f && HoldsBans(bans, ds, f, now) ==>
              && Fated(cfg, s, geo, bans, r.value.plan.sets, nft, r.value.nft, false, k)
              && Fated(cfg, s, geo, bans, r.value.native, ipt, r.value.ipt, original, k)
    ensures r.Some? ==> forall k: Native :: k.fam == f ==>
              && FateShows(cfg, ds, now, k, FateIn(r.value.plan.sets, nft, r.value.nft, k))
              && FateShows(cfg, ds, now, k, FateIn(r.value.native, ipt, r.value.ipt, k))
  {
    nft, ipt := ProjectBans(ds, now, f);
    var lowered := CompileAndLower(cfg, s, geo, hash, original);
    if lowered.None? {
      return None, nft, ipt;
    }
    for i := 0 to |lowered.value|
      invariant forall j :: 0 <= j < i ==> lowered.value[j].plan.fam != f
    {
      if lowered.value[i].plan.fam == f {
        assert CoversFamily(lowered.value, f);
        BansEnforced(cfg, s, geo, original, lowered.value[i], ds, now, nft, ipt);
        FatesShow(cfg, s, geo, original, lowered.value[i], ds, now, nft, ipt);
        return Some(lowered.value[i]), nft, ipt;
      }
    }
    return None, nft, ipt;
  }

  lemma BansEnforced(cfg: Config, s: Snapshot, geo: Geo, original: bool, x: Lowered, ds: seq<Decision>, now: int,
                     nft: seq<Prefix>, ipt: seq<Prefix>)
    requires BothEnforce(cfg, s, geo, original, x) && HoldsBans(nft, ds, x.plan.fam, now) && HoldsBans(ipt, ds, x.plan.fam, now)
    ensures forall bans, k: Native :: k.fam == x.plan.fam && HoldsBans(bans, ds, x.plan.fam, now) ==>
              && Fated(cfg, s, geo, bans, x.plan.sets, nft, x.nft, false, k)
              && Fated(cfg, s, geo, bans, x.native, ipt, x.ipt, original, k)
  {
    forall bans, k: Native | k.fam == x.plan.fam && HoldsBans(bans, ds, x.plan.fam, now)
      ensures Fated(cfg, s, geo, bans, x.plan.sets, nft, x.nft, false, k)
      ensures Fated(cfg, s, geo, bans, x.native, ipt, x.ipt, original, k)
    {
      assert SameAddressesIn(bans, nft, x.plan.fam) && SameAddressesIn(bans, ipt, x.plan.fam);
    }
  }
}
