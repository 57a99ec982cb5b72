/** What the iptables backend puts in its native sets, and the whole way from a
    configuration to the fate of a packet (internal/firewall/iptables_model.go:278-353).

    The native sets cannot hold a prefix of length zero, so it becomes two halves.
 */
module LoweredSets {
  import opened Address
  import opened Basics
  import opened Sorting
  import opened PrefixSet
  import opened Projection
  import opened Policy
  import opened Lowering
  import opened Compile
  import Dynamic

  // ---------- Prefixes ----------

  /** The native entries for one prefix. */
  function Parts(p: Prefix): seq<Prefix>
    requires WellFormed(p)
  {
    if p.bits == 0 then [Left(Masked(p)), Right(Masked(p))] else [Masked(p)]
  }

  lemma PartsHold(p: Prefix, a: nat)
    requires WellFormed(p)
    ensures forall q :: q in Parts(p) ==> q.Valid() && q.fam == p.fam && q.bits > 0 && Masked(p).Covers(q)
    ensures Masked(p).Has(p.fam, a) <==> exists q :: q in Parts(p) && q.Valid() && q.Has(p.fam, a)
  {
    var m := Masked(p);
    if p.bits == 0 {
      Halves(m);
      assert Left(m) in Parts(p) && Right(m) in Parts(p);
    } else {
      assert m in Parts(p);
    }
  }

  predicate IsPart(q: Prefix, p: Prefix) {
    WellFormed(p) && q in Parts(p)
  }

  ghost predicate PartOf(q: Prefix, values: seq<Prefix>) {
    exists i :: 0 <= i < |values| && IsPart(q, values[i])
  }

  /** Adds each part that has not been added before. */
  method AppendOnce(result: seq<Prefix>, parts: seq<Prefix>) returns (r: seq<Prefix>)
    requires Distinct(result)
    ensures Distinct(r) && forall q :: q in r <==> q in result || q in parts
  {
    r := result;
    for i := 0 to |parts|
      invariant Distinct(r) && forall q :: q in r <==> q in result || q in parts[..i]
    {
      if parts[i] !in r {
        DistinctSnoc(r, parts[i]);
        r := r + [parts[i]];
      }
    }
  }

  lemma PartsCover(result: seq<Prefix>, values: seq<Prefix>, f: Family, a: nat)
    requires forall i :: 0 <= i < |values| ==> WellFormed(values[i]) && values[i].fam == f
    requires forall q :: q in result <==> PartOf(q, values)
    ensures Covered(result, f, a) <==> Listed(values, f, a)
  {
    if Covered(result, f, a) {
      var j :| 0 <= j < |result| && result[j].Valid() && result[j].Has(f, a);
      assert result[j] in result;
      var i :| 0 <= i < |values| && IsPart(result[j], values[i]);
      PartsHold(values[i], a);
      assert Masked(values[i]).Has(f, a);
    }
    if Listed(values, f, a) {
      var i :| 0 <= i < |values| && WellFormed(values[i]) && Masked(values[i]).Has(f, a);
      PartsHold(values[i], a);
      var q :| q in Parts(values[i]) && q.Valid() && q.Has(f, a);
      assert IsPart(q, values[i]);
      assert PartOf(q, values);
    }
  }

  /** Fails on a malformed prefix or one of the wrong family; otherwise no entry has length
      zero, none occurs twice, and the same addresses are held. */
  method LoweredPrefixes(values: seq<Prefix>, f: Family) returns (r: Option<seq<Prefix>>)
    ensures r.Some? <==> forall i :: 0 <= i < |values| ==> WellFormed(values[i]) && values[i].fam == f
    ensures r.Some? ==> Distinct(r.value) && SortedBy(Leq, r.value)
    ensures r.Some? ==> forall q :: q in r.value ==> q.Valid() && q.fam == f && q.bits > 0
    ensures r.Some? ==> forall a :: Covered(r.value, f, a) <==> Listed(values, f, a)
  {
    var result: seq<Prefix> := [];
    for i := 0 to |values|
      invariant forall j :: 0 <= j < i ==> WellFormed(values[j]) && values[j].fam == f
      invariant Distinct(result) && forall q :: q in result <==> PartOf(q, values[..i])
    {
      if !WellFormed(values[i]) || values[i].fam != f {
        return None;
      }
      PartOfSnoc(values, i);
      result := AppendOnce(result, Parts(values[i]));
    }
    assert values[..|values|] == values;
    LeqTotal();
    var sorted := Sort(Leq, result);
    SameElements(sorted, result);
    DistinctPermuted(result, sorted);
    forall q | q in sorted
      ensures q.Valid() && q.fam == f && q.bits > 0
    {
      assert PartOf(q, values);
      var i :| 0 <= i < |values| && IsPart(q, values[i]);
      PartsHold(values[i], 0);
    }
    forall a
      ensures Covered(sorted, f, a) <==> Listed(values, f, a)
    {
      PartsCover(sorted, values, f, a);
    }
    r := Some(sorted);
  }

  lemma PartOfSnoc(values: seq<Prefix>, i: nat)
    requires i < |values| && WellFormed(values[i])
    ensures forall q :: PartOf(q, values[..i + 1]) <==> PartOf(q, values[..i]) || IsPart(q, values[i])
  {
    var more, less := values[..i + 1], values[..i];
    assert more[i] == values[i];
    forall q
      ensures PartOf(q, more) <==> PartOf(q, less) || IsPart(q, values[i])
    {
      if j :| 0 <= j < |less| && IsPart(q, less[j]) {
        assert IsPart(q, more[j]);
      }
      if j :| 0 <= j < |more| && IsPart(q, more[j]) {
        assert j < i ==> IsPart(q, less[j]);
      }
    }
  }

  // ---------- Timed prefixes ----------

  predicate InFamily(t: TimedPrefix, f: Family) {
    WellFormed(t.prefix) && t.prefix.fam == f
  }

  ghost predicate HoldsUntil(t: TimedPrefix, f: Family, a: nat, d: int) {
    InFamily(t, f) && Masked(t.prefix).Has(f, a) && t.deadline == d
  }

  /** Some entry holds the address until `d`. */
  ghost predicate TimedAt(values: seq<TimedPrefix>, f: Family, a: nat, d: int) {
    exists i :: 0 <= i < |values| && HoldsUntil(values[i], f, a, d)
  }

  ghost predicate HasEntry(ts: seq<TimedPrefix>, q: Prefix) {
    exists i :: 0 <= i < |ts| && ts[i].prefix == q
  }

  /** `t` is a native entry for `v`. */
  predicate EntryFor(t: TimedPrefix, v: TimedPrefix, f: Family) {
    InFamily(v, f) && IsPart(t.prefix, v.prefix) && t.deadline == v.deadline
  }

  ghost predicate EntryOf(t: TimedPrefix, values: seq<TimedPrefix>, f: Family) {
    exists i :: 0 <= i < |values| && EntryFor(t, values[i], f)
  }

  /** Every entry comes from some value, and every part of every value has an entry. */
  ghost predicate LoweredFrom(ts: seq<TimedPrefix>, values: seq<TimedPrefix>, f: Family) {
    && (forall t :: t in ts ==> EntryOf(t, values, f))
    && (forall i, q :: 0 <= i < |values| && InFamily(values[i], f) && IsPart(q, values[i].prefix) ==> HasEntry(ts, q))
  }

  /** Adds each part whose prefix has no entry yet. */
  method AppendTimed(ts: seq<TimedPrefix>, parts: seq<Prefix>, deadline: int) returns (r: seq<TimedPrefix>)
    requires Distinct(Prefixes(ts))
    ensures Distinct(Prefixes(r))
    ensures forall t :: t in r ==> t in ts || (t.prefix in parts && t.deadline == deadline)
    ensures forall q :: HasEntry(ts, q) || q in parts ==> HasEntry(r, q)
  {
    r := ts;
    for i := 0 to |parts|
      invariant Distinct(Prefixes(r))
      invariant forall t :: t in r ==> t in ts || (t.prefix in parts && t.deadline == deadline)
      invariant forall q :: HasEntry(ts, q) || q in parts[..i] ==> HasEntry(r, q)
    {
      var seen := Prefixes(r);
      if parts[i] !in seen {
        DistinctSnoc(seen, parts[i]);
        var next := r + [TimedPrefix(parts[i], deadline)];
        assert Prefixes(next) == seen + [parts[i]];
        forall q | HasEntry(r, q) || q == parts[i]
          ensures HasEntry(next, q)
        {
          if HasEntry(r, q) {
            var j :| 0 <= j < |r| && r[j].prefix == q;
            assert next[j].prefix == q;
          } else {
            assert next[|r|].prefix == q;
          }
        }
        r := next;
      } else {
        var j :| 0 <= j < |seen| && seen[j] == parts[i];
        assert r[j].prefix == parts[i];
      }
    }
  }

  lemma LoweredSnoc(before: seq<TimedPrefix>, after: seq<TimedPrefix>, values: seq<TimedPrefix>, i: nat, f: Family)
    requires i < |values| && LoweredFrom(before, values[..i], f)
    requires forall t :: t in after ==> t in before || EntryFor(t, values[i], f)
    requires forall q :: HasEntry(before, q) || (InFamily(values[i], f) && IsPart(q, values[i].prefix)) ==> HasEntry(after, q)
    ensures LoweredFrom(after, values[..i + 1], f)
  {
    var more, less := values[..i + 1], values[..i];
    assert more[i] == values[i];
    forall t | t in after
      ensures EntryOf(t, more, f)
    {
      if t in before {
        var j :| 0 <= j < |less| && EntryFor(t, less[j], f);
        assert EntryFor(t, more[j], f);
      } else {
        assert EntryFor(t, more[i], f);
      }
    }
    forall j, q | 0 <= j < |more| && InFamily(more[j], f) && IsPart(q, more[j].prefix)
      ensures HasEntry(after, q)
    {
      if j < i {
        assert more[j] == less[j];
      }
    }
  }

  lemma MaskedValid(p: Prefix)
    requires p.Valid()
    ensures Masked(p) == p
  {
    Laminar(p, Masked(p));
    Laminar(Masked(p), p);
    EndInFamily(p);
    CoversAntisymmetric(p, Masked(p));
  }

  /** Disjoint values do not share an address. */
  lemma OneHolder(values: seq<TimedPrefix>, f: Family, a: nat, i: nat, j: nat)
    requires Dynamic.Acceptable(values) && i < |values| && j < |values|
    requires InFamily(values[i], f) && Masked(values[i].prefix).Has(f, a)
    requires InFamily(values[j], f) && Masked(values[j].prefix).Has(f, a)
    ensures i == j
  {
    assert Dynamic.Shaped(values[i]) && Dynamic.Shaped(values[j]);
    MaskedValid(values[i].prefix);
    MaskedValid(values[j].prefix);
  }

  lemma EntryHolds(t: TimedPrefix, v: TimedPrefix, f: Family, a: nat)
    requires EntryFor(t, v, f)
    ensures t.prefix.Valid() && Masked(t.prefix) == t.prefix && InFamily(t, f)
    ensures t.prefix.Has(f, a) ==> Masked(v.prefix).Has(f, a)
  {
    PartsHold(v.prefix, a);
    MaskedValid(t.prefix);
  }

  /** Disjoint values keep their own deadlines. */
  lemma DeadlinesKept(ts: seq<TimedPrefix>, values: seq<TimedPrefix>, f: Family, a: nat, d: int)
    requires Dynamic.Acceptable(values) && LoweredFrom(ts, values, f)
    ensures TimedAt(ts, f, a, d) <==> TimedAt(values, f, a, d)
  {
    if TimedAt(ts, f, a, d) {
      var i :| 0 <= i < |ts| && HoldsUntil(ts[i], f, a, d);
      assert ts[i] in ts;
      var j :| 0 <= j < |values| && EntryFor(ts[i], values[j], f);
      EntryHolds(ts[i], values[j], f, a);
      assert HoldsUntil(values[j], f, a, d);
    }
    if TimedAt(values, f, a, d) {
      var i :| 0 <= i < |values| && HoldsUntil(values[i], f, a, d);
      DeadlineFound(ts, values, f, a, i);
    }
  }

  lemma DeadlineFound(ts: seq<TimedPrefix>, values: seq<TimedPrefix>, f: Family, a: nat, i: nat)
    requires Dynamic.Acceptable(values) && LoweredFrom(ts, values, f)
    requires i < |values| && HoldsUntil(values[i], f, a, values[i].deadline)
    ensures TimedAt(ts, f, a, values[i].deadline)
  {
    PartsHold(values[i].prefix, a);
    var q :| q in Parts(values[i].prefix) && q.Valid() && q.Has(f, a);
    assert IsPart(q, values[i].prefix) && HasEntry(ts, q);
    var k :| 0 <= k < |ts| && ts[k].prefix == q;
    assert ts[k] in ts;
    var j :| 0 <= j < |values| && EntryFor(ts[k], values[j], f);
    EntryHolds(ts[k], values[j], f, a);
    OneHolder(values, f, a, i, j);
    assert HoldsUntil(ts[k], f, a, values[i].deadline);
  }

  lemma EntryShape(ts: seq<TimedPrefix>, values: seq<TimedPrefix>, f: Family)
    requires LoweredFrom(ts, values, f)
    ensures forall t :: t in ts ==> t.prefix.Valid() && t.prefix.fam == f && t.prefix.bits > 0
  {
    forall t | t in ts
      ensures t.prefix.Valid() && t.prefix.fam == f && t.prefix.bits > 0
    {
      assert EntryOf(t, values, f);
      var j :| 0 <= j < |values| && EntryFor(t, values[j], f);
      PartsHold(values[j].prefix, 0);
    }
  }

  method AppendValue(ts: seq<TimedPrefix>, values: seq<TimedPrefix>, i: nat, f: Family) returns (r: seq<TimedPrefix>)
    requires i < |values| && Distinct(Prefixes(ts)) && LoweredFrom(ts, values[..i], f)
    ensures Distinct(Prefixes(r)) && LoweredFrom(r, values[..i + 1], f)
  {
    r := ts;
    if InFamily(values[i], f) {
      r := AppendTimed(ts, Parts(values[i].prefix), values[i].deadline);
    }
    LoweredSnoc(ts, r, values, i, f);
  }

  /** Values of another family are skipped.  No entry has length zero, no prefix occurs
      twice, and an accepted projection keeps the deadline of every address. */
  method LoweredTimed(values: seq<TimedPrefix>, f: Family) returns (r: seq<TimedPrefix>)
    ensures Distinct(Prefixes(r)) && forall t :: t in r ==> t.prefix.Valid() && t.prefix.fam == f && t.prefix.bits > 0
    ensures Dynamic.Acceptable(values) ==> forall a, d :: TimedAt(r, f, a, d) <==> TimedAt(values, f, a, d)
  {
    var result: seq<TimedPrefix> := [];
    for i := 0 to |values|
      invariant Distinct(Prefixes(result)) && LoweredFrom(result, values[..i], f)
    {
      result := AppendValue(result, values, i, f);
    }
    assert values[..|values|] == values;
    r := SortTimed(result, values, f);
    if Dynamic.Acceptable(values) {
      forall a, d
        ensures TimedAt(r, f, a, d) <==> TimedAt(values, f, a, d)
      {
        DeadlinesKept(r, values, f, a, d);
      }
    }
    EntryShape(r, values, f);
  }

  method SortTimed(ts: seq<TimedPrefix>, ghost values: seq<TimedPrefix>, ghost f: Family) returns (r: seq<TimedPrefix>)
    requires Distinct(Prefixes(ts)) && LoweredFrom(ts, values, f)
    ensures Distinct(Prefixes(r)) && LoweredFrom(r, values, f) && SortedBy(Dynamic.TimedLeq, r)
  {
    Dynamic.TimedLeqTotal();
    r := Sort(Dynamic.TimedLeq, ts);
    SameElements(r, ts);
    forall q | HasEntry(ts, q)
      ensures HasEntry(r, q)
    {
      var j :| 0 <= j < |ts| && ts[j].prefix == q;
      assert ts[j] in r;
    }
    var ps := Prefixes(ts);
    forall i, j | 0 <= i < j < |ts|
      ensures ts[i].prefix != ts[j].prefix
    {
      assert ps[i] != ps[j];
    }
    DistinctPermuted(ts, r);
    forall i, j | 0 <= i < j < |r|
      ensures r[i].prefix != r[j].prefix
    {
      assert r[i] in ts && r[j] in ts;
    }
  }

  // ---------- From the configuration to the fate of a packet ----------

  /** The native sets hold the same addresses of the family as the compiled ones. */
  ghost predicate SameMembers(sets: seq<NamedSet>, bans: seq<Prefix>, native: seq<NamedSet>, nativeBans: seq<Prefix>,
                              f: Family) {
    forall id, a :: Member(sets, bans, id, f, a) <==> Member(native, nativeBans, id, f, a)
  }

  lemma {:induction false} FirstMatchSame(sets: seq<NamedSet>, bans: seq<Prefix>, native: seq<NamedSet>,
                                          nativeBans: seq<Prefix>,
                                          remote: Remote, rules: seq<Rule>, k: Packet)
    requires SameMembers(sets, bans, native, nativeBans, k.fam)
    ensures FirstMatch(sets, bans, remote, rules, k) == FirstMatch(native, nativeBans, remote, rules, k)
    decreases |rules|
  {
    if rules != [] {
      FirstMatchSame(sets, bans, native, nativeBans, remote, rules[1..], k);
    }
  }

  predicate SameSet(x: NamedSet, y: NamedSet) {
    x.id == y.id && x.kind == y.kind
  }

  ghost predicate SameAddressesIn(x: seq<Prefix>, y: seq<Prefix>, f: Family) {
    forall a :: Covered(x, f, a) <==> Covered(y, f, a)
  }

  ghost predicate LoweredSet(x: NamedSet, y: NamedSet, f: Family) {
    SameSet(x, y) && (x.kind.StaticSet? ==> SameAddressesIn(x.prefixes, y.prefixes, f))
  }

  lemma {:induction false} LoweredMember(sets: seq<NamedSet>, native: seq<NamedSet>, bans: seq<Prefix>,
                                         nativeBans: seq<Prefix>,
                                         id: SetID, f: Family, a: nat)
    requires |sets| == |native| && forall i :: 0 <= i < |sets| ==> LoweredSet(sets[i], native[i], f)
    requires SameAddressesIn(bans, nativeBans, f)
    ensures Member(sets, bans, id, f, a) <==> Member(native, nativeBans, id, f, a)
    decreases |sets|
  {
    if sets != [] {
      assert LoweredSet(sets[0], native[0], f);
      LoweredMember(sets[1..], native[1..], bans, nativeBans, id, f, a);
    }
  }

  lemma ListedValid(values: seq<Prefix>, f: Family, a: nat)
    requires forall i :: 0 <= i < |values| ==> values[i].Valid()
    ensures Listed(values, f, a) <==> Covered(values, f, a)
  {
    forall i | 0 <= i < |values|
      ensures Masked(values[i]) == values[i]
    {
      MaskedValid(values[i]);
    }
  }

  /** The contents of the native sets; fails when a static set holds a prefix it must not. */
  method LowerSets(sets: seq<NamedSet>, f: Family) returns (r: Option<seq<NamedSet>>)
    requires forall x, i :: x in sets && 0 <= i < |x.prefixes| ==> x.prefixes[i].Valid()
    ensures r.Some? ==> |r.value| == |sets| && forall i :: 0 <= i < |sets| ==> LoweredSet(sets[i], r.value[i], f)
    ensures r.None? ==> exists i, j :: 0 <= i < |sets| && 0 <= j < |sets[i].prefixes| && sets[i].prefixes[j].fam != f
  {
    var out: seq<NamedSet> := [];
    for i := 0 to |sets|
      invariant |out| == i && forall j :: 0 <= j < i ==> LoweredSet(sets[j], out[j], f)
    {
      var x := sets[i];
      if x.kind.StaticSet? {
        var lowered := LoweredPrefixes(x.prefixes, f);
        if lowered.None? {
          assert x in sets;
          return None;
        }
        forall a
          ensures Covered(x.prefixes, f, a) <==> Covered(lowered.value, f, a)
        {
          assert x in sets;
          ListedValid(x.prefixes, f, a);
        }
        out := out + [x.(prefixes := lowered.value)];
      } else {
        out := out + [x];
      }
    }
    return Some(out);
  }

  /** The fate is what the configuration declares for the packet. */
  ghost predicate Enforced(cfg: Config, s: Snapshot, geo: Geo, bans: seq<Prefix>, k: Native, original: bool,
                           fate: Fate) {
    exists v :: Declared(cfg, s, geo, bans, Logical(k, original), v) && fate == Meaning(v.action, k)
  }

  lemma PathOf(plan: FamilyPlan, bans: seq<Prefix>, k: Packet)
    requires TwoGuardedPaths(plan)
    ensures PathsVerdict(plan.sets, bans, plan.paths, k) == PathVerdict(plan.sets, bans, plan.paths[if k.direction.Ingress? then 0 else 1], k)
  {
    assert plan.paths == [plan.paths[0], plan.paths[1]];
    assert plan.paths[1..] == [plan.paths[1]];
  }

  /** Chains that stand for a plan's paths enforce the configuration, in any native sets
      with the same members. */
  lemma ChainsEnforce(cfg: Config, s: Snapshot, geo: Geo, plan: FamilyPlan, chain: seq<NativeRule>, original: bool,
                      bans: seq<Prefix>,
                      native: seq<NamedSet>, nativeBans: seq<Prefix>, k: Native)
    requires PlanStands(cfg, s, geo, plan) && TwoGuardedPaths(plan) && k.fam == plan.fam
    requires SameMembers(plan.sets, bans, native, nativeBans, plan.fam)
    requires var path := plan.paths[if k.direction.Ingress? then 0 else 1];
             StandsFor(chain, Unguarded(path.rules), plan.fam, path.remote, original)
    ensures Enforced(cfg, s, geo, bans, k, original, Enter(native, nativeBans, EntryRules, chain, k))
  {
    var path := plan.paths[if k.direction.Ingress? then 0 else 1];
    var p := Logical(k, original);
    PathOf(plan, bans, p);
    LoweringPreserves(native, nativeBans, path, 2, chain, original, k);
    FirstMatchSame(plan.sets, bans, native, nativeBans, path.remote, path.rules, p);
    assert Declared(cfg, s, geo, bans, p, PathVerdict(plan.sets, bans, path, p));
  }

  /** The chain for the packet's direction gives it the declared fate. */
  ghost predicate Fated(cfg: Config, s: Snapshot, geo: Geo, bans: seq<Prefix>, native: seq<NamedSet>,
                        nativeBans: seq<Prefix>,
                        chains: seq<seq<NativeRule>>, original: bool, k: Native) {
    |chains| == 2 &&
    Enforced(cfg, s, geo, bans, k, original, Enter(native, nativeBans, EntryRules, chains[if k.direction.Ingress? then 0 else 1], k))
  }

  /** The chains enforce the configuration on every packet of the family, whatever is banned and in
      whatever blocks the bans are held. */
  ghost predicate Enforces(cfg: Config, s: Snapshot, geo: Geo, native: seq<NamedSet>, chains: seq<seq<NativeRule>>,
                           original: bool, f: Family) {
    forall bans, held, k: Native :: k.fam == f && SameAddressesIn(bans, held, f) ==> Fated(cfg, s, geo, bans, native, held, chains, original, k)
  }

  lemma ChainsEnforceAll(cfg: Config, s: Snapshot, geo: Geo, plan: FamilyPlan, native: seq<NamedSet>,
                         chains: seq<seq<NativeRule>>, original: bool)
    requires PlanStands(cfg, s, geo, plan) && TwoGuardedPaths(plan)
    requires |native| == |plan.sets| && forall i :: 0 <= i < |native| ==> LoweredSet(plan.sets[i], native[i], plan.fam)
    requires |chains| == 2
    requires forall i :: 0 <= i < 2 ==> StandsFor(chains[i], Unguarded(plan.paths[i].rules), plan.fam, plan.paths[i].remote, original)
    ensures Enforces(cfg, s, geo, native, chains, original, plan.fam)
  {
    forall bans, held, k: Native | k.fam == plan.fam && SameAddressesIn(bans, held, plan.fam)
      ensures Fated(cfg, s, geo, bans, native, held, chains, original, k)
    {
      forall id, a
        ensures Member(plan.sets, bans, id, plan.fam, a) <==> Member(native, held, id, plan.fam, a)
      {
        LoweredMember(plan.sets, native, bans, held, id, plan.fam, a);
      }
      ChainsEnforce(cfg, s, geo, plan, chains[if k.direction.Ingress? then 0 else 1], original, bans, native, held, k);
    }
  }

  /** nftables enforces the configuration. */
  method EnforceNft(cfg: Config, ghost s: Snapshot, geo: Geo, plan: FamilyPlan) returns (chains: seq<seq<NativeRule>>)
    requires PlanStands(cfg, s, geo, plan) && TwoGuardedPaths(plan)
    ensures Enforces(cfg, s, geo, plan.sets, chains, false, plan.fam)
  {
    var inbound := NftRules(plan.paths[0].rules, Ingress, plan.fam);
    var outbound := NftRules(plan.paths[1].rules, Egress, plan.fam);
    chains := [inbound, outbound];
    ChainsEnforceAll(cfg, s, geo, plan, plan.sets, chains, false);
  }

  ghost predicate AllLowerable(rules: seq<Rule>, known: set<SetID>) {
    forall i :: 0 <= i < |rules| ==> Lowerable(rules[i], known)
  }

  function NamesOf(sets: seq<NamedSet>): set<SetID> {
    set x | x in sets :: x.id
  }

  /** iptables does too, with its lowered sets, for the port basis its attachment asks for; it refuses
      exactly rules that it cannot express. */
  method EnforceIpt(cfg: Config, ghost s: Snapshot, geo: Geo, plan: FamilyPlan, native: seq<NamedSet>, original: bool)
    returns (chains: Option<seq<seq<NativeRule>>>)
    requires PlanStands(cfg, s, geo, plan) && TwoGuardedPaths(plan)
    requires |native| == |plan.sets| && forall i :: 0 <= i < |native| ==> LoweredSet(plan.sets[i], native[i], plan.fam)
    ensures chains.Some? <==> forall i :: 0 <= i < 2 ==> AllLowerable(plan.paths[i].rules, NamesOf(plan.sets))
    ensures chains.Some? ==> Enforces(cfg, s, geo, native, chains.value, original, plan.fam)
  {
    var known := NamesOf(plan.sets);
    var inbound := IptRules(plan.paths[0].rules, plan.paths[0].remote, plan.fam, known, original);
    if inbound.None? {
      assert !AllLowerable(plan.paths[0].rules, known);
      return None;
    }
    var outbound := IptRules(plan.paths[1].rules, plan.paths[1].remote, plan.fam, known, original);
    if outbound.None? {
      assert !AllLowerable(plan.paths[1].rules, known);
      return None;
    }
    var both := [inbound.value, outbound.value];
    ChainsEnforceAll(cfg, s, geo, plan, native, both, original);
    return Some(both);
  }
}
