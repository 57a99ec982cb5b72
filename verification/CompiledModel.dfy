/** When a recorded plan counts as the compiled one (internal/state/compiled_model.go).

    Only the storage of geo sets may differ: a plan may give each policy its own set or
    let policies with equal prefixes share one.  `Alike` is the relation the check
    decides; related plans give every packet the same verdict, and unsharing a plan
    always stays within the relation.
 */
module CompiledModel {
  import opened Address
  import opened Basics
  import opened Policy

  // ---------- The relation ----------

  predicate IsGeo(x: NamedSet) {
    x.kind.StaticSet? && x.id.Geo?
  }

  predicate GeoIn(sets: seq<NamedSet>, id: SetID) {
    Find(sets, id).Some? && IsGeo(Find(sets, id).value)
  }

  function Rebound(r: Rule, id: SetID): Rule {
    r.(guard := r.guard.(setID := id))
  }

  /** The rules are equal but for the names of geo sets with equal prefixes. */
  predicate RuleAlike(actual: seq<NamedSet>, want: seq<NamedSet>, r: Rule, e: Rule) {
    var rid, eid := r.guard.setID, e.guard.setID;
    && Rebound(r, eid) == e
    && (rid != eid ==> GeoIn(actual, rid))
    && (GeoIn(actual, rid) ==> SamePrefixes(actual, rid, want, eid))
  }

  ghost predicate RulesAlike(actual: seq<NamedSet>, want: seq<NamedSet>, rs: seq<Rule>, es: seq<Rule>) {
    |rs| == |es| && forall i :: 0 <= i < |rs| ==> RuleAlike(actual, want, rs[i], es[i])
  }

  ghost predicate PathAlike(actual: seq<NamedSet>, want: seq<NamedSet>, p: Path, q: Path) {
    p.direction == q.direction && p.remote == q.remote && RulesAlike(actual, want, p.rules, q.rules)
  }

  ghost predicate SameInternals(actual: seq<NamedSet>, want: seq<NamedSet>) {
    forall x :: !IsGeo(x) ==> (x in actual <==> x in want)
  }

  ghost predicate UsedBy(id: SetID, rules: seq<Rule>) {
    exists i :: 0 <= i < |rules| && rules[i].guard.setID == id
  }

  ghost predicate UsedIn(id: SetID, paths: seq<Path>) {
    exists i :: 0 <= i < |paths| && UsedBy(id, paths[i].rules)
  }

  ghost predicate PathsAlike(actual: seq<NamedSet>, want: seq<NamedSet>, ps: seq<Path>, qs: seq<Path>) {
    |ps| == |qs| && forall i :: 0 <= i < |ps| ==> PathAlike(actual, want, ps[i], qs[i])
  }

  /** Equal internal sets, alike paths, and no unused geo set in the recorded plan. */
  ghost predicate Alike(actual: FamilyPlan, want: FamilyPlan) {
    && SameInternals(actual.sets, want.sets)
    && PathsAlike(actual.sets, want.sets, actual.paths, want.paths)
    && forall x :: x in actual.sets && IsGeo(x) ==> UsedIn(x.id, actual.paths)
  }

  // ---------- The check ----------

  type Index = map<SetID, NamedSet>

  ghost predicate Indexes(m: Index, sets: seq<NamedSet>) {
    forall id :: Find(sets, id) == if id in m then Some(m[id]) else None
  }

  method IndexOf(sets: seq<NamedSet>) returns (m: Index)
    ensures UniqueIDs(sets) ==> Indexes(m, sets)
  {
    m := map[];
    for i := 0 to |sets|
      invariant forall j :: 0 <= j < i ==> sets[j].id in m
      invariant forall id :: id in m ==> m[id].id == id && m[id] in sets
    {
      m := m[sets[i].id := sets[i]];
    }
    if UniqueIDs(sets) {
      forall id
        ensures Find(sets, id) == if id in m then Some(m[id]) else None
      {
        if id in m {
          FindUnique(sets, m[id]);
        }
      }
    }
  }

  ghost function Internals(sets: seq<NamedSet>): set<NamedSet> {
    set x | x in sets && !IsGeo(x)
  }

  lemma InternalsSnoc(sets: seq<NamedSet>, i: nat)
    requires i < |sets| && UniqueIDs(sets)
    ensures Internals(sets[..i + 1]) == Internals(sets[..i]) + (if IsGeo(sets[i]) then {} else {sets[i]})
    ensures sets[i] !in Internals(sets[..i])
  {
    assert sets[..i + 1] == sets[..i] + [sets[i]];
  }

  ghost function InternalCount(sets: seq<NamedSet>): nat {
    |Internals(sets)|
  }

  lemma CountSnoc(sets: seq<NamedSet>, i: nat)
    requires i < |sets| && UniqueIDs(sets)
    ensures InternalCount(sets[..i + 1]) == InternalCount(sets[..i]) + if IsGeo(sets[i]) then 0 else 1
  {
    InternalsSnoc(sets, i);
  }

  method CountInternals(sets: seq<NamedSet>) returns (n: nat)
    ensures UniqueIDs(sets) ==> n == |Internals(sets)|
  {
    n := 0;
    ghost var unique := UniqueIDs(sets);
    assert unique ==> InternalCount(sets[..0]) == 0;
    for i := 0 to |sets|
      invariant unique ==> n == InternalCount(sets[..i])
    {
      if unique {
        CountSnoc(sets, i);
      }
      if !IsGeo(sets[i]) {
        n := n + 1;
      }
    }
    assert sets[..|sets|] == sets;
  }

  /** Every internal set of the recorded plan is in the compiled one. */
  method InternalsPresent(sets: seq<NamedSet>, m: Index, ghost want: seq<NamedSet>) returns (ok: bool)
    ensures Indexes(m, want) && UniqueIDs(want) ==> (ok <==> Internals(sets) <= Internals(want))
  {
    for i := 0 to |sets|
      invariant Indexes(m, want) && UniqueIDs(want) ==> Internals(sets[..i]) <= Internals(want)
    {
      var x := sets[i];
      if !IsGeo(x) && (x.id !in m || m[x.id] != x) {
        if Indexes(m, want) && UniqueIDs(want) {
          assert x in Internals(sets);
          if x in want {
            FindUnique(want, x);
          }
        }
        return false;
      }
      if Indexes(m, want) && UniqueIDs(want) && !IsGeo(x) {
        assert Find(want, x.id) == Some(x);
      }
    }
    assert sets[..|sets|] == sets;
    return true;
  }

  lemma SameByCount(a: set<NamedSet>, b: set<NamedSet>)
    requires a <= b
    ensures |a| == |b| <==> a == b
  {
    assert b == a + (b - a);
  }

  lemma InternalsSame(actual: seq<NamedSet>, want: seq<NamedSet>)
    ensures SameInternals(actual, want) <==> Internals(actual) == Internals(want)
  {
    if Internals(actual) == Internals(want) {
      forall x | !IsGeo(x)
        ensures x in actual <==> x in want
      {
        assert x in actual <==> x in Internals(actual);
        assert x in want <==> x in Internals(want);
      }
    }
  }

  predicate SamePrefixes(actual: seq<NamedSet>, rid: SetID, want: seq<NamedSet>, eid: SetID) {
    GeoIn(actual, rid) && GeoIn(want, eid) && Find(actual, rid).value.prefixes == Find(want, eid).value.prefixes
  }

  /** Pairs already found to hold equal prefixes need no second look. */
  ghost predicate ComparedOk(compared: set<(SetID, SetID)>, actual: seq<NamedSet>, want: seq<NamedSet>) {
    forall c :: c in compared ==> SamePrefixes(actual, c.0, want, c.1)
  }

  predicate GeoAt(m: Index, id: SetID) {
    id in m && IsGeo(m[id])
  }

  method CheckRule(am: Index, wm: Index, compared: set<(SetID, SetID)>, r: Rule, e: Rule, ghost actual: seq<NamedSet>,
                   ghost want: seq<NamedSet>)
    returns (ok: bool, pairs: set<(SetID, SetID)>)
    ensures Indexes(am, actual) && Indexes(wm, want) && ComparedOk(compared, actual, want) ==>
              (ok <==> RuleAlike(actual, want, r, e)) && ComparedOk(pairs, actual, want)
  {
    var rid, eid := r.guard.setID, e.guard.setID;
    pairs := compared;
    assert Indexes(am, actual) && Indexes(wm, want) ==> (GeoAt(am, rid) <==> GeoIn(actual, rid)) && (GeoAt(wm, eid) <==> GeoIn(want, eid));
    if rid != eid && (!GeoAt(am, rid) || !GeoAt(wm, eid)) {
      return false, pairs;
    }
    if Rebound(r, eid) != e {
      return false, pairs;
    }
    if !GeoAt(am, rid) {
      return true, pairs;
    }
    if !GeoAt(wm, eid) {
      return false, pairs;
    }
    if (rid, eid) in compared {
      return true, pairs;
    }
    if am[rid].prefixes != wm[eid].prefixes {
      return false, pairs;
    }
    return true, compared + {(rid, eid)};
  }

  /** Geo sets of the recorded plan that the rules refer to. */
  ghost predicate UsedExactly(used: set<SetID>, am: Index, before: set<SetID>, rules: seq<Rule>) {
    forall id :: id in used <==> id in before || (GeoAt(am, id) && UsedBy(id, rules))
  }

  lemma UsedSnoc(rules: seq<Rule>, i: nat, id: SetID)
    requires i < |rules|
    ensures UsedBy(id, rules[..i + 1]) <==> UsedBy(id, rules[..i]) || rules[i].guard.setID == id
  {
    assert rules[..i + 1][i] == rules[i];
    assert forall j :: 0 <= j < i ==> rules[..i + 1][j] == rules[..i][j];
  }

  method CheckRules(am: Index, wm: Index, compared: set<(SetID, SetID)>, used: set<SetID>, rs: seq<Rule>, es: seq<Rule>,
                    ghost actual: seq<NamedSet>, ghost want: seq<NamedSet>)
    returns (ok: bool, pairs: set<(SetID, SetID)>, marks: set<SetID>)
    ensures Indexes(am, actual) && Indexes(wm, want) && ComparedOk(compared, actual, want) ==>
              (ok <==> RulesAlike(actual, want, rs, es)) && ComparedOk(pairs, actual, want)
    ensures ok ==> UsedExactly(marks, am, used, rs)
  {
    pairs, marks := compared, used;
    if |rs| != |es| {
      return false, pairs, marks;
    }
    for i := 0 to |rs|
      invariant Indexes(am, actual) && Indexes(wm, want) && ComparedOk(compared, actual, want) ==> ComparedOk(pairs, actual, want)
      invariant Indexes(am, actual) && Indexes(wm, want) && ComparedOk(compared, actual, want) ==>
                  forall j :: 0 <= j < i ==> RuleAlike(actual, want, rs[j], es[j])
      invariant UsedExactly(marks, am, used, rs[..i])
    {
      ok, pairs := CheckRule(am, wm, pairs, rs[i], es[i], actual, want);
      if !ok {
        return false, pairs, marks;
      }
      forall id
        ensures UsedBy(id, rs[..i + 1]) <==> UsedBy(id, rs[..i]) || rs[i].guard.setID == id
      {
        UsedSnoc(rs, i, id);
      }
      if GeoAt(am, rs[i].guard.setID) {
        marks := marks + {rs[i].guard.setID};
      }
    }
    assert rs[..|rs|] == rs;
    return true, pairs, marks;
  }

  ghost predicate UsedInExactly(used: set<SetID>, am: Index, paths: seq<Path>) {
    forall id :: id in used <==> GeoAt(am, id) && UsedIn(id, paths)
  }

  lemma UsedInSnoc(paths: seq<Path>, i: nat, id: SetID)
    requires i < |paths|
    ensures UsedIn(id, paths[..i + 1]) <==> UsedIn(id, paths[..i]) || UsedBy(id, paths[i].rules)
  {
    assert paths[..i + 1][i] == paths[i];
    assert forall j :: 0 <= j < i ==> paths[..i + 1][j] == paths[..i][j];
  }

  method CheckPaths(am: Index, wm: Index, ps: seq<Path>, qs: seq<Path>, ghost actual: seq<NamedSet>,
                    ghost want: seq<NamedSet>)
    returns (ok: bool, used: set<SetID>)
    requires |ps| == |qs|
    ensures Indexes(am, actual) && Indexes(wm, want) ==> (ok <==> PathsAlike(actual, want, ps, qs))
    ensures ok ==> UsedInExactly(used, am, ps)
  {
    used := {};
    var compared: set<(SetID, SetID)> := {};
    for i := 0 to |ps|
      invariant Indexes(am, actual) && Indexes(wm, want) ==> ComparedOk(compared, actual, want)
      invariant Indexes(am, actual) && Indexes(wm, want) ==> PathsAlike(actual, want, ps[..i], qs[..i])
      invariant UsedInExactly(used, am, ps[..i])
    {
      if ps[i].direction != qs[i].direction || ps[i].remote != qs[i].remote {
        return false, used;
      }
      var marks;
      ok, compared, marks := CheckRules(am, wm, compared, used, ps[i].rules, qs[i].rules, actual, want);
      if !ok {
        return false, used;
      }
      forall id
        ensures UsedIn(id, ps[..i + 1]) <==> UsedIn(id, ps[..i]) || UsedBy(id, ps[i].rules)
      {
        UsedInSnoc(ps, i, id);
      }
      used := marks;
    }
    assert ps[..|ps|] == ps && qs[..|qs|] == qs;
    return true, used;
  }

  method AllUsed(sets: seq<NamedSet>, used: set<SetID>) returns (ok: bool)
    ensures ok <==> forall x :: x in sets && IsGeo(x) ==> x.id in used
  {
    for i := 0 to |sets|
      invariant forall j :: 0 <= j < i && IsGeo(sets[j]) ==> sets[j].id in used
    {
      if IsGeo(sets[i]) && sets[i].id !in used {
        return false;
      }
    }
    return true;
  }

  /** For plans whose set IDs are unique, decides exactly whether they are alike. */
  method SameCompiledFamily(actual: FamilyPlan, want: FamilyPlan) returns (same: bool)
    ensures UniqueIDs(actual.sets) && UniqueIDs(want.sets) ==> (same <==> Alike(actual, want))
  {
    var wm := IndexOf(want.sets);
    var am := IndexOf(actual.sets);
    InternalsSame(actual.sets, want.sets);
    var present := InternalsPresent(actual.sets, wm, want.sets);
    if !present {
      return false;
    }
    var n := CountInternals(actual.sets);
    var m := CountInternals(want.sets);
    if UniqueIDs(actual.sets) && UniqueIDs(want.sets) {
      SameByCount(Internals(actual.sets), Internals(want.sets));
    }
    if n != m || |actual.paths| != |want.paths| {
      return false;
    }
    var ok, used := CheckPaths(am, wm, actual.paths, want.paths, actual.sets, want.sets);
    if !ok {
      return false;
    }
    same := AllUsed(actual.sets, used);
    if UniqueIDs(actual.sets) {
      forall x | x in actual.sets && IsGeo(x)
        ensures x.id in used <==> UsedIn(x.id, actual.paths)
      {
        FindUnique(actual.sets, x);
      }
    }
  }

  // ---------- Alike plans decide alike ----------

  /** Every set a rule refers to exists. */
  ghost predicate Resolved(plan: FamilyPlan) {
    forall i, j :: 0 <= i < |plan.paths| && 0 <= j < |plan.paths[i].rules| && !plan.paths[i].rules[j].guard.setID.NoSet? ==>
      Find(plan.sets, plan.paths[i].rules[j].guard.setID).Some?
  }

  lemma MatchAlike(actual: seq<NamedSet>, want: seq<NamedSet>, bans: seq<Prefix>, remote: Remote, r: Rule, e: Rule,
                   k: Packet)
    requires UniqueIDs(want) && SameInternals(actual, want) && RuleAlike(actual, want, r, e)
    requires r.guard.setID.NoSet? || Find(actual, r.guard.setID).Some?
    ensures Matches(actual, bans, remote, r.guard, k) <==> Matches(want, bans, remote, e.guard, k)
    ensures RuleVerdict(Some(r)) == RuleVerdict(Some(e))
  {
    var rid, eid := r.guard.setID, e.guard.setID;
    assert r.guard.(setID := eid) == e.guard && r.action == e.action && r.policy == e.policy && r.counter == e.counter;
    if !rid.NoSet? && !GeoIn(actual, rid) {
      var x := Find(actual, rid).value;
      assert x in want;
      FindUnique(want, x);
    }
  }

  lemma {:induction false} RulesDecideAlike(actual: seq<NamedSet>, want: seq<NamedSet>, bans: seq<Prefix>,
                                            remote: Remote, rs: seq<Rule>, es: seq<Rule>, k: Packet)
    requires UniqueIDs(want) && SameInternals(actual, want) && RulesAlike(actual, want, rs, es)
    requires forall i :: 0 <= i < |rs| ==> rs[i].guard.setID.NoSet? || Find(actual, rs[i].guard.setID).Some?
    ensures RuleVerdict(FirstMatch(actual, bans, remote, rs, k)) == RuleVerdict(FirstMatch(want, bans, remote, es, k))
    decreases |rs|
  {
    if rs != [] {
      MatchAlike(actual, want, bans, remote, rs[0], es[0], k);
      RulesDecideAlike(actual, want, bans, remote, rs[1..], es[1..], k);
    }
  }

  lemma {:induction false} PathsDecideAlike(actual: seq<NamedSet>, want: seq<NamedSet>, bans: seq<Prefix>,
                                            ps: seq<Path>, qs: seq<Path>, k: Packet)
    requires UniqueIDs(want) && SameInternals(actual, want) && PathsAlike(actual, want, ps, qs)
    requires forall i, j :: 0 <= i < |ps| && 0 <= j < |ps[i].rules| ==>
               ps[i].rules[j].guard.setID.NoSet? || Find(actual, ps[i].rules[j].guard.setID).Some?
    ensures PathsVerdict(actual, bans, ps, k) == PathsVerdict(want, bans, qs, k)
    decreases |ps|
  {
    if ps != [] {
      assert PathAlike(actual, want, ps[0], qs[0]);
      RulesDecideAlike(actual, want, bans, ps[0].remote, ps[0].rules, qs[0].rules, k);
      forall i | 0 <= i < |ps| - 1
        ensures PathAlike(actual, want, ps[1..][i], qs[1..][i])
      {
        assert PathAlike(actual, want, ps[i + 1], qs[i + 1]);
      }
      PathsDecideAlike(actual, want, bans, ps[1..], qs[1..], k);
    }
  }

  ghost predicate WellFormedPlan(plan: FamilyPlan) {
    UniqueIDs(plan.sets) && Resolved(plan)
  }

  ghost predicate AllWellFormed(plans: seq<FamilyPlan>) {
    forall i :: 0 <= i < |plans| ==> WellFormedPlan(plans[i])
  }

  /** Decides exactly whether well-formed plans are alike; accepted ones give every packet
      the same verdict, counter and policy. */
  method SameCompiledFamilies(recorded: seq<FamilyPlan>, compiled: seq<FamilyPlan>) returns (same: bool)
    ensures AllWellFormed(recorded) && AllWellFormed(compiled) ==> (same <==> FamiliesAlike(recorded, compiled))
    ensures AllWellFormed(recorded) && AllWellFormed(compiled) && same ==>
              forall bans, k :: PlanVerdict(recorded, bans, k) == PlanVerdict(compiled, bans, k)
  {
    if |recorded| != |compiled| {
      return false;
    }
    for i := 0 to |recorded|
      invariant AllWellFormed(recorded) && AllWellFormed(compiled) ==> forall j :: 0 <= j < i ==> PlanAlike(recorded[j], compiled[j])
    {
      if recorded[i].fam != compiled[i].fam {
        return false;
      }
      same := SameCompiledFamily(recorded[i], compiled[i]);
      if !same {
        return false;
      }
    }
    if AllWellFormed(recorded) && AllWellFormed(compiled) {
      forall bans, k
        ensures PlanVerdict(recorded, bans, k) == PlanVerdict(compiled, bans, k)
      {
        AlikeDecidesAlike(recorded, compiled, bans, k);
      }
    }
    return true;
  }

  ghost predicate PlanAlike(p: FamilyPlan, q: FamilyPlan) {
    p.fam == q.fam && Alike(p, q)
  }

  ghost predicate FamiliesAlike(recorded: seq<FamilyPlan>, compiled: seq<FamilyPlan>) {
    |recorded| == |compiled| && forall i :: 0 <= i < |recorded| ==> PlanAlike(recorded[i], compiled[i])
  }

  lemma {:induction false} AlikeDecidesAlike(recorded: seq<FamilyPlan>, compiled: seq<FamilyPlan>, bans: seq<Prefix>,
                                             k: Packet)
    requires FamiliesAlike(recorded, compiled)
    requires forall i :: 0 <= i < |recorded| ==> WellFormedPlan(recorded[i]) && WellFormedPlan(compiled[i])
    ensures PlanVerdict(recorded, bans, k) == PlanVerdict(compiled, bans, k)
    decreases |recorded|
  {
    if recorded != [] {
      assert PlanAlike(recorded[0], compiled[0]);
      if recorded[0].fam == k.fam {
        PathsDecideAlike(recorded[0].sets, compiled[0].sets, bans, recorded[0].paths, compiled[0].paths, k);
      } else {
        forall i | 0 <= i < |recorded| - 1
          ensures PlanAlike(recorded[1..][i], compiled[1..][i])
        {
          assert PlanAlike(recorded[i + 1], compiled[i + 1]);
        }
        AlikeDecidesAlike(recorded[1..], compiled[1..], bans, k);
      }
    }
  }

  // ---------- Unsharing ----------

  /** The set a policy had to itself before sets were shared. */
  function OwnSet(sets: seq<NamedSet>, r: Rule): NamedSet
    requires GeoIn(sets, r.guard.setID)
  {
    NamedSet(Geo(r.policy), StaticSet, Find(sets, r.guard.setID).value.prefixes)
  }

  function OwnRule(sets: seq<NamedSet>, r: Rule): Rule {
    if GeoIn(sets, r.guard.setID) then Rebound(r, Geo(r.policy)) else r
  }

  function OwnRules(sets: seq<NamedSet>, rules: seq<Rule>): (r: seq<Rule>)
    ensures |r| == |rules| && forall i :: 0 <= i < |r| ==> r[i] == OwnRule(sets, rules[i])
  {
    seq(|rules|, i requires 0 <= i < |rules| => OwnRule(sets, rules[i]))
  }

  function OwnPaths(sets: seq<NamedSet>, paths: seq<Path>): (r: seq<Path>)
    ensures |r| == |paths| && forall i :: 0 <= i < |r| ==> r[i] == paths[i].(rules := OwnRules(sets, paths[i].rules))
  {
    seq(|paths|, i requires 0 <= i < |paths| => paths[i].(rules := OwnRules(sets, paths[i].rules)))
  }

  function AllRules(paths: seq<Path>): seq<Rule> {
    if paths == [] then [] else paths[0].rules + AllRules(paths[1..])
  }

  lemma {:induction false} AllRulesHold(paths: seq<Path>, r: Rule)
    ensures r in AllRules(paths) <==> exists i :: 0 <= i < |paths| && r in paths[i].rules
    decreases |paths|
  {
    if paths != [] {
      AllRulesHold(paths[1..], r);
      if i :| 0 <= i < |paths| && r in paths[i].rules {
        assert i > 0 ==> r in paths[1..][i - 1].rules;
      }
      if i :| 0 <= i < |paths[1..]| && r in paths[1..][i].rules {
        assert r in paths[i + 1].rules;
      }
    }
  }

  /** One set per policy. */
  function OwnSets(sets: seq<NamedSet>, rules: seq<Rule>): seq<NamedSet> {
    if rules == [] then []
    else
      var rest := OwnSets(sets, rules[1..]);
      if GeoIn(sets, rules[0].guard.setID) && OwnSet(sets, rules[0]) !in rest then [OwnSet(sets, rules[0])] + rest else rest
  }

  function InternalOnly(sets: seq<NamedSet>): seq<NamedSet> {
    if sets == [] then [] else (if IsGeo(sets[0]) then [] else [sets[0]]) + InternalOnly(sets[1..])
  }

  function Unshare(plan: FamilyPlan): FamilyPlan {
    FamilyPlan(plan.fam, InternalOnly(plan.sets) + OwnSets(plan.sets, AllRules(plan.paths)), OwnPaths(plan.sets, plan.paths))
  }

  predicate OneOwner(sets: seq<NamedSet>, r: Rule, q: Rule) {
    r.policy == q.policy && GeoIn(sets, r.guard.setID) && GeoIn(sets, q.guard.setID) ==> OwnSet(sets, r) == OwnSet(sets, q)
  }

  /** Rules of one policy use sets with equal prefixes, and only static sets have geo names. */
  ghost predicate Owned(plan: FamilyPlan) {
    && (forall x :: x in plan.sets && x.id.Geo? ==> IsGeo(x))
    && (forall r, q :: r in AllRules(plan.paths) && q in AllRules(plan.paths) ==> OneOwner(plan.sets, r, q))
  }

  ghost predicate OwnsSet(sets: seq<NamedSet>, r: Rule, y: NamedSet) {
    GeoIn(sets, r.guard.setID) && y == OwnSet(sets, r)
  }

  /** Every copy is the copy of some rule. */
  lemma {:induction false} OwnSetsFrom(sets: seq<NamedSet>, rules: seq<Rule>, y: NamedSet) returns (r: Rule)
    requires y in OwnSets(sets, rules)
    ensures r in rules && OwnsSet(sets, r, y)
    decreases |rules|
  {
    if y in OwnSets(sets, rules[1..]) {
      r := OwnSetsFrom(sets, rules[1..], y);
    } else {
      r := rules[0];
    }
  }

  lemma {:induction false} OwnSetsHold(sets: seq<NamedSet>, rules: seq<Rule>)
    requires forall r, q :: r in rules && q in rules ==> OneOwner(sets, r, q)
    ensures forall r :: r in rules && GeoIn(sets, r.guard.setID) ==> OwnSet(sets, r) in OwnSets(sets, rules)
    ensures UniqueIDs(OwnSets(sets, rules))
    decreases |rules|
  {
    if rules != [] {
      var rest := rules[1..];
      OwnSetsHold(sets, rest);
      var own := OwnSets(sets, rest);
      if GeoIn(sets, rules[0].guard.setID) && OwnSet(sets, rules[0]) !in own {
        var first := OwnSet(sets, rules[0]);
        forall y | y in own
          ensures y.id != first.id
        {
          var r := OwnSetsFrom(sets, rest, y);
          assert OneOwner(sets, r, rules[0]);
        }
        assert OwnSets(sets, rules) == [first] + own;
      }
    }
  }

  lemma {:induction false} InternalOnlyHolds(sets: seq<NamedSet>)
    requires UniqueIDs(sets)
    ensures UniqueIDs(InternalOnly(sets))
    ensures forall x :: x in InternalOnly(sets) <==> x in sets && !IsGeo(x)
    decreases |sets|
  {
    if sets != [] {
      InternalOnlyHolds(sets[1..]);
      assert sets == [sets[0]] + sets[1..];
      assert forall y :: y in sets[1..] ==> y.id != sets[0].id;
    }
  }

  lemma UnshareSets(plan: FamilyPlan)
    requires WellFormedPlan(plan) && Owned(plan)
    ensures var sets := Unshare(plan).sets;
            && UniqueIDs(sets)
            && (forall x :: !IsGeo(x) ==> (x in sets <==> x in plan.sets))
            && (forall r :: r in AllRules(plan.paths) && GeoIn(plan.sets, r.guard.setID) ==> OwnSet(plan.sets, r) in sets)
            && (forall y :: y in sets && IsGeo(y) ==> exists r :: r in AllRules(plan.paths) && OwnsSet(plan.sets, r, y))
  {
    var rules := AllRules(plan.paths);
    var internal, own := InternalOnly(plan.sets), OwnSets(plan.sets, rules);
    OwnSetsHold(plan.sets, rules);
    InternalOnlyHolds(plan.sets);
    forall y | y in own
      ensures IsGeo(y) && exists r :: r in rules && OwnsSet(plan.sets, r, y)
    {
      var r := OwnSetsFrom(plan.sets, rules, y);
    }
    var sets := internal + own;
    forall i, j | 0 <= i < j < |sets|
      ensures sets[i].id != sets[j].id
    {
      if i < |internal| <= j {
        assert sets[i] in internal && sets[j] in own;
      }
    }
  }

  lemma OwnRuleAlike(plan: FamilyPlan, r: Rule)
    requires WellFormedPlan(plan) && Owned(plan) && r in AllRules(plan.paths)
    requires r.guard.setID.NoSet? || Find(plan.sets, r.guard.setID).Some?
    ensures RuleAlike(Unshare(plan).sets, plan.sets, OwnRule(plan.sets, r), r)
  {
    var sets := Unshare(plan).sets;
    UnshareSets(plan);
    if GeoIn(plan.sets, r.guard.setID) {
      FindUnique(sets, OwnSet(plan.sets, r));
    } else if Find(plan.sets, r.guard.setID).Some? {
      FindUnique(sets, Find(plan.sets, r.guard.setID).value);
    }
  }

  /** Giving every policy its own set is always accepted. */
  lemma UnshareAlike(plan: FamilyPlan)
    requires WellFormedPlan(plan) && Owned(plan)
    ensures Alike(Unshare(plan), plan) && UniqueIDs(Unshare(plan).sets)
  {
    var own := Unshare(plan);
    UnshareSets(plan);
    forall i | 0 <= i < |plan.paths|
      ensures PathAlike(own.sets, plan.sets, own.paths[i], plan.paths[i])
    {
      forall j | 0 <= j < |plan.paths[i].rules|
        ensures RuleAlike(own.sets, plan.sets, own.paths[i].rules[j], plan.paths[i].rules[j])
      {
        AllRulesHold(plan.paths, plan.paths[i].rules[j]);
        OwnRuleAlike(plan, plan.paths[i].rules[j]);
      }
    }
    forall y | y in own.sets && IsGeo(y)
      ensures UsedIn(y.id, own.paths)
    {
      var r :| r in AllRules(plan.paths) && OwnsSet(plan.sets, r, y);
      AllRulesHold(plan.paths, r);
      var i :| 0 <= i < |plan.paths| && r in plan.paths[i].rules;
      var j :| 0 <= j < |plan.paths[i].rules| && plan.paths[i].rules[j] == r;
      assert own.paths[i].rules[j] == OwnRule(plan.sets, r);
      assert UsedBy(y.id, own.paths[i].rules);
    }
  }

  /** The check accepts a plan against its own unsharing. */
  method AcceptsUnshared(plan: FamilyPlan) returns (same: bool)
    requires WellFormedPlan(plan) && Owned(plan)
    ensures same
  {
    UnshareAlike(plan);
    same := SameCompiledFamily(Unshare(plan), plan);
  }
}
