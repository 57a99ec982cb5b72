/** What lookup says is what the kernel does.

    Compiled plans meet everything the lookup view and the comparison of recorded plans
    ask of a plan, so their results hold for every configuration that compiles: an answer
    gives each point the declared action, and that is the fate the packets of the point
    meet in either backend.
 */
module Prediction {
  import opened Address
  import opened Basics
  import opened PrefixSet
  import opened Policy
  import opened Ports
  import opened Evaluate
  import opened Lookup
  import opened Compile
  import opened Lowering
  import opened LoweredSets
  import opened Pipeline
  import CompiledModel

  // ---------- Compiled plans fit their consumers ----------

  lemma SetFound(sets: seq<NamedSet>, id: SetID)
    requires HasSet(sets, id)
    ensures Find(sets, id).Some?
  {
    var x :| x in sets && x.id == id;
    var i :| 0 <= i < |sets| && sets[i] == x;
  }

  lemma RuleIsReady(policies: seq<PolicyConfig>, f: Family, sets: seq<NamedSet>, bindings: map<string, SetID>, r: Rule)
    requires PortsValid(policies) && WellMade(policies, f, sets, bindings, r)
    ensures RuleReady(r, sets)
  {
    if r.guard.setID.Banned? {
      SetFound(sets, Banned);
    }
    if r.guard.traffic != AnyTraffic {
      var p :| p in policies && PolicyScope(p.traffic, f) == Some(r.guard.traffic);
      assert SixteenBit(p.traffic.tcp) && SixteenBit(p.traffic.udp);
      SixteenBitFits(r.guard.traffic.tcp);
      SixteenBitFits(r.guard.traffic.udp);
    }
  }

  lemma SixteenBitFits(ranges: seq<PortRange>)
    requires ranges == [] || SixteenBit(ranges)
    ensures forall x :: x in ranges ==> Fits16(x)
  {
    forall x | x in ranges
      ensures Fits16(x)
    {
      var i :| 0 <= i < |ranges| && ranges[i] == x;
      assert ranges[i].start <= ranges[i].end;
    }
  }

  /** A compiled plan can be looked up. */
  lemma PlanIsReady(cfg: Config, geo: Geo, plan: FamilyPlan)
    requires PortsValid(cfg.policies) && GeoByFamily(geo) && PlanMade(cfg, geo, plan)
    ensures PlanReady(plan)
  {
    forall i | 0 <= i < |plan.sets|
      ensures SetReady(plan.sets[i], plan.fam)
    {
      assert OwnPrefixes(plan.sets[i], plan.fam, geo.Of(plan.fam).prefixes);
    }
    var bindings :| RulesMade(cfg.policies, plan, bindings);
    forall i, j | 0 <= i < |plan.paths| && 0 <= j < |plan.paths[i].rules|
      ensures RuleReady(plan.paths[i].rules[j], plan.sets)
    {
      assert plan.paths[i].rules[j] in plan.paths[i].rules;
      RuleIsReady(cfg.policies, plan.fam, plan.sets, bindings, plan.paths[i].rules[j]);
    }
  }

  lemma PlansAreReady(cfg: Config, s: Snapshot, geo: Geo, plans: seq<FamilyPlan>)
    requires PortsValid(cfg.policies) && GeoByFamily(geo) && FamiliesStand(cfg, s, geo, plans)
    ensures PlansReady(plans)
  {
    forall i | 0 <= i < |plans|
      ensures PlanReady(plans[i])
    {
      PlanIsReady(cfg, geo, plans[i]);
    }
  }

  lemma RulesOfBoth(plan: FamilyPlan, r: Rule)
    requires |plan.paths| == 2 && r in CompiledModel.AllRules(plan.paths)
    ensures r in plan.paths[0].rules || r in plan.paths[1].rules
  {
    assert plan.paths[1..] == [plan.paths[1]] && plan.paths[1..][1..] == [];
    assert CompiledModel.AllRules(plan.paths[1..]) == plan.paths[1].rules + CompiledModel.AllRules([]);
  }

  /** Every rule of a compiled plan finds its set, and a policy has one geo set at most. */
  lemma PlanIsOwned(cfg: Config, geo: Geo, plan: FamilyPlan)
    requires PlanMade(cfg, geo, plan)
    ensures CompiledModel.WellFormedPlan(plan) && CompiledModel.Owned(plan)
  {
    var bindings :| RulesMade(cfg.policies, plan, bindings);
    forall i, j | 0 <= i < |plan.paths| && 0 <= j < |plan.paths[i].rules| && !plan.paths[i].rules[j].guard.setID.NoSet?
      ensures Find(plan.sets, plan.paths[i].rules[j].guard.setID).Some?
    {
      assert WellMade(cfg.policies, plan.fam, plan.sets, bindings, plan.paths[i].rules[j]);
      SetFound(plan.sets, plan.paths[i].rules[j].guard.setID);
    }
    forall r, q | r in CompiledModel.AllRules(plan.paths) && q in CompiledModel.AllRules(plan.paths)
      ensures CompiledModel.OneOwner(plan.sets, r, q)
    {
      RulesOfBoth(plan, r);
      RulesOfBoth(plan, q);
      assert WellMade(cfg.policies, plan.fam, plan.sets, bindings, r) && WellMade(cfg.policies, plan.fam, plan.sets, bindings, q);
    }
    forall x | x in plan.sets && x.id.Geo?
      ensures CompiledModel.IsGeo(x)
    {
      assert OwnPrefixes(x, plan.fam, geo.Of(plan.fam).prefixes);
    }
  }

  /** A plan recorded before sets were shared is accepted for every configuration that compiles. */
  method UnsharedAccepted(cfg: Config, s: Snapshot, geo: Geo, hash: (Family, seq<Prefix>) -> nat)
    returns (plans: Option<seq<FamilyPlan>>, same: seq<bool>)
    requires SnapshotValid(s) && geo.Valid()
    ensures plans.Some? <==> Compilable(cfg, s)
    ensures plans.Some? ==> |same| == |plans.value| && forall i :: 0 <= i < |same| ==> same[i]
  {
    same := [];
    plans := Compile.Compile(cfg, s, geo, hash);
    if plans.Some? {
      for i := 0 to |plans.value|
        invariant |same| == i && forall j :: 0 <= j < i ==> same[j]
      {
        PlanIsOwned(cfg, geo, plans.value[i]);
        var ok := CompiledModel.AcceptsUnshared(plans.value[i]);
        same := same + [ok];
      }
    }
  }

  // ---------- Every packet is decided ----------

  lemma {:induction false} OpenDecides(sets: seq<NamedSet>, bans: seq<Prefix>, remote: Remote, rules: seq<Rule>,
                                       k: Packet)
    requires EndsOpen(rules)
    ensures FirstMatch(sets, bans, remote, rules, k).Some?
    decreases |rules|
  {
    if |rules| > 1 {
      OpenDecides(sets, bans, remote, rules[1..], k);
    }
  }

  /** In compiled plans some rule matches in every cell. */
  lemma CompiledDue(cfg: Config, s: Snapshot, geo: Geo, plans: seq<FamilyPlan>, bans: seq<Prefix>, explain: Explain,
                    t: Task)
    requires FamiliesStand(cfg, s, geo, plans)
    ensures Expected(plans, bans, explain, t).Some?
  {
    PlanOfIs(plans, t.cell.fam);
    if t.attachment.managed && PlanOf(plans, t.cell.fam).Some? {
      var plan := PlanOf(plans, t.cell.fam).value;
      var i :| 0 <= i < |plans| && plans[i] == plan;
      assert PlanMade(cfg, geo, plans[i]);
      PlanDue(plan, bans, explain, t);
    }
  }

  lemma PlanDue(plan: FamilyPlan, bans: seq<Prefix>, explain: Explain, t: Task)
    requires |plan.paths| == 2 && EndsOpen(plan.paths[0].rules) && EndsOpen(plan.paths[1].rules)
    ensures PlanExpected(plan, bans, explain, t).Some?
  {
    PathOfIs(plan.paths, t.direction);
    if Evaluate.PathOf(plan.paths, t.direction).Some? {
      var path := Evaluate.PathOf(plan.paths, t.direction).value;
      OpenDecides(plan.sets, bans, path.remote, path.rules, Representative(t.cell, t.direction, t.traffic));
    }
  }

  // ---------- The answer and the declaration ----------

  /** The outcome names the action and the policy that the configuration declares for the packet. */
  ghost predicate SaysDeclared(cfg: Config, s: Snapshot, geo: Geo, bans: seq<Prefix>, o: Outcome, k: Packet) {
    exists v :: Declared(cfg, s, geo, bans, k, v) && o.key.action == v.action && o.key.policy == v.policy
  }

  /** Every outcome that holds a managed point of an enabled family says what is declared there. */
  ghost predicate AnswersDeclare(cfg: Config, s: Snapshot, geo: Geo, bans: seq<Prefix>, outs: seq<Outcome>,
                                 query: Prefix, q: Request,
                                 attachments: map<Direction, seq<Attachment>>)
    requires query.Valid()
  {
    forall i, x, k: Packet :: 0 <= i < |outs| && AsksPoint(query, q, attachments, x) && HoldsPoint(outs[i], query.fam, x) ==>
      (At(k, query.fam, x) && x.attachment.managed ==> SaysDeclared(cfg, s, geo, bans, outs[i], k))
  }

  lemma AnswersAreDeclared(cfg: Config, s: Snapshot, geo: Geo, plans: seq<FamilyPlan>, bans: seq<Prefix>,
                           outs: seq<Outcome>, query: Prefix,
                           q: Request, attachments: map<Direction, seq<Attachment>>)
    requires query.Valid() && PlansStand(cfg, s, geo, plans) && (Active(cfg) ==> Enabled(cfg, query.fam))
    requires Answers(outs, plans, bans, query, q, attachments)
    ensures AnswersDeclare(cfg, s, geo, bans, outs, query, q, attachments)
  {
    forall i, x, k: Packet | 0 <= i < |outs| && AsksPoint(query, q, attachments, x) && HoldsPoint(outs[i], query.fam, x)
      ensures At(k, query.fam, x) && x.attachment.managed ==> SaysDeclared(cfg, s, geo, bans, outs[i], k)
    {
      assert RightAt(outs[i], plans, bans, query.fam, x);
      if At(k, query.fam, x) && x.attachment.managed {
        assert Declared(cfg, s, geo, bans, k, PlanVerdict(plans, bans, k));
      }
    }
  }

  /** The configuration declares that the packet is let through. */
  ghost predicate DeclaresPass(cfg: Config, s: Snapshot, geo: Geo, bans: seq<Prefix>, k: Packet) {
    exists v :: Declared(cfg, s, geo, bans, k, v) && v.action.Return?
  }

  ghost predicate DeclaresStop(cfg: Config, s: Snapshot, geo: Geo, bans: seq<Prefix>, k: Packet) {
    exists v :: Declared(cfg, s, geo, bans, k, v) && !v.action.Return?
  }

  ghost predicate PassDeclaredAt(cfg: Config, s: Snapshot, geo: Geo, bans: seq<Prefix>, f: Family, x: Point) {
    forall k: Packet :: At(k, f, x) && x.attachment.managed ==> DeclaresPass(cfg, s, geo, bans, k)
  }

  ghost predicate StopDeclaredAt(cfg: Config, s: Snapshot, geo: Geo, bans: seq<Prefix>, f: Family, x: Point) {
    x.attachment.managed && forall k: Packet :: At(k, f, x) ==> DeclaresStop(cfg, s, geo, bans, k)
  }

  /** The headline is what the configuration declares about the points asked about, taken together. */
  ghost predicate TellsDeclared(v: Overall, cfg: Config, s: Snapshot, geo: Geo, bans: seq<Prefix>, query: Prefix,
                                q: Request,
                                attachments: map<Direction, seq<Attachment>>)
    requires query.Valid()
  {
    && (v.NotBlocked? <==> forall x :: AsksPoint(query, q, attachments, x) ==> PassDeclaredAt(cfg, s, geo, bans, query.fam, x))
    && (v.Blocked? <==> forall x :: AsksPoint(query, q, attachments, x) ==> StopDeclaredAt(cfg, s, geo, bans, query.fam, x))
  }

  lemma HeadlineDeclared(v: Overall, cfg: Config, s: Snapshot, geo: Geo, plans: seq<FamilyPlan>, bans: seq<Prefix>,
                         query: Prefix,
                         q: Request, attachments: map<Direction, seq<Attachment>>)
    requires query.Valid() && PlansStand(cfg, s, geo, plans) && (Active(cfg) ==> Enabled(cfg, query.fam))
    requires Tells(v, plans, bans, query, q, attachments)
    ensures TellsDeclared(v, cfg, s, geo, bans, query, q, attachments)
  {
    forall k: Packet | k.fam == query.fam
      ensures DeclaresPass(cfg, s, geo, bans, k) <==> PlanVerdict(plans, bans, k).action.Return?
      ensures DeclaresStop(cfg, s, geo, bans, k) <==> !PlanVerdict(plans, bans, k).action.Return?
    {
      PlanSays(cfg, s, geo, plans, bans, k);
    }
    forall x
      ensures PassDeclaredAt(cfg, s, geo, bans, query.fam, x) <==> LetsAt(plans, bans, query.fam, x)
      ensures StopDeclaredAt(cfg, s, geo, bans, query.fam, x) <==> StopsAt(plans, bans, query.fam, x)
    {
    }
  }

  lemma PlanSays(cfg: Config, s: Snapshot, geo: Geo, plans: seq<FamilyPlan>, bans: seq<Prefix>, k: Packet)
    requires PlansStand(cfg, s, geo, plans) && (Active(cfg) ==> Enabled(cfg, k.fam))
    ensures DeclaresPass(cfg, s, geo, bans, k) <==> PlanVerdict(plans, bans, k).action.Return?
    ensures DeclaresStop(cfg, s, geo, bans, k) <==> !PlanVerdict(plans, bans, k).action.Return?
  {
    var w := PlanVerdict(plans, bans, k);
    assert Declared(cfg, s, geo, bans, k, w);
    forall v | Declared(cfg, s, geo, bans, k, v)
      ensures v == w
    {
      DeclaredUnique(cfg, s, geo, bans, k, v, w);
    }
  }

  // ---------- The answer and the kernel ----------

  /** What the chains do with the packet is what the outcome says. */
  ghost predicate Meets(o: Outcome, sets: seq<NamedSet>, held: seq<Prefix>, chains: seq<seq<NativeRule>>, k: Native) {
    |chains| == 2 && Enter(sets, held, EntryRules, chains[if k.direction.Ingress? then 0 else 1], k) == Meaning(o.key.action, k)
  }

  lemma FateIsSaid(cfg: Config, s: Snapshot, geo: Geo, bans: seq<Prefix>, o: Outcome, sets: seq<NamedSet>,
                   held: seq<Prefix>,
                   chains: seq<seq<NativeRule>>, original: bool, k: Native)
    requires SaysDeclared(cfg, s, geo, bans, o, Logical(k, original)) && Fated(cfg, s, geo, bans, sets, held, chains, original, k)
    ensures Meets(o, sets, held, chains, k)
  {
    var p := Logical(k, original);
    var v :| Declared(cfg, s, geo, bans, p, v) && o.key.action == v.action && o.key.policy == v.policy;
    var fate := Enter(sets, held, EntryRules, chains[if k.direction.Ingress? then 0 else 1], k);
    var w :| Declared(cfg, s, geo, bans, p, w) && fate == Meaning(w.action, k);
    DeclaredUnique(cfg, s, geo, bans, p, v, w);
  }

  /** Every native packet at a managed point meets the fate that the outcome holding the point names, in
      whatever blocks the kernel holds the bans. */
  ghost predicate Foretold(outs: seq<Outcome>, bans: seq<Prefix>, query: Prefix, q: Request,
                           attachments: map<Direction, seq<Attachment>>,
                           sets: seq<NamedSet>, chains: seq<seq<NativeRule>>, original: bool)
    requires query.Valid()
  {
    forall i, x, held, k: Native :: 0 <= i < |outs| && AsksPoint(query, q, attachments, x) && HoldsPoint(outs[i], query.fam, x) ==>
      (At(Logical(k, original), query.fam, x) && x.attachment.managed && SameAddressesIn(bans, held, query.fam) ==>
         Meets(outs[i], sets, held, chains, k))
  }

  lemma AnswersForetell(cfg: Config, s: Snapshot, geo: Geo, bans: seq<Prefix>, outs: seq<Outcome>, query: Prefix,
                        q: Request,
                        attachments: map<Direction, seq<Attachment>>, sets: seq<NamedSet>, chains: seq<seq<NativeRule>>, original: bool)
    requires query.Valid() && AnswersDeclare(cfg, s, geo, bans, outs, query, q, attachments)
    requires Enforces(cfg, s, geo, sets, chains, original, query.fam)
    ensures Foretold(outs, bans, query, q, attachments, sets, chains, original)
  {
    forall i, x, held, k: Native | 0 <= i < |outs| && AsksPoint(query, q, attachments, x) && HoldsPoint(outs[i], query.fam, x)
      && At(Logical(k, original), query.fam, x) && x.attachment.managed && SameAddressesIn(bans, held, query.fam)
      ensures Meets(outs[i], sets, held, chains, k)
    {
      assert k.fam == query.fam;
      FateIsSaid(cfg, s, geo, bans, outs[i], sets, held, chains, original, k);
    }
  }

  // ---------- From the configuration to the answer ----------

  /** A complete answer about an enabled family holds each point asked about exactly once, says there what
      the configuration declares, and foretells the fate of every packet in both backends.  An answer fails
      for want of room only if the cells or the records are too many. */
  method Predict(cfg: Config, s: Snapshot, geo: Geo, hash: (Family, seq<Prefix>) -> nat, original: bool,
                 records: seq<Prefix>,
                 attachments: map<Direction, seq<Attachment>>, ev: Evidence, query: Prefix, q: Request, now: int, explain: Explain)
    returns (lowered: Option<seq<Lowered>>, view: Option<Static>, r: Response, ghost job: Job)
    requires SnapshotValid(s) && GeoByFamily(geo) && PortsValid(cfg.policies) && AllManaged(attachments)
    requires (forall i :: 0 <= i < |records| ==> records[i].Valid()) && query.Valid() && q.Normalized()
    ensures lowered.Some? <==> Compilable(cfg, s)
    ensures view.Some? <==> lowered.Some?
    ensures view.Some? ==> view.value.Ready() && view.value.Indexed()
    ensures lowered.Some? && r.Complete? ==> Answers(r.outcomes, PlansOf(lowered.value), LivePrefixes(ev.prefixes, now), query, q, attachments)
    ensures lowered.Some? && r.Complete? && (Active(cfg) ==> Enabled(cfg, query.fam)) ==>
              AnswersDeclare(cfg, s, geo, LivePrefixes(ev.prefixes, now), r.outcomes, query, q, attachments)
    ensures lowered.Some? && r.Complete? && (Active(cfg) ==> Enabled(cfg, query.fam)) ==>
              TellsDeclared(r.verdict, cfg, s, geo, LivePrefixes(ev.prefixes, now), query, q, attachments)
    ensures lowered.Some? && r.Complete? ==> forall i :: 0 <= i < |lowered.value| && lowered.value[i].plan.fam == query.fam ==>
              BothForetold(r.outcomes, LivePrefixes(ev.prefixes, now), query, q, attachments, lowered.value[i], original)
    ensures lowered.Some? && r == Response.Unknown(LimitExceeded) ==>
              view.value.Usable(ev, now) &&
              (!view.value.WithinLimits(query, ev) || view.value.Cost(job, view.value.CellTasks(job, job.cells)) > Partition.MAX_RECORDS)
  {
    job := Job(query.fam, q, ev, now, explain, [], [], [], []);
    view, r := None, Response.Unknown(Unavailable);
    lowered := CompileAndLower(cfg, s, geo, hash, original);
    if lowered.None? {
      return;
    }
    PlansAreReady(cfg, s, geo, PlansOf(lowered.value));
    var static_ := new Static(PlansOf(lowered.value), records, cfg.crowdsec, attachments);
    static_.BuildIndexes();
    r, job := static_.Evaluate(ev, query, q, now, explain);
    view := Some(static_);
    OnlyLimits(cfg, s, geo, static_, job);
    if r.Complete? && (Active(cfg) ==> Enabled(cfg, query.fam)) {
      HeadlineDeclared(r.verdict, cfg, s, geo, PlansOf(lowered.value), LivePrefixes(ev.prefixes, now), query, q, attachments);
    }
    if r.Complete? {
      Foretell(cfg, s, geo, original, lowered.value, LivePrefixes(ev.prefixes, now), r.outcomes, query, q, attachments);
    }
  }

  ghost predicate BothForetold(outs: seq<Outcome>, bans: seq<Prefix>, query: Prefix, q: Request,
                               attachments: map<Direction, seq<Attachment>>,
                               x: Lowered, original: bool)
    requires query.Valid()
  {
    && Foretold(outs, bans, query, q, attachments, x.plan.sets, x.nft, false)
    && Foretold(outs, bans, query, q, attachments, x.native, x.ipt, original)
  }

  lemma OnlyLimits(cfg: Config, s: Snapshot, geo: Geo, view: Static, job: Job)
    requires FamiliesStand(cfg, s, geo, view.families)
    ensures forall ts :: view.Barred(job, ts, LimitExceeded) ==> view.Cost(job, ts) > Partition.MAX_RECORDS
  {
    forall t
      ensures view.Due(job, t).Some?
    {
      CompiledDue(cfg, s, geo, view.families, LivePrefixes(job.ev.prefixes, job.now), job.explain, t);
    }
  }

  lemma Foretell(cfg: Config, s: Snapshot, geo: Geo, original: bool, lowered: seq<Lowered>, bans: seq<Prefix>,
                 outs: seq<Outcome>,
                 query: Prefix, q: Request, attachments: map<Direction, seq<Attachment>>)
    requires query.Valid() && Answers(outs, PlansOf(lowered), bans, query, q, attachments)
    requires PlansStand(cfg, s, geo, PlansOf(lowered)) && forall f :: CoversFamily(lowered, f) <==> Active(cfg) && Enabled(cfg, f)
    requires forall i :: 0 <= i < |lowered| ==> BothEnforce(cfg, s, geo, original, lowered[i])
    ensures (Active(cfg) ==> Enabled(cfg, query.fam)) ==> AnswersDeclare(cfg, s, geo, bans, outs, query, q, attachments)
    ensures forall i :: 0 <= i < |lowered| && lowered[i].plan.fam == query.fam ==>
              BothForetold(outs, bans, query, q, attachments, lowered[i], original)
  {
    if Active(cfg) ==> Enabled(cfg, query.fam) {
      AnswersAreDeclared(cfg, s, geo, PlansOf(lowered), bans, outs, query, q, attachments);
    }
    forall i | 0 <= i < |lowered| && lowered[i].plan.fam == query.fam
      ensures BothForetold(outs, bans, query, q, attachments, lowered[i], original)
    {
      assert CoversFamily(lowered, query.fam);
      AnswersForetell(cfg, s, geo, bans, outs, query, q, attachments, lowered[i].plan.sets, lowered[i].nft, false);
      AnswersForetell(cfg, s, geo, bans, outs, query, q, attachments, lowered[i].native, lowered[i].ipt, original);
    }
  }
}
