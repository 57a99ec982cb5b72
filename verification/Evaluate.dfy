/** Answers for a whole queried prefix (internal/lookup/evaluate.go).

    The query is split into address cells and traffic cells; one representative of each
    pair is evaluated and answers for all of it.  `Evaluate` proves that every address,
    direction, protocol, port and attachment asked about lies in exactly one outcome of a
    complete answer, whose action is the first match of the compiled path there.
 */
module Evaluate {
  import opened Address
  import opened Basics
  import opened Sorting
  import opened PrefixSet
  import opened Policy
  import opened Projection
  import opened Partition
  import opened Ports

  // ---------- Data ----------

  /** Where a chain is attached; `original` asks for the port before translation. */
  datatype Attachment = Attachment(name: string, managed: bool, original: bool, inputs: seq<string>, outputs: seq<string>)

  const Unattached := Attachment("", false, false, [], [])

  datatype Why = NoAttachment | OtherFamily | NoPath

  /** Why a verdict holds; the texts and the evidence are opaque here. */
  datatype Account = NotManaged(why: Why) | Explained(text: string, evidence: seq<string>)

  type Explain = (Rule, Prefix) -> Account

  /** Everything an outcome says but its addresses. */
  datatype Key = Key(direction: Direction, traffic: TrafficCell, attachment: Attachment, action: Action, policy: string, account: Account)

  datatype Outcome = Outcome(prefix: Prefix, key: Key)

  /** Acknowledged bans; `validUntil` ends the view as a whole. */
  datatype Evidence = Evidence(prefixes: seq<TimedPrefix>, decisions: seq<Decision>, validUntil: Option<int>)

  datatype Overall = Blocked | NotBlocked | Mixed

  /** Why a request goes unanswered. */
  datatype Trouble = Unavailable | LimitExceeded

  datatype Response = Unknown(why: Trouble) | Complete(outcomes: seq<Outcome>, verdict: Overall)

  // ---------- Compiled plans ----------

  function PlanOf(plans: seq<FamilyPlan>, f: Family): Option<FamilyPlan> {
    if plans == [] then None else if plans[0].fam == f then Some(plans[0]) else PlanOf(plans[1..], f)
  }

  function PathOf(paths: seq<Path>, d: Direction): Option<Path> {
    if paths == [] then None else if paths[0].direction == d then Some(paths[0]) else PathOf(paths[1..], d)
  }

  lemma {:induction false} PathDecides(sets: seq<NamedSet>, bans: seq<Prefix>, paths: seq<Path>, k: Packet)
    ensures PathsVerdict(sets, bans, paths, k) ==
            match PathOf(paths, k.direction) { case None => Pass case Some(path) => PathVerdict(sets, bans, path, k) }
    decreases |paths|
  {
    if paths != [] {
      PathDecides(sets, bans, paths[1..], k);
    }
  }

  lemma {:induction false} PlanDecides(plans: seq<FamilyPlan>, bans: seq<Prefix>, k: Packet)
    ensures PlanVerdict(plans, bans, k) ==
            match PlanOf(plans, k.fam) { case None => Pass case Some(plan) => PathsVerdict(plan.sets, bans, plan.paths, k) }
    decreases |plans|
  {
    if plans != [] {
      PlanDecides(plans[1..], bans, k);
    }
  }

  /** Static sets are canonical, the bans are the one dynamic set, and ports are 16 bit. */
  ghost predicate SetReady(x: NamedSet, f: Family) {
    (x.kind.DynamicCrowdSecSet? <==> x.id.Banned?) && Canonical(x.prefixes) && AllOf(x.prefixes, f)
  }

  ghost predicate RuleReady(r: Rule, sets: seq<NamedSet>) {
    && (r.guard.setID.Banned? ==> Find(sets, Banned).Some?)
    && (forall x :: x in r.guard.traffic.tcp ==> Fits16(x)) && (forall x :: x in r.guard.traffic.udp ==> Fits16(x))
  }

  ghost predicate PathReady(p: Path, sets: seq<NamedSet>) {
    p.remote == RemoteFor(p.direction) && forall i :: 0 <= i < |p.rules| ==> RuleReady(p.rules[i], sets)
  }

  ghost predicate PlanReady(plan: FamilyPlan) {
    && UniqueIDs(plan.sets) && (forall i :: 0 <= i < |plan.sets| ==> SetReady(plan.sets[i], plan.fam))
    && forall i :: 0 <= i < |plan.paths| ==> PathReady(plan.paths[i], plan.sets)
  }

  // ---------- Bans in force ----------

  function LivePrefixes(ts: seq<TimedPrefix>, now: int): seq<Prefix> {
    if ts == [] then [] else (if ts[0].deadline > now then [ts[0].prefix] else []) + LivePrefixes(ts[1..], now)
  }

  predicate LiveAt(ts: seq<TimedPrefix>, now: int, f: Family, a: nat) {
    exists i :: 0 <= i < |ts| && ts[i].deadline > now && ts[i].prefix.Valid() && ts[i].prefix.Has(f, a)
  }

  lemma {:induction false} LiveIs(ts: seq<TimedPrefix>, now: int)
    ensures forall p :: p in LivePrefixes(ts, now) <==> exists i :: 0 <= i < |ts| && ts[i].deadline > now && ts[i].prefix == p
    decreases |ts|
  {
    if ts != [] {
      LiveIs(ts[1..], now);
      forall p
        ensures p in LivePrefixes(ts, now) <==> exists i :: 0 <= i < |ts| && ts[i].deadline > now && ts[i].prefix == p
      {
        if i :| 0 <= i < |ts| && ts[i].deadline > now && ts[i].prefix == p {
          assert i > 0 ==> ts[1..][i - 1] == ts[i];
        }
        if i :| 0 <= i < |ts[1..]| && ts[1..][i].deadline > now && ts[1..][i].prefix == p {
          assert ts[i + 1] == ts[1..][i];
        }
      }
    }
  }

  lemma LiveCovers(ts: seq<TimedPrefix>, now: int, f: Family, a: nat)
    ensures LiveAt(ts, now, f, a) <==> Covered(LivePrefixes(ts, now), f, a)
  {
    LiveIs(ts, now);
    var live := LivePrefixes(ts, now);
    if LiveAt(ts, now, f, a) {
      var i :| 0 <= i < |ts| && ts[i].deadline > now && ts[i].prefix.Valid() && ts[i].prefix.Has(f, a);
      assert ts[i].prefix in live;
    }
    if Covered(live, f, a) {
      var j :| 0 <= j < |live| && live[j].Valid() && live[j].Has(f, a);
      assert live[j] in live;
    }
  }

  lemma LiveConstant(ts: seq<TimedPrefix>, now: int, cell: Prefix)
    requires ConstantOn(Prefixes(ts), cell)
    ensures ConstantOn(LivePrefixes(ts, now), cell)
  {
    LiveIs(ts, now);
    var live, all := LivePrefixes(ts, now), Prefixes(ts);
    forall j | 0 <= j < |live| && live[j].Valid()
      ensures Constant(live[j], cell)
    {
      assert live[j] in live;
      var i :| 0 <= i < |ts| && ts[i].deadline > now && ts[i].prefix == live[j];
      assert all[i] == live[j];
    }
  }

  // ---------- One representative answers for its cell ----------

  /** A new packet whose remote address and traffic lie in the cell. */
  ghost predicate InBox(k: Packet, cell: Prefix, d: Direction, t: TrafficCell)
    requires cell.Valid()
  {
    && k.fam == cell.fam && k.direction == d && k.conntrack.New?
    && cell.Has(cell.fam, RemoteOf(RemoteFor(d), k)) && HoldsTraffic(t, k.protocol, k.port)
  }

  /** The packet that is evaluated for a cell. */
  function Representative(cell: Prefix, d: Direction, t: TrafficCell): Packet {
    Packet(cell.fam, d, cell.addr, cell.addr, t.protocol, if t.ports.Some? then t.ports.value.start else 0, New)
  }

  /** All prefixes of the plan's static sets. */
  ghost predicate Bounded(plan: FamilyPlan, cell: Prefix) {
    forall i :: 0 <= i < |plan.sets| ==> ConstantOn(plan.sets[i].prefixes, cell)
  }

  /** All port ranges of the plan's rules. */
  ghost predicate RangesIn(plan: FamilyPlan, tcp: seq<PortRange>, udp: seq<PortRange>) {
    forall i :: 0 <= i < |plan.paths| ==> PathRangesIn(plan.paths[i], tcp, udp)
  }

  ghost predicate PathRangesIn(p: Path, tcp: seq<PortRange>, udp: seq<PortRange>) {
    forall j :: 0 <= j < |p.rules| ==> RuleRangesIn(p.rules[j], tcp, udp)
  }

  ghost predicate RuleRangesIn(r: Rule, tcp: seq<PortRange>, udp: seq<PortRange>) {
    r.guard.traffic.any ||
    ((forall x :: x in r.guard.traffic.tcp ==> x in tcp) && forall x :: x in r.guard.traffic.udp ==> x in udp)
  }

  lemma MemberConstant(plan: FamilyPlan, bans: seq<Prefix>, id: SetID, cell: Prefix, a: nat)
    requires Bounded(plan, cell) && ConstantOn(bans, cell) && cell.Has(cell.fam, a)
    ensures Member(plan.sets, bans, id, cell.fam, a) <==> Member(plan.sets, bans, id, cell.fam, cell.addr)
  {
    if Find(plan.sets, id).Some? {
      var x := Find(plan.sets, id).value;
      var i :| 0 <= i < |plan.sets| && plan.sets[i] == x;
      ConstantAnswers(x.prefixes, cell, a);
      ConstantAnswers(bans, cell, a);
    }
  }

  lemma MatchConstant(plan: FamilyPlan, bans: seq<Prefix>, r: Rule, cell: Prefix, d: Direction, t: TrafficCell,
                      tcp: seq<PortRange>, udp: seq<PortRange>, k: Packet)
    requires Bounded(plan, cell) && ConstantOn(bans, cell) && InBox(k, cell, d, t)
    requires TrafficConstant(t, tcp, udp) && RuleRangesIn(r, tcp, udp)
    ensures Matches(plan.sets, bans, RemoteFor(d), r.guard, k) <==>
            Matches(plan.sets, bans, RemoteFor(d), r.guard, Representative(cell, d, t))
  {
    var rep := Representative(cell, d, t);
    EndInFamily(cell);
    ScopeAnswers(r.guard.traffic, t, tcp, udp, k);
    ScopeAnswers(r.guard.traffic, t, tcp, udp, rep);
    MemberConstant(plan, bans, r.guard.setID, cell, RemoteOf(RemoteFor(d), k));
  }

  /** The first match is the same rule all over the cell. */
  lemma {:induction false} FirstMatchConstant(plan: FamilyPlan, bans: seq<Prefix>, rules: seq<Rule>, cell: Prefix,
                                              d: Direction, t: TrafficCell,
                                              tcp: seq<PortRange>, udp: seq<PortRange>, k: Packet)
    requires Bounded(plan, cell) && ConstantOn(bans, cell) && InBox(k, cell, d, t)
    requires TrafficConstant(t, tcp, udp) && forall j :: 0 <= j < |rules| ==> RuleRangesIn(rules[j], tcp, udp)
    ensures FirstMatch(plan.sets, bans, RemoteFor(d), rules, k) == FirstMatch(plan.sets, bans, RemoteFor(d), rules, Representative(cell, d, t))
    decreases |rules|
  {
    if rules != [] {
      MatchConstant(plan, bans, rules[0], cell, d, t, tcp, udp, k);
      FirstMatchConstant(plan, bans, rules[1..], cell, d, t, tcp, udp, k);
    }
  }

  // ---------- What each cell should get ----------

  /** One address cell, one traffic cell, one attachment. */
  datatype Task = Task(cell: Prefix, direction: Direction, traffic: TrafficCell, attachment: Attachment)

  function Unmanaged(t: Task, why: Why): Outcome {
    Outcome(t.cell, Key(t.direction, t.traffic, t.attachment.(managed := false), Return, "", NotManaged(why)))
  }

  function Ruled(t: Task, r: Rule, explain: Explain): Outcome {
    Outcome(t.cell, Key(t.direction, t.traffic, t.attachment, r.action, r.policy, explain(r, t.cell)))
  }

  function Size(account: Account): nat {
    if account.Explained? then |account.evidence| else 0
  }

  /** No rule decides it, or its evidence passes the limit. */
  ghost predicate Unanswered(e: Option<Outcome>, limit: int) {
    e.None? || Size(e.value.key.account) > limit
  }

  ghost function PathExpected(plan: FamilyPlan, path: Path, bans: seq<Prefix>, explain: Explain,
                              t: Task): Option<Outcome> {
    match FirstMatch(plan.sets, bans, path.remote, path.rules, Representative(t.cell, t.direction, t.traffic))
    case None => None
    case Some(r) => Some(Ruled(t, r, explain))
  }

  ghost function PlanExpected(plan: FamilyPlan, bans: seq<Prefix>, explain: Explain, t: Task): Option<Outcome> {
    match PathOf(plan.paths, t.direction)
    case None => Some(Unmanaged(t, NoPath))
    case Some(path) => PathExpected(plan, path, bans, explain, t)
  }

  /** The outcome of a task, read off the first match at the representative. */
  ghost function Expected(plans: seq<FamilyPlan>, bans: seq<Prefix>, explain: Explain, t: Task): Option<Outcome> {
    if !t.attachment.managed then Some(Unmanaged(t, NoAttachment))
    else
      match PlanOf(plans, t.cell.fam)
      case None => Some(Unmanaged(t, OtherFamily))
      case Some(plan) => PlanExpected(plan, bans, explain, t)
  }

  lemma {:induction false} PathOfIs(paths: seq<Path>, d: Direction)
    ensures PathOf(paths, d).Some? ==> PathOf(paths, d).value in paths && PathOf(paths, d).value.direction == d
    decreases |paths|
  {
    if paths != [] {
      PathOfIs(paths[1..], d);
    }
  }

  lemma {:induction false} PlanOfIs(plans: seq<FamilyPlan>, f: Family)
    ensures PlanOf(plans, f).Some? ==> PlanOf(plans, f).value in plans && PlanOf(plans, f).value.fam == f
    ensures PlanOf(plans, f).None? ==> forall p :: p in plans ==> p.fam != f
    decreases |plans|
  {
    if plans != [] {
      PlanOfIs(plans[1..], f);
    }
  }

  /** The cell is fit to be answered by its representative. */
  ghost predicate Fit(plans: seq<FamilyPlan>, bans: seq<Prefix>, t: Task, tcp: seq<PortRange>, udp: seq<PortRange>) {
    && t.cell.Valid() && ConstantOn(bans, t.cell) && TrafficConstant(t.traffic, tcp, udp)
    && match PlanOf(plans, t.cell.fam) {
         case None => true
         case Some(plan) => PlanReady(plan) && Bounded(plan, t.cell) && RangesIn(plan, tcp, udp)
       }
  }

  /** The outcome of a task is right for every packet of its cell. */
  lemma ExpectedRight(plans: seq<FamilyPlan>, bans: seq<Prefix>, explain: Explain, t: Task, tcp: seq<PortRange>,
                      udp: seq<PortRange>, k: Packet)
    requires Fit(plans, bans, t, tcp, udp) && InBox(k, t.cell, t.direction, t.traffic) && t.attachment.managed
    ensures match Expected(plans, bans, explain, t) {
              case None => true
              case Some(o) => o.key.action == PlanVerdict(plans, bans, k).action && o.key.policy == PlanVerdict(plans, bans, k).policy
            }
  {
    PlanDecides(plans, bans, k);
    if PlanOf(plans, t.cell.fam).Some? {
      var plan := PlanOf(plans, t.cell.fam).value;
      PathDecides(plan.sets, bans, plan.paths, k);
      PathOfIs(plan.paths, t.direction);
      if PathOf(plan.paths, t.direction).Some? {
        var path := PathOf(plan.paths, t.direction).value;
        var i :| 0 <= i < |plan.paths| && plan.paths[i] == path;
        assert PathReady(path, plan.sets) && PathRangesIn(path, tcp, udp);
        FirstMatchConstant(plan, bans, path.rules, t.cell, t.direction, t.traffic, tcp, udp, k);
      }
    }
  }

  // ---------- Evaluating one task ----------

  type SetIndex = map<SetID, seq<Prefix>>

  function Entries(index: SetIndex, id: SetID): seq<Prefix> {
    if id in index then index[id] else []
  }

  ghost predicate IndexFor(index: SetIndex, plan: FamilyPlan) {
    forall id :: Entries(index, id) == if Find(plan.sets, id).Some? then Find(plan.sets, id).value.prefixes else []
  }

  lemma EntriesReady(index: SetIndex, plan: FamilyPlan, id: SetID)
    requires IndexFor(index, plan) && PlanReady(plan)
    ensures Canonical(Entries(index, id)) && AllOf(Entries(index, id), plan.fam)
  {
    if Find(plan.sets, id).Some? {
      var x := Find(plan.sets, id).value;
      var i :| 0 <= i < |plan.sets| && plan.sets[i] == x;
      assert SetReady(plan.sets[i], plan.fam);
    }
  }

  /** Tests a rule at the first address of the cell. */
  function RuleMatches(index: SetIndex, ghost plan: FamilyPlan, ts: seq<TimedPrefix>, now: int, r: Rule,
                       t: Task): (m: bool)
    requires IndexFor(index, plan) && PlanReady(plan) && t.cell.fam == plan.fam && RuleReady(r, plan.sets) && t.cell.Valid()
    requires t.traffic.ports.Some? ==> t.traffic.ports.value.start <= t.traffic.ports.value.end < PORTS
  {
    ScopeMatches(r.guard.traffic, t.traffic) &&
    (r.guard.setID.NoSet? ||
     (if r.guard.setID.Banned? then LiveAt(ts, now, t.cell.fam, t.cell.addr)
      else
        EntriesReady(index, plan, r.guard.setID);
        ContainsSorted(Entries(index, r.guard.setID), t.cell.fam, t.cell.addr)) != r.guard.negate)
  }

  lemma RuleMatchesRight(index: SetIndex, plan: FamilyPlan, ts: seq<TimedPrefix>, now: int, r: Rule, t: Task,
                         tcp: seq<PortRange>, udp: seq<PortRange>)
    requires IndexFor(index, plan) && PlanReady(plan) && t.cell.fam == plan.fam && RuleReady(r, plan.sets) && t.cell.Valid()
    requires TrafficConstant(t.traffic, tcp, udp) && RuleRangesIn(r, tcp, udp)
    ensures Matches(plan.sets, LivePrefixes(ts, now), RemoteFor(t.direction), r.guard, Representative(t.cell, t.direction, t.traffic)) <==>
            r.guard.flow.AnyFlow? && RuleMatches(index, plan, ts, now, r, t)
  {
    var rep := Representative(t.cell, t.direction, t.traffic);
    var id := r.guard.setID;
    ScopeAnswers(r.guard.traffic, t.traffic, tcp, udp, rep);
    LiveCovers(ts, now, t.cell.fam, t.cell.addr);
    EntriesReady(index, plan, id);
    if Find(plan.sets, id).Some? {
      var x := Find(plan.sets, id).value;
      var i :| 0 <= i < |plan.sets| && plan.sets[i] == x;
      assert SetReady(plan.sets[i], plan.fam);
    }
  }

  /** The first rule of the path that matches at the representative. */
  method EvaluatePath(index: SetIndex, plan: FamilyPlan, path: Path, ts: seq<TimedPrefix>, now: int, explain: Explain,
                      t: Task, limit: int,
                      ghost tcp: seq<PortRange>, ghost udp: seq<PortRange>)
    returns (o: Option<Outcome>)
    requires IndexFor(index, plan) && PlanReady(plan) && t.cell.fam == plan.fam && t.cell.Valid() && TrafficConstant(t.traffic, tcp, udp)
    requires PathReady(path, plan.sets) && path.direction == t.direction && PathRangesIn(path, tcp, udp)
    ensures o.Some? ==> o == PathExpected(plan, path, LivePrefixes(ts, now), explain, t)
    ensures o.None? ==> Unanswered(PathExpected(plan, path, LivePrefixes(ts, now), explain, t), limit)
  {
    ghost var bans, rep := LivePrefixes(ts, now), Representative(t.cell, t.direction, t.traffic);
    for i := 0 to |path.rules|
      invariant FirstMatch(plan.sets, bans, path.remote, path.rules, rep) == FirstMatch(plan.sets, bans, path.remote, path.rules[i..], rep)
    {
      var r := path.rules[i];
      assert path.rules[i..][1..] == path.rules[i + 1..];
      assert RuleReady(r, plan.sets) && RuleRangesIn(r, tcp, udp);
      RuleMatchesRight(index, plan, ts, now, r, t, tcp, udp);
      if r.guard.flow.AnyFlow? && RuleMatches(index, plan, ts, now, r, t) {
        var account := explain(r, t.cell);
        if account.Explained? && |account.evidence| > limit {
          return None;
        }
        return Some(Ruled(t, r, explain));
      }
    }
    return None;
  }

  method EvaluateScope(index: SetIndex, plan: FamilyPlan, ts: seq<TimedPrefix>, now: int, explain: Explain, t: Task,
                       limit: int,
                       ghost tcp: seq<PortRange>, ghost udp: seq<PortRange>)
    returns (o: Option<Outcome>)
    requires IndexFor(index, plan) && PlanReady(plan) && t.cell.fam == plan.fam && t.cell.Valid() && TrafficConstant(t.traffic, tcp, udp)
    requires RangesIn(plan, tcp, udp)
    ensures o.Some? ==> o == PlanExpected(plan, LivePrefixes(ts, now), explain, t)
    ensures o.None? ==> Unanswered(PlanExpected(plan, LivePrefixes(ts, now), explain, t), limit)
  {
    PathOfIs(plan.paths, t.direction);
    var path := PathOf(plan.paths, t.direction);
    if path.None? {
      return Some(Unmanaged(t, NoPath));
    }
    ghost var i :| 0 <= i < |plan.paths| && plan.paths[i] == path.value;
    o := EvaluatePath(index, plan, path.value, ts, now, explain, t, limit, tcp, udp);
  }

  // ---------- Joining outcomes that say the same ----------

  ghost predicate AllCells(outs: seq<Outcome>) {
    forall i :: 0 <= i < |outs| ==> outs[i].prefix.Valid()
  }

  /** Some outcome says `key` about the address. */
  ghost predicate Says(outs: seq<Outcome>, key: Key, f: Family, a: nat) {
    exists i :: 0 <= i < |outs| && outs[i].key == key && outs[i].prefix.Valid() && outs[i].prefix.Has(f, a)
  }

  /** No two outcomes say the same about one address. */
  ghost predicate NoRepeats(outs: seq<Outcome>) {
    AllCells(outs) && forall i, j :: 0 <= i < j < |outs| && outs[i].key == outs[j].key ==> outs[i].prefix.Disjoint(outs[j].prefix)
  }

  /** No two outcomes that say the same could be joined into one. */
  ghost predicate Joined(outs: seq<Outcome>) {
    forall i, j :: 0 <= i < j < |outs| && outs[i].key == outs[j].key ==> !Siblings(outs[i].prefix, outs[j].prefix)
  }

  datatype Group = Group(key: Key, prefixes: seq<Prefix>)

  ghost predicate Grouped(groups: seq<Group>) {
    && (forall i, j :: 0 <= i < j < |groups| ==> groups[i].key != groups[j].key)
    && (forall i, j :: 0 <= i < |groups| && 0 <= j < |groups[i].prefixes| ==> groups[i].prefixes[j].Valid())
  }

  ghost predicate GroupSays(groups: seq<Group>, key: Key, f: Family, a: nat) {
    exists i :: 0 <= i < |groups| && groups[i].key == key && Covered(groups[i].prefixes, f, a)
  }

  ghost predicate SameSayings(outs: seq<Outcome>, groups: seq<Group>) {
    forall key, f, a :: Says(outs, key, f, a) <==> GroupSays(groups, key, f, a)
  }

  lemma SaysSnoc(outs: seq<Outcome>, o: Outcome, key: Key, f: Family, a: nat)
    requires o.prefix.Valid()
    ensures Says(outs + [o], key, f, a) <==> Says(outs, key, f, a) || (o.key == key && o.prefix.Has(f, a))
  {
    var all := outs + [o];
    assert all[|outs|] == o;
    assert forall i :: 0 <= i < |outs| ==> all[i] == outs[i];
  }

  lemma NewGroup(outs: seq<Outcome>, groups: seq<Group>, o: Outcome)
    requires Grouped(groups) && SameSayings(outs, groups) && o.prefix.Valid()
    requires forall i :: 0 <= i < |groups| ==> groups[i].key != o.key
    ensures Grouped(groups + [Group(o.key, [o.prefix])]) && SameSayings(outs + [o], groups + [Group(o.key, [o.prefix])])
  {
    var g := Group(o.key, [o.prefix]);
    var all := groups + [g];
    assert all[|groups|] == g;
    assert forall i :: 0 <= i < |groups| ==> all[i] == groups[i];
    forall key, f, a
      ensures Says(outs + [o], key, f, a) <==> GroupSays(all, key, f, a)
    {
      SaysSnoc(outs, o, key, f, a);
      CoveredSnoc([], o.prefix, f, a);
      assert [] + [o.prefix] == [o.prefix];
    }
  }

  lemma MoreInGroup(outs: seq<Outcome>, groups: seq<Group>, o: Outcome, n: nat)
    requires Grouped(groups) && SameSayings(outs, groups) && o.prefix.Valid() && n < |groups| && groups[n].key == o.key
    ensures var all := groups[n := Group(o.key, groups[n].prefixes + [o.prefix])]; Grouped(all) && SameSayings(outs + [o], all)
  {
    var all := groups[n := Group(o.key, groups[n].prefixes + [o.prefix])];
    assert forall i :: 0 <= i < |groups| ==> all[i].key == groups[i].key;
    forall key, f, a
      ensures Says(outs + [o], key, f, a) <==> GroupSays(all, key, f, a)
    {
      SaysSnoc(outs, o, key, f, a);
      CoveredSnoc(groups[n].prefixes, o.prefix, f, a);
      if GroupSays(groups, key, f, a) {
        var i :| 0 <= i < |groups| && groups[i].key == key && Covered(groups[i].prefixes, f, a);
        assert all[i].key == key && Covered(all[i].prefixes, f, a);
      }
      if GroupSays(all, key, f, a) {
        var i :| 0 <= i < |all| && all[i].key == key && Covered(all[i].prefixes, f, a);
        assert i != n ==> Covered(groups[i].prefixes, f, a);
      }
    }
  }

  method FindGroup(groups: seq<Group>, key: Key) returns (found: int)
    ensures found < 0 ==> forall i :: 0 <= i < |groups| ==> groups[i].key != key
    ensures found >= 0 ==> found < |groups| && groups[found].key == key
  {
    for i := 0 to |groups|
      invariant forall k :: 0 <= k < i ==> groups[k].key != key
    {
      if groups[i].key == key {
        return i;
      }
    }
    return -1;
  }

  method GroupOutcomes(outs: seq<Outcome>) returns (groups: seq<Group>)
    requires AllCells(outs)
    ensures Grouped(groups) && SameSayings(outs, groups)
  {
    groups := [];
    for n := 0 to |outs|
      invariant Grouped(groups) && SameSayings(outs[..n], groups)
    {
      assert outs[..n + 1] == outs[..n] + [outs[n]];
      var found := FindGroup(groups, outs[n].key);
      if found < 0 {
        NewGroup(outs[..n], groups, outs[n]);
        groups := groups + [Group(outs[n].key, [outs[n].prefix])];
      } else {
        MoreInGroup(outs[..n], groups, outs[n], found);
        groups := groups[found := Group(outs[n].key, groups[found].prefixes + [outs[n].prefix])];
      }
    }
    assert outs[..|outs|] == outs;
  }

  function Spread(key: Key, prefixes: seq<Prefix>): (r: seq<Outcome>)
    ensures |r| == |prefixes| && forall i :: 0 <= i < |r| ==> r[i] == Outcome(prefixes[i], key)
  {
    seq(|prefixes|, i requires 0 <= i < |prefixes| => Outcome(prefixes[i], key))
  }

  ghost predicate HasKey(groups: seq<Group>, key: Key) {
    exists j :: 0 <= j < |groups| && groups[j].key == key
  }

  ghost predicate KeysFrom(outs: seq<Outcome>, groups: seq<Group>) {
    forall i :: 0 <= i < |outs| ==> HasKey(groups, outs[i].key)
  }

  lemma SpreadKeeps(outs: seq<Outcome>, groups: seq<Group>, g: Group, merged: seq<Prefix>)
    requires NoRepeats(outs) && SameSayings(outs, groups) && KeysFrom(outs, groups)
    requires forall i :: 0 <= i < |groups| ==> groups[i].key != g.key
    requires Canonical(merged) && SameAddresses(merged, g.prefixes)
    ensures NoRepeats(outs + Spread(g.key, merged)) && KeysFrom(outs + Spread(g.key, merged), groups + [g])
    ensures SameSayings(outs + Spread(g.key, merged), groups + [g])
  {
    var more, all := outs + Spread(g.key, merged), groups + [g];
    assert all[|groups|] == g;
    assert forall i :: 0 <= i < |outs| ==> more[i] == outs[i];
    assert forall i :: 0 <= i < |merged| ==> more[|outs| + i] == Outcome(merged[i], g.key);
    forall i | 0 <= i < |outs|
      ensures outs[i].key != g.key
    {
      assert HasKey(groups, outs[i].key);
    }
    forall i, j | 0 <= i < j < |more| && more[i].key == more[j].key
      ensures more[i].prefix.Valid() && more[j].prefix.Valid() && more[i].prefix.Disjoint(more[j].prefix)
    {
      if |outs| <= i {
        assert Before(merged[i - |outs|], merged[j - |outs|]);
      }
    }
    forall i | 0 <= i < |more|
      ensures more[i].prefix.Valid()
      ensures HasKey(all, more[i].key)
    {
      if i < |outs| {
        assert HasKey(groups, outs[i].key);
        var x :| 0 <= x < |groups| && groups[x].key == outs[i].key;
        assert all[x].key == more[i].key;
      } else {
        assert more[i].prefix == merged[i - |outs|];
        assert all[|groups|].key == more[i].key;
      }
    }
    forall key, f, a
      ensures Says(more, key, f, a) <==> GroupSays(all, key, f, a)
    {
      SpreadSays(outs, groups, g, merged, key, f, a);
    }
  }

  lemma SpreadJoined(outs: seq<Outcome>, groups: seq<Group>, g: Group, merged: seq<Prefix>)
    requires Joined(outs) && KeysFrom(outs, groups) && Merged(merged)
    requires forall i :: 0 <= i < |groups| ==> groups[i].key != g.key
    ensures Joined(outs + Spread(g.key, merged))
  {
    var more := outs + Spread(g.key, merged);
    forall i | 0 <= i < |outs|
      ensures more[i] == outs[i] && outs[i].key != g.key
    {
      assert HasKey(groups, outs[i].key);
    }
    assert forall i :: 0 <= i < |merged| ==> more[|outs| + i] == Outcome(merged[i], g.key);
    forall i, j | 0 <= i < j < |more| && more[i].key == more[j].key
      ensures !Siblings(more[i].prefix, more[j].prefix)
    {
      if i >= |outs| {
        assert !Siblings(merged[i - |outs|], merged[j - |outs|]);
      }
    }
  }

  lemma SaysAppend(a: seq<Outcome>, b: seq<Outcome>, key: Key, f: Family, x: nat)
    ensures Says(a + b, key, f, x) <==> Says(a, key, f, x) || Says(b, key, f, x)
  {
    var all := a + b;
    assert forall i :: 0 <= i < |a| ==> all[i] == a[i];
    assert forall i :: 0 <= i < |b| ==> all[|a| + i] == b[i];
    if i :| 0 <= i < |all| && all[i].key == key && all[i].prefix.Valid() && all[i].prefix.Has(f, x) {
      assert i >= |a| ==> all[i] == b[i - |a|];
    }
  }

  lemma SpreadOnly(key: Key, merged: seq<Prefix>, own: Key, f: Family, a: nat)
    ensures Says(Spread(own, merged), key, f, a) <==> key == own && Covered(merged, f, a)
  {
    var outs := Spread(own, merged);
    if i :| 0 <= i < |merged| && merged[i].Valid() && merged[i].Has(f, a) {
      assert outs[i].prefix.Has(f, a);
    }
    if i :| 0 <= i < |outs| && outs[i].key == key && outs[i].prefix.Valid() && outs[i].prefix.Has(f, a) {
      assert merged[i].Has(f, a);
    }
  }

  lemma GroupSnoc(groups: seq<Group>, g: Group, key: Key, f: Family, a: nat)
    ensures GroupSays(groups + [g], key, f, a) <==> GroupSays(groups, key, f, a) || (g.key == key && Covered(g.prefixes, f, a))
  {
    var all := groups + [g];
    assert all[|groups|] == g && forall i :: 0 <= i < |groups| ==> all[i] == groups[i];
  }

  lemma SpreadSays(outs: seq<Outcome>, groups: seq<Group>, g: Group, merged: seq<Prefix>, key: Key, f: Family, a: nat)
    requires SameSayings(outs, groups) && SameAddresses(merged, g.prefixes)
    ensures Says(outs + Spread(g.key, merged), key, f, a) <==> GroupSays(groups + [g], key, f, a)
  {
    SaysAppend(outs, Spread(g.key, merged), key, f, a);
    SpreadOnly(key, merged, g.key, f, a);
    GroupSnoc(groups, g, key, f, a);
  }

  /** Says exactly what the given outcomes say, about each address once, in as few blocks as that takes. */
  method CoalesceOutcomes(outs: seq<Outcome>) returns (r: seq<Outcome>)
    requires AllCells(outs)
    ensures NoRepeats(r) && Joined(r) && forall key, f, a :: Says(r, key, f, a) <==> Says(outs, key, f, a)
  {
    var groups := GroupOutcomes(outs);
    r := [];
    for n := 0 to |groups|
      invariant NoRepeats(r) && Joined(r) && KeysFrom(r, groups[..n]) && SameSayings(r, groups[..n])
    {
      assert groups[..n + 1] == groups[..n] + [groups[n]];
      var merged := MergePrefixes(groups[n].prefixes);
      SpreadJoined(r, groups[..n], groups[n], merged);
      SpreadKeeps(r, groups[..n], groups[n], merged);
      r := r + Spread(groups[n].key, merged);
    }
    assert groups[..|groups|] == groups;
  }
}
