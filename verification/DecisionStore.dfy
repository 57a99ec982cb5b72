/** The authoritative in-memory ban store (internal/crowdsec/store.go).

    `Store.Apply` and `Store.Expire` are proved against `AfterBatch` and
    `Unexpired`, which say in one line each what a batch and an expiry mean.
 */
module DecisionStore {
  import opened Address
  import opened Basics
  import opened PrefixSet
  import opened Projection

  const MAX_U64: nat := 0xffff_ffff_ffff_ffff

  datatype Batch = Batch(startup: bool, added: seq<Decision>, deleted: seq<Int64>)

  datatype Retained = Retained(decision: Decision, sequence: nat)

  type Decisions = map<Int64, Retained>

  // ---------- What batches mean ----------

  function Unexpired(m: Decisions, now: int): Decisions {
    map id | id in m && m[id].decision.deadline > now :: m[id]
  }

  /** The last decision of the list with this identity, if any. */
  function LastWith(added: seq<Decision>, id: Int64): (r: int)
    ensures -1 <= r < |added|
    ensures r >= 0 ==> added[r].id == id
    ensures forall k :: r < k < |added| ==> added[k].id != id
  {
    if added == [] then -1
    else if added[|added| - 1].id == id then |added| - 1
    else LastWith(added[..|added| - 1], id)
  }

  function Ids(added: seq<Decision>): set<Int64> {
    set d | d in added :: d.id
  }

  /** The last decision of each identity replaces what was held, and is held itself if it is live. */
  function Added(m: Decisions, added: seq<Decision>, sequence: nat, now: int): Decisions {
    m - Ids(added) + map id | id in Ids(added) && LastWith(added, id) >= 0 && added[LastWith(added, id)].deadline > now
                       :: Retained(added[LastWith(added, id)], sequence)
  }

  /** Clear or expire, then delete, then add: the meaning of one admitted batch. */
  function AfterBatch(m: Decisions, batch: Batch, sequence: nat, now: int): Decisions {
    var base := if batch.startup then map[] else Unexpired(m, now);
    Added(base - (set id | id in batch.deleted), batch.added, sequence, now)
  }

  /** Identity by identity. */
  lemma AddedHas(m: Decisions, added: seq<Decision>, sequence: nat, now: int, id: Int64)
    ensures var out, r := Added(m, added, sequence, now), LastWith(added, id);
            && (id in out <==> if r >= 0 then added[r].deadline > now else id in m)
            && (id in out ==> out[id] == if r >= 0 then Retained(added[r], sequence) else m[id])
  {
    var r := LastWith(added, id);
    if r >= 0 {
      assert added[r] in added;
    }
    assert id in Ids(added) <==> r >= 0;
  }

  lemma LastSnoc(added: seq<Decision>, d: Decision, id: Int64)
    ensures LastWith(added + [d], id) == if id == d.id then |added| else LastWith(added, id)
  {
    assert (added + [d])[..|added|] == added;
  }

  predicate SameAt(a: Decisions, b: Decisions, id: Int64) {
    (id in a <==> id in b) && (id in a ==> a[id] == b[id])
  }

  lemma SameEverywhere(a: Decisions, b: Decisions)
    requires forall id :: SameAt(a, b, id)
    ensures a == b
  {
    forall id
      ensures (id in a <==> id in b) && (id in a ==> a[id] == b[id])
    {
      assert SameAt(a, b, id);
    }
    assert a.Keys == b.Keys;
  }

  /** Adds or drops one decision. */
  function AddOne(m: Decisions, d: Decision, sequence: nat, now: int): Decisions {
    if d.deadline > now then m[d.id := Retained(d, sequence)] else m - {d.id}
  }

  lemma SnocAt(m: Decisions, added: seq<Decision>, d: Decision, sequence: nat, now: int, id: Int64)
    ensures SameAt(Added(m, added + [d], sequence, now), AddOne(Added(m, added, sequence, now), d, sequence, now), id)
  {
    AddedHas(m, added, sequence, now, id);
    AddedHas(m, added + [d], sequence, now, id);
    LastSnoc(added, d, id);
  }

  lemma AddedSnoc(m: Decisions, added: seq<Decision>, d: Decision, sequence: nat, now: int)
    ensures Added(m, added + [d], sequence, now) == AddOne(Added(m, added, sequence, now), d, sequence, now)
  {
    forall id
      ensures SameAt(Added(m, added + [d], sequence, now), AddOne(Added(m, added, sequence, now), d, sequence, now), id)
    {
      SnocAt(m, added, d, sequence, now, id);
    }
    SameEverywhere(Added(m, added + [d], sequence, now), AddOne(Added(m, added, sequence, now), d, sequence, now));
  }

  // ---------- Validation ----------

  /** IPv4-mapped network addresses are refused (internal/crowdsec/store.go:273-276). */
  predicate MappedNetwork(p: Prefix) {
    p.fam.V6? && p.addr / 0x1_0000_0000 == 0xffff
  }

  predicate ValidDecision(d: Decision) {
    d.id > 0 && d.prefix.Valid() && !MappedNetwork(d.prefix) && d.deadline != 0
  }

  predicate ValidBatch(batch: Batch) {
    && (forall i :: 0 <= i < |batch.deleted| ==> batch.deleted[i] > 0)
    && (forall i :: 0 <= i < |batch.added| ==> ValidDecision(batch.added[i]))
    && (forall i, j :: 0 <= i < j < |batch.added| ==> batch.added[i].id != batch.added[j].id)
  }

  /** Positive identities, aligned prefixes that are not IPv4-mapped, deadlines, and no identity twice. */
  method ValidateBatch(batch: Batch) returns (ok: bool)
    ensures ok <==> ValidBatch(batch)
    ensures ok <==>
            && (forall i :: 0 <= i < |batch.deleted| ==> batch.deleted[i] > 0)
            && (forall i :: 0 <= i < |batch.added| ==> batch.added[i].id > 0 && batch.added[i].deadline != 0)
            && (forall i :: 0 <= i < |batch.added| ==> batch.added[i].prefix.Valid())
            && (forall i :: 0 <= i < |batch.added| && batch.added[i].prefix.fam.V6? ==>
                  !(0xffff_0000_0000 <= batch.added[i].prefix.addr < 0x1_0000_0000_0000))
            && (forall i, j :: 0 <= i < j < |batch.added| ==> batch.added[i].id != batch.added[j].id)
  {
    for i := 0 to |batch.deleted|
      invariant forall k :: 0 <= k < i ==> batch.deleted[k] > 0
    {
      if batch.deleted[i] <= 0 {
        return false;
      }
    }
    var seen: set<Int64> := {};
    for i := 0 to |batch.added|
      invariant forall k :: 0 <= k < i ==> ValidDecision(batch.added[k])
      invariant forall j, k :: 0 <= j < k < i ==> batch.added[j].id != batch.added[k].id
      invariant forall id :: id in seen <==> exists k :: 0 <= k < i && batch.added[k].id == id
    {
      if !ValidDecision(batch.added[i]) {
        return false;
      }
      if batch.added[i].id in seen {
        return false;
      }
      seen := seen + {batch.added[i].id};
    }
    ok := true;
  }

  /** The program's prediction, made before touching the map, that a batch will change it. */
  predicate BatchChanges(m: Decisions, batch: Batch, sequence: nat, now: int) {
    if batch.startup then
      m != map[] || exists i :: 0 <= i < |batch.added| && batch.added[i].deadline > now
    else
      || (exists id :: id in m && m[id].decision.deadline <= now)
      || (exists i :: 0 <= i < |batch.deleted| && batch.deleted[i] in m)
      || (exists i :: 0 <= i < |batch.added| &&
                      if batch.added[i].id in m
                      then m[batch.added[i].id].sequence != sequence
                        || m[batch.added[i].id].decision.prefix != batch.added[i].prefix
                        || m[batch.added[i].id].decision.deadline != batch.added[i].deadline
                      else batch.added[i].deadline > now)
  }

  ghost predicate Brings(batch: Batch, id: Int64) {
    exists i :: 0 <= i < |batch.added| && batch.added[i].id == id
  }

  /** One identity: the last addition decides, else deletion, else what was held. */
  ghost predicate AfterAt(m: Decisions, batch: Batch, sequence: nat, now: int, out: Decisions, id: Int64) {
    var r := LastWith(batch.added, id);
    && (r >= 0 ==> (id in out <==> batch.added[r].deadline > now) && (id in out ==> out[id] == Retained(batch.added[r], sequence)))
    && (r < 0 ==>
          && (id in out <==> !batch.startup && id !in batch.deleted && id in m && m[id].decision.deadline > now)
          && (id in out ==> out[id] == m[id]))
  }

  lemma AfterOne(m: Decisions, batch: Batch, sequence: nat, now: int, id: Int64)
    ensures AfterAt(m, batch, sequence, now, AfterBatch(m, batch, sequence, now), id)
  {
    var base := (if batch.startup then map[] else Unexpired(m, now)) - (set x | x in batch.deleted);
    AddedHas(base, batch.added, sequence, now, id);
  }

  lemma AddedDecide(m: Decisions, batch: Batch, sequence: nat, now: int, out: Decisions, i: nat)
    requires ValidBatch(batch) && i < |batch.added| && AfterAt(m, batch, sequence, now, out, batch.added[i].id)
    ensures batch.added[i].deadline > now ==> batch.added[i].id in out && out[batch.added[i].id] == Retained(batch.added[i], sequence)
    ensures batch.added[i].deadline <= now ==> batch.added[i].id !in out
  {
    AddedAt(batch.added, i);
  }

  lemma OthersDecide(m: Decisions, batch: Batch, sequence: nat, now: int, out: Decisions, id: Int64)
    requires AfterAt(m, batch, sequence, now, out, id) && !Brings(batch, id)
    ensures id in out <==> !batch.startup && id !in batch.deleted && id in m && m[id].decision.deadline > now
    ensures id in out ==> out[id] == m[id]
  {
  }

  /** What one batch does to each identity: an addition replaces what was held and is held itself if it is
      live, a deletion removes, a startup batch forgets, and everything else stays until its deadline. */
  ghost predicate BatchDone(m: Decisions, batch: Batch, sequence: nat, now: int, out: Decisions) {
    && (forall i :: 0 <= i < |batch.added| && batch.added[i].deadline > now ==>
          batch.added[i].id in out && out[batch.added[i].id] == Retained(batch.added[i], sequence))
    && (forall i :: 0 <= i < |batch.added| && batch.added[i].deadline <= now ==> batch.added[i].id !in out)
    && (forall id :: id in batch.deleted && !Brings(batch, id) ==> id !in out)
    && (batch.startup ==> forall id :: id in out ==> Brings(batch, id))
    && (!batch.startup ==> forall id :: id !in batch.deleted && !Brings(batch, id) ==>
          (id in out <==> id in m && m[id].decision.deadline > now) && (id in out ==> out[id] == m[id]))
  }

  lemma AfterBatchAt(m: Decisions, batch: Batch, sequence: nat, now: int, out: Decisions)
    requires ValidBatch(batch) && out == AfterBatch(m, batch, sequence, now)
    ensures BatchDone(m, batch, sequence, now, out)
  {
    forall i | 0 <= i < |batch.added|
      ensures batch.added[i].deadline > now ==> batch.added[i].id in out && out[batch.added[i].id] == Retained(batch.added[i], sequence)
      ensures batch.added[i].deadline <= now ==> batch.added[i].id !in out
    {
      AfterOne(m, batch, sequence, now, batch.added[i].id);
      AddedDecide(m, batch, sequence, now, out, i);
    }
    forall id | !Brings(batch, id)
      ensures id in out <==> !batch.startup && id !in batch.deleted && id in m && m[id].decision.deadline > now
      ensures id in out ==> out[id] == m[id]
    {
      AfterOne(m, batch, sequence, now, id);
      OthersDecide(m, batch, sequence, now, out, id);
    }
  }

  lemma AddedAt(added: seq<Decision>, i: nat)
    requires i < |added| && forall j, k :: 0 <= j < k < |added| ==> added[j].id != added[k].id
    ensures added[i].id in Ids(added) && LastWith(added, added[i].id) == i
  {
    assert added[i] in added;
    var r := LastWith(added, added[i].id);
  }

  /** Sequence numbers below `sequence` make the prediction exact: it holds if and only if the map changes. */
  lemma PredictionExact(m: Decisions, batch: Batch, sequence: nat, now: int)
    requires ValidBatch(batch) && forall id :: id in m ==> m[id].sequence < sequence
    ensures BatchChanges(m, batch, sequence, now) <==> AfterBatch(m, batch, sequence, now) != m
  {
    var after := AfterBatch(m, batch, sequence, now);
    if BatchChanges(m, batch, sequence, now) {
      ChangeShows(m, batch, sequence, now);
    } else {
      forall id | id in m
        ensures id in after && after[id] == m[id]
      {
        assert forall i :: 0 <= i < |batch.added| ==> batch.added[i].id != id;
        assert id !in Ids(batch.added);
      }
      forall id | id in after
        ensures id in m
      {
      }
      assert after == m;
    }
  }

  lemma Inhabited(m: Decisions)
    requires m != map[]
    ensures exists id :: id in m
  {
    assert m.Keys != {};
  }

  lemma ChangeShows(m: Decisions, batch: Batch, sequence: nat, now: int)
    requires ValidBatch(batch) && forall id :: id in m ==> m[id].sequence < sequence
    requires BatchChanges(m, batch, sequence, now)
    ensures AfterBatch(m, batch, sequence, now) != m
  {
    var after := AfterBatch(m, batch, sequence, now);
    if i :| 0 <= i < |batch.added| && batch.added[i].deadline > now {
      AddedAt(batch.added, i);
      assert after[batch.added[i].id].sequence == sequence;
    } else if batch.startup {
      Inhabited(m);
      var id :| id in m;
      assert id !in after;
    } else if id :| id in m && m[id].decision.deadline <= now {
      assert id !in after;
    } else if i :| 0 <= i < |batch.deleted| && batch.deleted[i] in m {
      assert batch.deleted[i] !in after;
    } else {
      var i :| 0 <= i < |batch.added| && batch.added[i].id in m;
      AddedAt(batch.added, i);
      assert batch.added[i].id !in after;
    }
  }

  lemma UnexpiredSame(m: Decisions, now: int)
    ensures Unexpired(m, now) != m <==> exists id :: id in m && m[id].decision.deadline <= now
  {
    if id :| id in m && m[id].decision.deadline <= now {
      assert id !in Unexpired(m, now);
    } else {
      assert Unexpired(m, now) == m;
    }
  }

  // ---------- The store ----------

  /** Every decision is valid, is held under its own identity, and came no later than `last`. */
  ghost predicate Held(m: Decisions, last: nat) {
    forall id :: id in m ==> m[id].decision.id == id && ValidDecision(m[id].decision) && m[id].sequence <= last
  }

  class Store {
    var decisions: Decisions
    var revision: nat
    var lastSequence: nat
    var hasSequence: bool

    ghost predicate Valid()
      reads this
    {
      && revision <= MAX_U64
      && (!hasSequence ==> decisions == map[])
      && Held(decisions, lastSequence)
    }

    constructor ()
      ensures Valid() && decisions == map[] && revision == 0 && !hasSequence
    {
      decisions := map[];
      revision := 0;
      lastSequence := 0;
      hasSequence := false;
    }

    /** Removes the decisions whose deadline has passed, one key at a time. */
    method DropExpired(now: int)
      modifies this`decisions
      ensures decisions == old(Unexpired(decisions, now))
    {
      var pending: set<Int64> := decisions.Keys;
      while pending != {}
        invariant pending <= old(decisions).Keys && decisions.Keys <= old(decisions).Keys
        invariant forall id :: id in decisions ==> decisions[id] == old(decisions)[id]
        invariant forall id :: id in pending ==> id in decisions
        invariant forall id :: id in old(decisions) && id !in pending ==>
                                 (id in decisions <==> old(decisions)[id].decision.deadline > now)
        decreases pending
      {
        var id :| id in pending;
        if decisions[id].decision.deadline <= now {
          decisions := decisions - {id};
        }
        pending := pending - {id};
      }
    }

    method DeleteAll(ids: seq<Int64>)
      modifies this`decisions
      ensures decisions == old(decisions) - (set id | id in ids)
    {
      for i := 0 to |ids|
        invariant decisions == old(decisions) - (set id | id in ids[..i])
      {
        decisions := decisions - {ids[i]};
        assert ids[..i + 1] == ids[..i] + [ids[i]];
      }
      assert ids[..|ids|] == ids;
    }

    /** Adds the live decisions in order; a decision that arrives expired removes its predecessor. */
    method AddAll(added: seq<Decision>, sequence: nat, now: int)
      modifies this`decisions
      ensures decisions == Added(old(decisions), added, sequence, now)
    {
      for i := 0 to |added|
        invariant decisions == Added(old(decisions), added[..i], sequence, now)
      {
        var d := added[i];
        assert added[..i + 1] == added[..i] + [d];
        AddedSnoc(old(decisions), added[..i], d, sequence, now);
        if d.deadline > now {
          decisions := decisions[d.id := Retained(d, sequence)];
        } else {
          decisions := decisions - {d.id};
        }
      }
      assert added[..|added|] == added;
    }

    /** Clear or expire, then delete, then add. */
    method Replace(batch: Batch, sequence: nat, now: int)
      modifies this`decisions
      ensures decisions == AfterBatch(old(decisions), batch, sequence, now)
    {
      if batch.startup {
        decisions := map[];
      } else {
        DropExpired(now);
      }
      DeleteAll(batch.deleted);
      AddAll(batch.added, sequence, now);
    }

    /** Admits one source batch, or refuses it and changes nothing. */
    method Apply(batch: Batch, sequence: nat, now: int) returns (ok: bool)
      requires Valid()
      modifies this
      ensures Valid()
      ensures ok <==>
              && sequence > 0 && (old(hasSequence) ==> sequence > old(lastSequence)) && ValidBatch(batch)
              && (AfterBatch(old(decisions), batch, sequence, now) == old(decisions) || old(revision) < MAX_U64)
      ensures !ok ==> unchanged(this)
      ensures ok ==>
                && decisions == AfterBatch(old(decisions), batch, sequence, now)
                && lastSequence == sequence && hasSequence
                && revision == old(revision) + (if decisions == old(decisions) then 0 else 1)
      ensures ok ==> BatchDone(old(decisions), batch, sequence, now, decisions)
    {
      if sequence == 0 {
        return false;
      }
      if hasSequence && sequence <= lastSequence {
        return false;
      }
      var valid := ValidateBatch(batch);
      if !valid {
        return false;
      }
      PredictionExact(decisions, batch, sequence, now);
      var changed := BatchChanges(decisions, batch, sequence, now);
      if changed && revision == MAX_U64 {
        return false;
      }
      AfterBatchAt(decisions, batch, sequence, now, AfterBatch(decisions, batch, sequence, now));
      Admit(batch, sequence, now, changed);
      ok := true;
    }

    /** Installs a batch that has passed every check. */
    method Admit(batch: Batch, sequence: nat, now: int, changed: bool)
      requires Valid() && ValidBatch(batch) && (hasSequence ==> lastSequence <= sequence) && (changed ==> revision < MAX_U64)
      modifies this
      ensures Valid() && decisions == AfterBatch(old(decisions), batch, sequence, now)
      ensures lastSequence == sequence && hasSequence && revision == old(revision) + (if changed then 1 else 0)
    {
      AfterBatchKeeps(decisions, batch, sequence, now, lastSequence);
      Replace(batch, sequence, now);
      lastSequence := sequence;
      hasSequence := true;
      if changed {
        revision := revision + 1;
      }
    }

    /** Removes expired decisions, unless the revision counter is exhausted. */
    method Expire(now: int) returns (changed: bool)
      requires Valid()
      modifies this
      ensures Valid() && lastSequence == old(lastSequence) && hasSequence == old(hasSequence)
      ensures old(revision) < MAX_U64 ==>
                && decisions == old(Unexpired(decisions, now))
                && (forall id :: id in decisions <==> id in old(decisions) && old(decisions)[id].decision.deadline > now)
                && (forall id :: id in decisions ==> decisions[id] == old(decisions)[id])
                && (changed <==> decisions != old(decisions))
                && revision == old(revision) + (if changed then 1 else 0)
      ensures old(revision) == MAX_U64 ==> !changed && unchanged(this)
    {
      if decisions == map[] || revision == MAX_U64 {
        return false;
      }
      UnexpiredSame(decisions, now);
      changed := exists id :: id in decisions && decisions[id].decision.deadline <= now;
      DropExpired(now);
      if changed {
        revision := revision + 1;
      }
    }

    /** The exact timed projection of the retained decisions; the store is not changed. */
    method Projection(now: int) returns (out: seq<TimedPrefix>)
      requires Valid()
      ensures forall f, a, t :: ProjectedAt(out, f, a, t) <==> LatestHeld(decisions, f, now, a, t)
      ensures exists v4, v6, ds :: Lists(ds, decisions, now) && out == v4 + v6 && Projects(v4, ds, V4, now) && Projects(v6, ds, V6, now)
    {
      var ds := LiveDecisions(now);
      out := Project(ds, now);
      ghost var v4, v6 :| out == v4 + v6 && Projects(v4, ds, V4, now) && Projects(v6, ds, V6, now);
      forall f, a, t
        ensures ProjectedAt(out, f, a, t) <==> LatestHeld(decisions, f, now, a, t)
      {
        ProjectionShows(v4, v6, ds, f, now, a, t);
        ListedLatest(ds, decisions, f, now, a, t);
      }
    }

    /** The unexpired decisions, in any order. */
    method LiveDecisions(now: int) returns (ds: seq<Decision>)
      requires Valid()
      ensures Lists(ds, decisions, now) && AllValid(ds)
    {
      ds := [];
      var pending: set<Int64> := decisions.Keys;
      while pending != {}
        invariant pending <= decisions.Keys && AllValid(ds)
        invariant forall d :: d in ds ==> d.id in decisions && decisions[d.id].decision == d && d.deadline > now
        invariant forall id :: id in decisions && id !in pending && decisions[id].decision.deadline > now ==> decisions[id].decision in ds
        decreases pending
      {
        var id :| id in pending;
        if decisions[id].decision.deadline > now {
          ds := ds + [decisions[id].decision];
        }
        pending := pending - {id};
      }
    }

    /** The earliest deadline still held, or nothing. */
    method NextExpiry() returns (next: int)
      requires Valid()
      ensures decisions == map[] ==> next == 0
      ensures decisions != map[] ==>
                && (exists id :: id in decisions && decisions[id].decision.deadline == next)
                && (forall id :: id in decisions ==> next <= decisions[id].decision.deadline)
    {
      next := 0;
      var pending: set<Int64> := decisions.Keys;
      var found := false;
      while pending != {}
        invariant pending <= decisions.Keys
        invariant !found ==> next == 0 && pending == decisions.Keys
        invariant found ==> next != 0 && exists id :: id in decisions && decisions[id].decision.deadline == next
        invariant found ==> forall id :: id in decisions && id !in pending ==> next <= decisions[id].decision.deadline
        decreases pending
      {
        var id :| id in pending;
        if next == 0 || decisions[id].decision.deadline < next {
          next := decisions[id].decision.deadline;
        }
        found := true;
        pending := pending - {id};
      }
    }
  }

  lemma AfterBatchKeeps(m: Decisions, batch: Batch, sequence: nat, now: int, last: nat)
    requires ValidBatch(batch) && (last <= sequence || m == map[]) && Held(m, last)
    ensures Held(AfterBatch(m, batch, sequence, now), sequence)
  {
  }

  // ---------- Whole runs ----------

  datatype Op = Admit(batch: Batch, sequence: nat, now: int) | Sweep(at: int)

  /** The store as a value: what a run of operations makes of it. */
  datatype Model = Model(decisions: Decisions, revision: nat, lastSequence: nat, hasSequence: bool)

  function Next(m: Model, op: Op): Model {
    match op
    case Admit(batch, sequence, now) =>
      var after := AfterBatch(m.decisions, batch, sequence, now);
      if sequence == 0 || (m.hasSequence && sequence <= m.lastSequence) || !ValidBatch(batch) then m
      else if after != m.decisions && m.revision == MAX_U64 then m
      else Model(after, m.revision + (if after == m.decisions then 0 else 1), sequence, true)
    case Sweep(at) =>
      var after := Unexpired(m.decisions, at);
      if m.revision == MAX_U64 || after == m.decisions then m
      else m.(decisions := after, revision := m.revision + 1)
  }

  function RunModel(m: Model, ops: seq<Op>): Model {
    if ops == [] then m else Next(RunModel(m, ops[..|ops| - 1]), ops[|ops| - 1])
  }

  ghost function ModelOf(store: Store): Model
    reads store
  {
    Model(store.decisions, store.revision, store.lastSequence, store.hasSequence)
  }

  method Do(store: Store, op: Op)
    requires store.Valid()
    modifies store
    ensures store.Valid() && ModelOf(store) == Next(old(ModelOf(store)), op)
  {
    match op
    case Admit(batch, sequence, now) =>
      var _ := store.Apply(batch, sequence, now);
    case Sweep(at) =>
      var _ := store.Expire(at);
  }

  /** Over any run the store is the model's store. */
  method Run(store: Store, ops: seq<Op>)
    requires store.Valid()
    modifies store
    ensures store.Valid() && ModelOf(store) == RunModel(old(ModelOf(store)), ops)
  {
    ghost var start := ModelOf(store);
    for i := 0 to |ops|
      invariant store.Valid() && ModelOf(store) == RunModel(start, ops[..i])
    {
      assert ops[..i + 1][..i] == ops[..i];
      Do(store, ops[i]);
    }
    assert ops[..|ops|] == ops;
  }

  /** How many operations of a run change the retained decisions. */
  ghost function Changes(m: Model, ops: seq<Op>): nat {
    if ops == [] then 0
    else
      var before := RunModel(m, ops[..|ops| - 1]);
      Changes(m, ops[..|ops| - 1]) + if Next(before, ops[|ops| - 1]).decisions == before.decisions then 0 else 1
  }

  /** The revision counts exactly the changes of a run and never passes its last value, and a run that
      leaves the revision where it was leaves the decisions as they were. */
  lemma {:induction false} RevisionTracks(m: Model, ops: seq<Op>)
    requires m.revision <= MAX_U64
    ensures RunModel(m, ops).revision == m.revision + Changes(m, ops) <= MAX_U64
    ensures RunModel(m, ops).revision == m.revision ==> RunModel(m, ops).decisions == m.decisions
    decreases |ops|
  {
    if ops != [] {
      RevisionTracks(m, ops[..|ops| - 1]);
    }
  }

  // ---------- Projecting later ----------

  /** A retained decision with this deadline is in force at the address. */
  ghost predicate InForce(m: Decisions, f: Family, now: int, a: nat, id: Int64) {
    id in m && m[id].decision.deadline > now && m[id].decision.prefix.Valid() && m[id].decision.prefix.Has(f, a)
  }

  /** `t` is the latest deadline of the retained decisions in force at the address. */
  ghost predicate LatestHeld(m: Decisions, f: Family, now: int, a: nat, t: int) {
    && (exists id :: InForce(m, f, now, a, id) && m[id].decision.deadline == t)
    && (forall id :: InForce(m, f, now, a, id) ==> m[id].decision.deadline <= t)
  }

  /** The projection holds the address until `t`. */
  ghost predicate ProjectedAt(ts: seq<TimedPrefix>, f: Family, a: nat, t: int) {
    exists i :: 0 <= i < |ts| && ts[i].prefix.Valid() && ts[i].prefix.Has(f, a) && ts[i].deadline == t
  }

  /** The list holds exactly the unexpired decisions of the store. */
  ghost predicate Lists(ds: seq<Decision>, m: Decisions, now: int) {
    && (forall d :: d in ds ==> d.id in m && m[d.id].decision == d && d.deadline > now)
    && (forall id :: id in m && m[id].decision.deadline > now ==> m[id].decision in ds)
  }

  lemma ListedLatest(ds: seq<Decision>, m: Decisions, f: Family, now: int, a: nat, t: int)
    requires Lists(ds, m, now) && forall id :: id in m ==> m[id].decision.id == id
    ensures LatestAt(ds, f, now, a, t) <==> LatestHeld(m, f, now, a, t)
  {
    forall i | Bans(ds, f, now, i, a)
      ensures InForce(m, f, now, a, ds[i].id) && m[ds[i].id].decision == ds[i]
    {
      assert ds[i] in ds;
    }
    forall id | InForce(m, f, now, a, id)
      ensures exists i :: Bans(ds, f, now, i, a) && ds[i] == m[id].decision
    {
      var i :| 0 <= i < |ds| && ds[i] == m[id].decision;
      assert Bans(ds, f, now, i, a);
    }
  }

  /** Of the part of one family, exactly the latest deadlines. */
  lemma PartShows(ts: seq<TimedPrefix>, ds: seq<Decision>, f: Family, now: int, a: nat, t: int)
    requires Projects(ts, ds, f, now)
    ensures ProjectedAt(ts, f, a, t) <==> LatestAt(ds, f, now, a, t)
  {
    if LatestAt(ds, f, now, a, t) {
      assert Banned(ds, f, now, a);
      var i :| 0 <= i < |Prefixes(ts)| && Prefixes(ts)[i].Valid() && Prefixes(ts)[i].Has(f, a);
      assert ts[i].prefix.Has(f, a);
      assert LatestAt(ds, f, now, a, ts[i].deadline);
    }
  }

  lemma ProjectionShows(v4: seq<TimedPrefix>, v6: seq<TimedPrefix>, ds: seq<Decision>, f: Family, now: int, a: nat,
                        t: int)
    requires Projects(v4, ds, V4, now) && Projects(v6, ds, V6, now)
    ensures ProjectedAt(v4 + v6, f, a, t) <==> LatestAt(ds, f, now, a, t)
  {
    PartShows(if f.V4? then v4 else v6, ds, f, now, a, t);
    ShownAppend(v4, v6, f, a, t);
    if f.V4? {
      OtherNotShown(v6, V6, f, a, t);
    } else {
      OtherNotShown(v4, V4, f, a, t);
    }
  }

  lemma ShownAppend(s: seq<TimedPrefix>, u: seq<TimedPrefix>, f: Family, a: nat, t: int)
    ensures ProjectedAt(s + u, f, a, t) <==> ProjectedAt(s, f, a, t) || ProjectedAt(u, f, a, t)
  {
    var all := s + u;
    assert forall i :: 0 <= i < |s| ==> all[i] == s[i];
    assert forall i :: 0 <= i < |u| ==> all[|s| + i] == u[i];
    if i :| 0 <= i < |all| && all[i].prefix.Valid() && all[i].prefix.Has(f, a) && all[i].deadline == t {
      assert i >= |s| ==> all[i] == u[i - |s|];
    }
  }

  lemma OtherNotShown(ts: seq<TimedPrefix>, own: Family, f: Family, a: nat, t: int)
    requires AllOf(Prefixes(ts), own) && f != own
    ensures !ProjectedAt(ts, f, a, t)
  {
    assert forall i :: 0 <= i < |ts| ==> Prefixes(ts)[i] == ts[i].prefix;
  }

  /** What an expiry drops was not in force any more. */
  lemma ExpiredNotInForce(m: Decisions, at: int, f: Family, now: int, a: nat, t: int)
    requires at <= now
    ensures LatestHeld(Unexpired(m, at), f, now, a, t) <==> LatestHeld(m, f, now, a, t)
  {
    forall id
      ensures InForce(Unexpired(m, at), f, now, a, id) <==> InForce(m, f, now, a, id)
    {
    }
  }

  lemma LatestLater(m: Decisions, f: Family, now: int, later: int, a: nat, t: int)
    requires now <= later
    ensures LatestHeld(m, f, later, a, t) <==> LatestHeld(m, f, now, a, t) && t > later
  {
    forall id
      ensures InForce(m, f, later, a, id) <==> InForce(m, f, now, a, id) && m[id].decision.deadline > later
    {
    }
  }

  /** Without a new batch, a later projection of the store is the earlier one restricted to the deadlines
      still ahead, whether or not the store has dropped expired decisions meanwhile. */
  method ProjectLater(store: Store, now: int, expire: Option<int>, later: int)
    returns (first: seq<TimedPrefix>, second: seq<TimedPrefix>)
    requires store.Valid() && now <= later && (expire.Some? ==> expire.value <= later)
    modifies store
    ensures store.Valid()
    ensures forall f, a, t :: ProjectedAt(second, f, a, t) <==> ProjectedAt(first, f, a, t) && t > later
  {
    ghost var m := store.decisions;
    first := store.Projection(now);
    if expire.Some? {
      var _ := store.Expire(expire.value);
    }
    second := store.Projection(later);
    forall f, a, t
      ensures ProjectedAt(second, f, a, t) <==> ProjectedAt(first, f, a, t) && t > later
    {
      LatestLater(m, f, now, later, a, t);
      if expire.Some? {
        ExpiredNotInForce(m, expire.value, f, later, a, t);
      }
    }
  }
}
