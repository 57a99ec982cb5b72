/** Timed leases: what the kernel is granted and what the lookup may conclude from it
    (internal/firewall/dynamic.go:11-29, internal/app/crowdsec.go:340-402).

    Times are nanoseconds; zero stands for no time, as the zero time does in the source.
 */
module Lease {
  import opened Address
  import opened Basics
  import opened PrefixSet
  import opened Policy
  import opened Projection
  import opened Ports
  import opened Evaluate
  import opened Lookup

  const SECOND := 1_000_000_000
  const MAXIMUM_LEASE := 86_400 * SECOND
  const MAX_DURATION := 0x7fff_ffff_ffff_ffff

  // ---------- Grants ----------

  /** Time differences saturate at the longest duration. */
  function Remaining(deadline: int, now: int): int {
    if deadline - now > MAX_DURATION then MAX_DURATION
    else if deadline - now < -MAX_DURATION - 1 then -MAX_DURATION - 1
    else deadline - now
  }

  /** What remains, rounded down to the unit and capped; only a capped lease is renewed. */
  function LeaseGrant(deadline: int, now: int, unit: int): (r: (int, int))
    ensures 0 <= r.0 <= MAXIMUM_LEASE
  {
    if unit <= 0 || deadline == 0 || Remaining(deadline, now) <= 0 then (0, 0)
    else
      var rounded := Remaining(deadline, now) / unit * unit;
      if rounded <= MAXIMUM_LEASE then (rounded, 0) else (MAXIMUM_LEASE, now + MAXIMUM_LEASE / 2)
  }

  function Grant(deadline: int, now: int): (r: int)
    ensures 0 <= r <= MAXIMUM_LEASE
  {
    LeaseGrant(deadline, now, SECOND).0
  }

  lemma RoundsDown(x: int, y: int, unit: int)
    requires 0 <= x <= y && unit > 0
    ensures 0 <= x / unit * unit <= x && x / unit * unit <= y / unit * unit
  {
    DivisionMonotonic(x, y, unit);
    assert x == x / unit * unit + x % unit;
    MulMonotonic(x / unit, y / unit, unit);
  }

  lemma DivisionMonotonic(x: int, y: int, unit: int)
    requires 0 <= x <= y && unit > 0
    ensures 0 <= x / unit <= y / unit
  {
    var a, b := x / unit, y / unit;
    assert x == a * unit + x % unit && y == b * unit + y % unit;
    assert (b + 1) * unit == b * unit + unit;
    if b < a {
      MulMonotonic(b + 1, a, unit);
    }
  }

  /** A lease never outlasts its authority, and a later computation never grants more. */
  lemma GrantShrinks(deadline: int, now: int, later: int)
    requires now <= later
    ensures Grant(deadline, later) <= Grant(deadline, now)
    ensures Grant(deadline, later) > 0 ==> later + Grant(deadline, later) <= deadline
  {
    if Remaining(deadline, later) > 0 {
      RoundsDown(Remaining(deadline, later), Remaining(deadline, now), SECOND);
    }
  }

  /** The grant is what remains, but for less than a unit or for the cap: there is one exactly when a unit
      or more remains, it is in whole units, and only the cap makes it fall short by a unit or more. */
  lemma GrantExact(deadline: int, now: int, unit: int)
    ensures var g, left := LeaseGrant(deadline, now, unit).0, Remaining(deadline, now);
            && (g > 0 <==> unit > 0 && deadline != 0 && left >= unit)
            && (g > 0 ==> g <= left && (g == MAXIMUM_LEASE || (g % unit == 0 && left - g < unit)))
  {
    if unit > 0 && deadline != 0 && Remaining(deadline, now) > 0 {
      var left := Remaining(deadline, now);
      RoundedExactly(left, unit);
    }
  }

  lemma RoundedExactly(x: int, unit: int)
    requires x > 0 && unit > 0
    ensures var r := x / unit * unit; 0 <= r <= x && x - r < unit && r % unit == 0 && (r > 0 <==> x >= unit)
  {
    var q := x / unit;
    assert x == q * unit + x % unit;
    MultipleMod(q, unit);
    if x >= unit {
      assert q >= 1 by {
        DivisionMonotonic(unit, x, unit);
      }
      MulMonotonic(1, q, unit);
    } else {
      assert q == 0;
    }
  }

  /** In whole seconds, and in terms of the clock. */
  lemma GrantSeconds(deadline: int, now: int)
    requires deadline != 0
    ensures var g := Grant(deadline, now);
            && (g > 0 <==> deadline - now >= SECOND)
            && (g > 0 ==> g <= deadline - now && (g == MAXIMUM_LEASE || deadline - now - g < SECOND))
            && (deadline - now >= MAXIMUM_LEASE ==> g == MAXIMUM_LEASE)
  {
    GrantExact(deadline, now, SECOND);
  }

  /** A ban of whole seconds, up to the maximum, is granted in full and never asks to be renewed. */
  lemma WholeSecondsGranted(seconds: nat, now: int)
    requires 0 < seconds <= 86_400 && now + seconds * SECOND != 0
    ensures LeaseGrant(now + seconds * SECOND, now, SECOND) == (seconds * SECOND, 0)
  {
  }

  /** A renewal is asked for exactly when the cap cuts off a second or more, and comes halfway. */
  lemma RenewalExact(deadline: int, now: nat)
    ensures LeaseGrant(deadline, now, SECOND).1 ==
            if deadline != 0 && deadline - now >= MAXIMUM_LEASE + SECOND then now + MAXIMUM_LEASE / 2 else 0
  {
    if deadline != 0 && Remaining(deadline, now) > 0 {
      var left := Remaining(deadline, now);
      RoundedExactly(left, SECOND);
    }
  }

  /** Only a capped lease asks to be renewed, and well before it runs out. */
  lemma RenewedInTime(deadline: int, now: int, unit: int)
    requires now > 0
    ensures var r := LeaseGrant(deadline, now, unit);
            && (r.1 != 0 <==> unit > 0 && deadline != 0 && Remaining(deadline, now) > 0 && Remaining(deadline, now) / unit * unit > MAXIMUM_LEASE)
            && (r.1 != 0 ==> now < r.1 < now + r.0)
  {
  }

  // ---------- Recorded evidence ----------

  /** A lease taken from `start` is granted what remains at `finish`. */
  function Expiry(deadline: int, start: nat, finish: nat): int {
    start + Grant(deadline, finish)
  }

  /** The backend omits the prefix, or its lease may end before the write is known to be done. */
  predicate Fences(deadline: int, start: nat, finish: nat) {
    Grant(deadline, finish) <= 0 || Expiry(deadline, start, finish) <= finish
  }

  /** A prefix whose deadline is far enough past the end of the write does not fence: what is left at the
      end must outlast the write by a second. */
  lemma FarDoesNotFence(deadline: int, start: nat, finish: nat)
    requires deadline != 0 && start <= finish < start + MAXIMUM_LEASE && deadline - finish >= finish - start + SECOND
    ensures !Fences(deadline, start, finish)
  {
    GrantSeconds(deadline, finish);
  }

  /** And one that ends no later than the write took does. */
  lemma NearFences(deadline: int, start: nat, finish: nat)
    requires deadline != 0 && start <= finish && (deadline - finish <= finish - start || finish - start >= MAXIMUM_LEASE)
    ensures Fences(deadline, start, finish)
  {
    GrantSeconds(deadline, finish);
  }

  predicate Manages(families: Option<seq<Family>>, v: TimedPrefix) {
    families.None? || v.prefix.fam in families.value
  }

  ghost predicate SomeFence(projection: seq<TimedPrefix>, families: Option<seq<Family>>, start: nat, finish: nat) {
    exists i :: 0 <= i < |projection| && Manages(families, projection[i]) && Fences(projection[i].deadline, start, finish)
  }

  predicate LeaseFor(t: TimedPrefix, v: TimedPrefix, start: nat, finish: nat) {
    t == TimedPrefix(v.prefix, Expiry(v.deadline, start, finish)) && !Fences(v.deadline, start, finish)
  }

  ghost predicate HasLease(prefixes: seq<TimedPrefix>, v: TimedPrefix, start: nat, finish: nat) {
    exists i :: 0 <= i < |prefixes| && LeaseFor(prefixes[i], v, start, finish)
  }

  /** Every managed prefix that does not fence has its lease recorded. */
  ghost predicate AllLeased(prefixes: seq<TimedPrefix>, projection: seq<TimedPrefix>, families: Option<seq<Family>>,
                            start: nat, finish: nat) {
    forall i :: 0 <= i < |projection| && Manages(families, projection[i]) ==>
      Fences(projection[i].deadline, start, finish) || HasLease(prefixes, projection[i], start, finish)
  }

  /** Every recorded lease is that of a projected prefix. */
  ghost predicate OnlyLeases(prefixes: seq<TimedPrefix>, projection: seq<TimedPrefix>, families: Option<seq<Family>>,
                             start: nat, finish: nat) {
    forall k :: 0 <= k < |prefixes| ==> Source(prefixes[k], projection, families, start, finish)
  }

  /** The view ends at `finish` when anything fences, and otherwise with the first lease. */
  ghost predicate EndsRight(until: int, prefixes: seq<TimedPrefix>, fenced: bool, finish: nat) {
    if fenced then until == finish
    else if prefixes == [] then until == 0
    else (forall k :: 0 <= k < |prefixes| ==> until <= prefixes[k].deadline) && exists k :: 0 <= k < |prefixes| && until == prefixes[k].deadline
  }

  ghost predicate Recorded(prefixes: seq<TimedPrefix>, until: int, projection: seq<TimedPrefix>,
                           families: Option<seq<Family>>, start: nat, finish: nat) {
    && AllLeased(prefixes, projection, families, start, finish)
    && OnlyLeases(prefixes, projection, families, start, finish)
    && EndsRight(until, prefixes, SomeFence(projection, families, start, finish), finish)
  }

  lemma FenceSnoc(projection: seq<TimedPrefix>, i: nat, families: Option<seq<Family>>, start: nat, finish: nat)
    requires i < |projection|
    ensures SomeFence(projection[..i + 1], families, start, finish) <==>
            SomeFence(projection[..i], families, start, finish) || (Manages(families, projection[i]) && Fences(projection[i].deadline, start, finish))
  {
    assert projection[..i + 1][i] == projection[i];
    assert forall j :: 0 <= j < i ==> projection[..i + 1][j] == projection[..i][j];
  }

  ghost predicate Source(t: TimedPrefix, projection: seq<TimedPrefix>, families: Option<seq<Family>>, start: nat,
                         finish: nat) {
    exists i :: 0 <= i < |projection| && Manages(families, projection[i]) && LeaseFor(t, projection[i], start, finish)
  }

  lemma LeasesSnoc(prefixes: seq<TimedPrefix>, projection: seq<TimedPrefix>, i: nat, families: Option<seq<Family>>,
                   start: nat, finish: nat, more: seq<TimedPrefix>)
    requires i < |projection| && AllLeased(prefixes, projection[..i], families, start, finish)
    requires OnlyLeases(prefixes, projection[..i], families, start, finish)
    requires more == prefixes ||
             (more == prefixes + [TimedPrefix(projection[i].prefix, Expiry(projection[i].deadline, start, finish))] &&
              Manages(families, projection[i]) && !Fences(projection[i].deadline, start, finish))
    requires Manages(families, projection[i]) && !Fences(projection[i].deadline, start, finish) ==> more != prefixes
    ensures AllLeased(more, projection[..i + 1], families, start, finish) && OnlyLeases(more, projection[..i + 1], families, start, finish)
  {
    var all, some := projection[..i + 1], projection[..i];
    assert all[i] == projection[i];
    assert forall j :: 0 <= j < i ==> all[j] == some[j];
    forall j | 0 <= j < |all| && Manages(families, all[j]) && !Fences(all[j].deadline, start, finish)
      ensures HasLease(more, all[j], start, finish)
    {
      if j < i {
        assert HasLease(prefixes, some[j], start, finish);
        var k :| 0 <= k < |prefixes| && LeaseFor(prefixes[k], some[j], start, finish);
        assert LeaseFor(more[k], all[j], start, finish);
      } else {
        assert LeaseFor(more[|prefixes|], all[j], start, finish);
      }
    }
    forall k | 0 <= k < |more|
      ensures Source(more[k], all, families, start, finish)
    {
      if k < |prefixes| {
        assert more[k] == prefixes[k] && Source(prefixes[k], some, families, start, finish);
        var j :| 0 <= j < |some| && Manages(families, some[j]) && LeaseFor(prefixes[k], some[j], start, finish);
        assert Manages(families, all[j]) && LeaseFor(more[k], all[j], start, finish);
      } else {
        assert LeaseFor(more[k], all[i], start, finish);
      }
    }
  }

  function Earlier(until: int, t: int): int {
    if until == 0 || t < until then t else until
  }

  lemma EndsSnoc(until: int, prefixes: seq<TimedPrefix>, fenced: bool, finish: nat, t: TimedPrefix)
    requires finish > 0 && EndsRight(until, prefixes, fenced, finish) && forall k :: 0 <= k < |prefixes| ==> prefixes[k].deadline > finish
    ensures EndsRight(Earlier(until, finish), prefixes, true, finish)
    ensures t.deadline > finish ==> EndsRight(Earlier(until, t.deadline), prefixes + [t], fenced, finish)
  {
    var more := prefixes + [t];
    assert more[|prefixes|] == t;
    if t.deadline > finish && !fenced {
      if prefixes != [] && until <= t.deadline {
        var k :| 0 <= k < |prefixes| && until == prefixes[k].deadline;
        assert more[k].deadline == until;
      } else {
        assert more[|prefixes|].deadline == t.deadline;
      }
    }
  }

  /** What one projected prefix adds to the evidence and to the end of the view. */
  ghost predicate Turned(v: TimedPrefix, families: Option<seq<Family>>, start: nat, finish: nat,
                         prefixes: seq<TimedPrefix>, until: int,
                         more: seq<TimedPrefix>, later: int) {
    if !Manages(families, v) then more == prefixes && later == until
    else if Fences(v.deadline, start, finish) then more == prefixes && later == Earlier(until, finish)
    else more == prefixes + [TimedPrefix(v.prefix, Expiry(v.deadline, start, finish))] && later == Earlier(until, Expiry(v.deadline, start, finish))
  }

  ghost predicate RenewTurned(v: TimedPrefix, families: Option<seq<Family>>, start: nat, renewAt: int, later: int) {
    later == if RenewalOf(v, families, start) != 0 then Earlier(renewAt, RenewalOf(v, families, start)) else renewAt
  }

  /** One turn of the loop. */
  lemma RecordStep(prefixes: seq<TimedPrefix>, until: int, projection: seq<TimedPrefix>, i: nat,
                   families: Option<seq<Family>>, start: nat, finish: nat,
                   more: seq<TimedPrefix>, later: int)
    requires finish > 0 && i < |projection| && Recorded(prefixes, until, projection[..i], families, start, finish)
    requires Turned(projection[i], families, start, finish, prefixes, until, more, later)
    ensures Recorded(more, later, projection[..i + 1], families, start, finish)
  {
    var v := projection[i];
    FenceSnoc(projection, i, families, start, finish);
    LeasesSnoc(prefixes, projection, i, families, start, finish, more);
    forall k | 0 <= k < |prefixes|
      ensures prefixes[k].deadline > finish
    {
      assert Source(prefixes[k], projection[..i], families, start, finish);
    }
    EndsSnoc(until, prefixes, SomeFence(projection[..i], families, start, finish), finish, TimedPrefix(v.prefix, Expiry(v.deadline, start, finish)));
  }

  function RenewalOf(v: TimedPrefix, families: Option<seq<Family>>, start: nat): int {
    if Manages(families, v) then LeaseGrant(v.deadline, start, SECOND).1 else 0
  }

  /** The earliest renewal any managed prefix asks for, or zero. */
  ghost predicate RenewsRight(renewAt: int, projection: seq<TimedPrefix>, families: Option<seq<Family>>, start: nat) {
    && (forall i :: 0 <= i < |projection| && RenewalOf(projection[i], families, start) != 0 ==>
          0 != renewAt <= RenewalOf(projection[i], families, start))
    && (renewAt != 0 ==> exists i :: 0 <= i < |projection| && RenewalOf(projection[i], families, start) == renewAt)
  }

  lemma RenewSnoc(renewAt: int, projection: seq<TimedPrefix>, i: nat, families: Option<seq<Family>>, start: nat,
                  later: int)
    requires i < |projection| && RenewsRight(renewAt, projection[..i], families, start)
    requires RenewTurned(projection[i], families, start, renewAt, later)
    ensures RenewsRight(later, projection[..i + 1], families, start)
  {
    var all, some := projection[..i + 1], projection[..i];
    assert all[i] == projection[i];
    assert forall j :: 0 <= j < i ==> all[j] == some[j];
    if renewAt != 0 {
      var j :| 0 <= j < |some| && RenewalOf(some[j], families, start) == renewAt;
      assert RenewalOf(all[j], families, start) == renewAt;
    }
  }

  /** Missing times are filled in, and `finish` never precedes `start`. */
  function Times(start: nat, finish: nat): (r: (nat, nat))
    ensures r.0 <= r.1 && (start > 0 || finish > 0 ==> r.1 > 0)
  {
    var s := if start == 0 then finish else start;
    (s, if finish == 0 || finish < s then s else finish)
  }

  /** The evidence holds the prefix past the write and not past its decision, and for no less than what
      was left when the write began, up to a second, unless the cap says otherwise. */
  ghost predicate EvidenceFor(prefixes: seq<TimedPrefix>, v: TimedPrefix, start: nat, finish: nat) {
    exists k :: 0 <= k < |prefixes| && KeepsUntil(prefixes[k], v, start, finish)
  }

  ghost predicate KeepsUntil(t: TimedPrefix, v: TimedPrefix, start: nat, finish: nat) {
    && t.prefix == v.prefix && finish < t.deadline <= v.deadline
    && (t.deadline == start + MAXIMUM_LEASE || v.deadline - (finish - start) - t.deadline < SECOND)
  }

  lemma LeasedIsKept(prefixes: seq<TimedPrefix>, v: TimedPrefix, start: nat, finish: nat)
    requires v.deadline != 0 && start <= finish && HasLease(prefixes, v, start, finish)
    ensures EvidenceFor(prefixes, v, start, finish)
  {
    var k :| 0 <= k < |prefixes| && LeaseFor(prefixes[k], v, start, finish);
    GrantSeconds(v.deadline, finish);
    assert KeepsUntil(prefixes[k], v, start, finish);
  }

  /** Far enough past the end of the write. */
  ghost predicate Far(deadline: int, start: nat, finish: nat) {
    deadline != 0 && finish < start + MAXIMUM_LEASE && deadline - finish >= finish - start + SECOND
  }

  /** What the record says of the managed prefixes whose deadlines are far enough. */
  lemma FarRecorded(prefixes: seq<TimedPrefix>, until: int, projection: seq<TimedPrefix>, families: Option<seq<Family>>,
                    start: nat, finish: nat)
    requires start <= finish && finish > 0 && Recorded(prefixes, until, projection, families, start, finish)
    ensures forall i :: 0 <= i < |projection| && Manages(families, projection[i]) && Far(projection[i].deadline, start, finish) ==>
              EvidenceFor(prefixes, projection[i], start, finish)
    ensures (forall i :: 0 <= i < |projection| && Manages(families, projection[i]) ==> Far(projection[i].deadline, start, finish)) ==>
              until == 0 || until > finish
  {
    forall i | 0 <= i < |projection| && Manages(families, projection[i]) && Far(projection[i].deadline, start, finish)
      ensures !Fences(projection[i].deadline, start, finish) && EvidenceFor(prefixes, projection[i], start, finish)
    {
      FarDoesNotFence(projection[i].deadline, start, finish);
      LeasedIsKept(prefixes, projection[i], start, finish);
    }
    if forall i :: 0 <= i < |projection| && Manages(families, projection[i]) ==> Far(projection[i].deadline, start, finish) {
      assert !SomeFence(projection, families, start, finish);
      forall k | 0 <= k < |prefixes|
        ensures prefixes[k].deadline > finish
      {
        assert Source(prefixes[k], projection, families, start, finish);
      }
    }
  }

  ghost predicate LongManaged(projection: seq<TimedPrefix>, families: Option<seq<Family>>, start: nat) {
    exists i :: 0 <= i < |projection| && (families.None? || projection[i].prefix.fam in families.value) &&
                projection[i].deadline != 0 && projection[i].deadline - start >= MAXIMUM_LEASE + SECOND
  }

  /** All renewals of one write fall together, halfway through the longest lease. */
  lemma RenewalsTogether(renewAt: int, projection: seq<TimedPrefix>, families: Option<seq<Family>>, start: nat)
    requires RenewsRight(renewAt, projection, families, start)
    ensures renewAt == if LongManaged(projection, families, start) then start + MAXIMUM_LEASE / 2 else 0
  {
    forall i | 0 <= i < |projection|
      ensures RenewalOf(projection[i], families, start) ==
              if Manages(families, projection[i]) && projection[i].deadline != 0 && projection[i].deadline - start >= MAXIMUM_LEASE + SECOND
              then start + MAXIMUM_LEASE / 2 else 0
    {
      RenewalExact(projection[i].deadline, start);
    }
  }

  class CrowdState {
    var renewAt: int
    var leaseValidUntil: int
    var leasePrefixes: seq<TimedPrefix>
    var leaseOperation: nat

    constructor ()
    {
      renewAt, leaseValidUntil, leasePrefixes, leaseOperation := 0, 0, [], 0;
    }

    /** Records one projected prefix. */
    method RecordOne(value: TimedPrefix, families: Option<seq<Family>>, start: nat, finish: nat,
                     prefixes: seq<TimedPrefix>)
      returns (more: seq<TimedPrefix>)
      modifies this`renewAt, this`leaseValidUntil
      ensures RenewTurned(value, families, start, old(renewAt), renewAt)
      ensures Turned(value, families, start, finish, prefixes, old(leaseValidUntil), more, leaseValidUntil)
    {
      if !Manages(families, value) {
        return prefixes;
      }
      var next := LeaseGrant(value.deadline, start, SECOND).1;
      if next != 0 && (renewAt == 0 || next < renewAt) {
        renewAt := next;
      }
      var grant := LeaseGrant(value.deadline, finish, SECOND).0;
      var expiry := start + grant;
      if grant <= 0 || expiry <= finish {
        if leaseValidUntil == 0 || finish < leaseValidUntil {
          leaseValidUntil := finish;
        }
        return prefixes;
      }
      more := prefixes + [TimedPrefix(value.prefix, expiry)];
      if leaseValidUntil == 0 || expiry < leaseValidUntil {
        leaseValidUntil := expiry;
      }
    }

    /** Records the leases a write between `start` and `finish` is sure to have taken. */
    method RecordLeases(projection: seq<TimedPrefix>, start0: nat, finish0: nat, operation: nat,
                        families: Option<seq<Family>>)
      modifies this
      ensures leaseOperation == operation
      ensures var (start, finish) := Times(start0, finish0);
              && RenewsRight(renewAt, projection, families, start)
              && (finish > 0 ==> Recorded(leasePrefixes, leaseValidUntil, projection, families, start, finish))
      ensures var start := if start0 == 0 then finish0 else start0;
              renewAt == if LongManaged(projection, families, start) then start + MAXIMUM_LEASE / 2 else 0
      ensures 0 < start0 <= finish0 ==>
                forall v :: v in projection && (families.None? || v.prefix.fam in families.value) && Far(v.deadline, start0, finish0) ==>
                  EvidenceFor(leasePrefixes, v, start0, finish0)
      ensures 0 < start0 <= finish0 ==>
                (forall v :: v in projection && (families.None? || v.prefix.fam in families.value) ==> Far(v.deadline, start0, finish0)) ==>
                  leaseValidUntil == 0 || leaseValidUntil > finish0
    {
      var start := if start0 == 0 then finish0 else start0;
      var finish := if finish0 == 0 || finish0 < start then start else finish0;
      renewAt, leaseValidUntil, leaseOperation := 0, 0, operation;
      var prefixes: seq<TimedPrefix> := [];
      for i := 0 to |projection|
        invariant finish > 0 ==> Recorded(prefixes, leaseValidUntil, projection[..i], families, start, finish)
        invariant leaseOperation == operation && RenewsRight(renewAt, projection[..i], families, start)
      {
        ghost var before, until, renew := prefixes, leaseValidUntil, renewAt;
        prefixes := RecordOne(projection[i], families, start, finish, prefixes);
        RenewSnoc(renew, projection, i, families, start, renewAt);
        if finish > 0 {
          RecordStep(before, until, projection, i, families, start, finish, prefixes, leaseValidUntil);
        }
      }
      assert projection[..|projection|] == projection;
      leasePrefixes := prefixes;
      RenewalsTogether(renewAt, projection, families, start);
      if finish > 0 {
        FarRecorded(prefixes, leaseValidUntil, projection, families, start, finish);
      }
    }
  }

  // ---------- Native leases ----------

  /** The kernel entry written at `written` with the grant computed at `computed` runs out here. */
  function NativeExpiry(deadline: int, computed: nat, written: nat): int {
    written + Grant(deadline, computed)
  }

  /** For any dispatch between start and finish, a recorded lease is no later than the native
      one and no later than the decision, and the native entry exists. */
  lemma RecordedIsConservative(deadline: int, start: nat, finish: nat, computed: nat, written: nat)
    requires start <= computed <= written <= finish && !Fences(deadline, start, finish)
    ensures Grant(deadline, computed) > 0
    ensures Expiry(deadline, start, finish) <= NativeExpiry(deadline, computed, written)
    ensures Expiry(deadline, start, finish) <= deadline
  {
    GrantShrinks(deadline, computed, finish);
  }

  /** The evidence the lookup is given. */
  function EvidenceOf(prefixes: seq<TimedPrefix>, until: int, decisions: seq<Decision>): Evidence {
    Evidence(prefixes, decisions, if until == 0 then None else Some(until))
  }

  /** The prefix is in the evidence, and the kernel still holds it at `now`, however the
      write was scheduled. */
  ghost predicate StillEnforced(v: TimedPrefix, prefixes: seq<TimedPrefix>, start: nat, finish: nat, now: int) {
    && HasLease(prefixes, v, start, finish) && now < v.deadline
    && forall computed: nat, written: nat :: start <= computed <= written <= finish ==> now < NativeExpiry(v.deadline, computed, written)
  }

  /** While the view is valid, every managed projected prefix is still enforced. */
  lemma ValidViewEnforced(prefixes: seq<TimedPrefix>, until: int, projection: seq<TimedPrefix>,
                          families: Option<seq<Family>>,
                          start: nat, finish: nat, now: int, i: nat)
    requires start <= finish && finish > 0 && Recorded(prefixes, until, projection, families, start, finish) && finish <= now
    requires until == 0 || now < until
    requires i < |projection| && Manages(families, projection[i])
    ensures StillEnforced(projection[i], prefixes, start, finish, now)
  {
    var v := projection[i];
    assert !SomeFence(projection, families, start, finish);
    assert HasLease(prefixes, v, start, finish);
    var k :| 0 <= k < |prefixes| && LeaseFor(prefixes[k], v, start, finish);
    assert until <= prefixes[k].deadline;
    forall computed: nat, written: nat | start <= computed <= written <= finish
      ensures now < NativeExpiry(v.deadline, computed, written)
    {
      RecordedIsConservative(v.deadline, start, finish, computed, written);
    }
    GrantShrinks(v.deadline, finish, finish);
  }

  /** A complete answer never rests on a lapsed lease: at that time the kernel still holds
      every prefix that was projected for a managed family. */
  method AnswerFromLeases(view: Static, crowd: CrowdState, projection: seq<TimedPrefix>, families: Option<seq<Family>>,
                          ghost start: nat, ghost finish: nat,
                          decisions: seq<Decision>, query: Prefix, q: Request, now: int, explain: Explain)
    returns (r: Response)
    requires view.Ready() && view.Indexed() && view.crowdsec && query.Valid() && q.Normalized()
    requires start <= finish && finish > 0 && finish <= now
    requires Recorded(crowd.leasePrefixes, crowd.leaseValidUntil, projection, families, start, finish)
    ensures r.Complete? ==> forall i :: 0 <= i < |projection| && Manages(families, projection[i]) ==>
              StillEnforced(projection[i], crowd.leasePrefixes, start, finish, now)
  {
    ghost var job;
    r, job := view.Evaluate(EvidenceOf(crowd.leasePrefixes, crowd.leaseValidUntil, decisions), query, q, now, explain);
    if r.Complete? {
      forall i | 0 <= i < |projection| && Manages(families, projection[i])
        ensures StillEnforced(projection[i], crowd.leasePrefixes, start, finish, now)
      {
        ValidViewEnforced(crowd.leasePrefixes, crowd.leaseValidUntil, projection, families, start, finish, now, i);
      }
    }
  }
}
