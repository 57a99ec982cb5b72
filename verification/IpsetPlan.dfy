/** Updating a live set of timed entries by a command script that may stop anywhere
    (internal/firewall/iptables.go:208-292).

    The script deletes what is no longer wanted, adds or refreshes the rest, and moves to
    a larger set through a spare one when the wanted entries do not fit.
 */
module IpsetPlan {
  import opened Basics
  import opened Sorting
  import opened Text

  type Name = string
  type Entry = string
  type Timeouts = map<Entry, nat>

  // ---------- The kernel ----------

  datatype KernelSet = KernelSet(capacity: nat, entries: Timeouts)

  type Kernel = map<Name, KernelSet>

  datatype Command =
    | Destroy(name: Name)
    | Create(name: Name, capacity: nat)
    | Del(name: Name, entry: Entry)
    | Add(name: Name, entry: Entry, timeout: nat)
    | Swap(name: Name, other: Name)

  /** One line of `ipset restore`; `None` when the kernel refuses it. */
  function Exec(k: Kernel, c: Command): Option<Kernel> {
    match c
    case Destroy(n) => if n in k then Some(k - {n}) else None
    case Create(n, capacity) => if n in k then None else Some(k[n := KernelSet(capacity, map[])])
    case Del(n, e) => if n in k then Some(k[n := k[n].(entries := k[n].entries - {e})]) else None
    case Add(n, e, t) =>
      if n !in k || (e !in k[n].entries && |k[n].entries| >= k[n].capacity) then None
      else Some(k[n := k[n].(entries := k[n].entries[e := t])])
    case Swap(n, o) => if n in k && o in k then Some(k[n := k[o]][o := k[n]]) else None
  }

  function Run(k: Kernel, cs: seq<Command>): Option<Kernel>
    decreases |cs|
  {
    if cs == [] then Some(k)
    else match Exec(k, cs[0])
      case None => None
      case Some(next) => Run(next, cs[1..])
  }

  /** No set holds more than it may. */
  ghost predicate WellFormed(k: Kernel) {
    forall n :: n in k ==> |k[n].entries| <= k[n].capacity
  }

  /** The live set, its spare, and everything that must survive. */
  datatype Goal = Goal(live: Name, spare: Name, before: Kernel, desired: Timeouts)

  /** What holds between any two lines: sets within capacity, the live set still there with
      every entry that is both old and wanted, and no other set touched. */
  ghost predicate Good(g: Goal, k: Kernel) {
    && WellFormed(k)
    && (g.live in g.before ==> g.live in k && forall e :: e in g.before[g.live].entries && e in g.desired ==> e in k[g.live].entries)
    && (forall n :: n != g.live && n != g.spare ==> (n in k <==> n in g.before) && (n in k ==> k[n] == g.before[n]))
  }

  ghost function GoodFor(g: Goal): Kernel -> bool {
    k => Good(g, k)
  }

  /** Every line succeeds and every state on the way is good. */
  ghost predicate Safe(good: Kernel -> bool, k: Kernel, cs: seq<Command>)
    decreases |cs|
  {
    good(k) && (cs == [] || (Exec(k, cs[0]).Some? && Safe(good, Exec(k, cs[0]).value, cs[1..])))
  }

  lemma {:induction false} SafeRuns(good: Kernel -> bool, k: Kernel, cs: seq<Command>, n: nat)
    requires Safe(good, k, cs) && n <= |cs|
    ensures Run(k, cs[..n]).Some? && good(Run(k, cs[..n]).value)
    decreases n
  {
    if n > 0 {
      SafeRuns(good, Exec(k, cs[0]).value, cs[1..], n - 1);
      assert cs[..n][1..] == cs[1..][..n - 1];
    }
  }

  lemma SafeEnds(good: Kernel -> bool, k: Kernel, cs: seq<Command>)
    requires Safe(good, k, cs)
    ensures Run(k, cs).Some? && good(Run(k, cs).value)
  {
    SafeRuns(good, k, cs, |cs|);
    assert cs[..|cs|] == cs;
  }

  lemma {:induction false} SafeAppend(good: Kernel -> bool, k: Kernel, a: seq<Command>, b: seq<Command>)
    requires Safe(good, k, a) && Run(k, a).Some? && Safe(good, Run(k, a).value, b)
    ensures Safe(good, k, a + b) && Run(k, a + b) == Run(Run(k, a).value, b)
    decreases |a|
  {
    if a == [] {
      assert a + b == b;
    } else {
      var next := Exec(k, a[0]).value;
      assert (a + b)[1..] == a[1..] + b;
      SafeAppend(good, next, a[1..], b);
    }
  }

  // ---------- Capacity ----------

  const INITIAL_CAPACITY := 65536
  const MAX_INT := 0x7fff_ffff_ffff_ffff

  /** Doubled from the initial capacity until it is enough. */
  method DynamicCapacity(needed: nat) returns (capacity: nat)
    ensures capacity >= needed && capacity >= INITIAL_CAPACITY
    ensures needed <= INITIAL_CAPACITY ==> capacity == INITIAL_CAPACITY
    ensures INITIAL_CAPACITY < needed <= MAX_INT / 2 ==> capacity < 2 * needed
  {
    capacity := INITIAL_CAPACITY;
    while capacity < needed && capacity <= MAX_INT / 2
      invariant capacity >= INITIAL_CAPACITY
      invariant needed <= INITIAL_CAPACITY ==> capacity == INITIAL_CAPACITY
      invariant INITIAL_CAPACITY < needed ==> capacity < 2 * needed
      decreases needed - capacity
    {
      capacity := 2 * capacity;
    }
    if capacity < needed {
      capacity := needed;
    }
  }

  // ---------- The script ----------

  function Deletes(name: Name, listed: seq<Entry>, desired: Timeouts): seq<Command> {
    if listed == [] then []
    else
      var n := |listed| - 1;
      Deletes(name, listed[..n], desired) + (if listed[n] in desired then [] else [Del(name, listed[n])])
  }

  /** Entries already there with the wanted timeout are left alone. */
  predicate UpToDate(observed: Timeouts, desired: Timeouts, e: Entry) {
    e in observed && e in desired && observed[e] == desired[e]
  }

  function Adds(name: Name, order: seq<Entry>, desired: Timeouts, observed: Timeouts): seq<Command>
    requires forall i :: 0 <= i < |order| ==> order[i] in desired
  {
    if order == [] then []
    else
      var n := |order| - 1;
      Adds(name, order[..n], desired, observed) +
      (if UpToDate(observed, desired, order[n]) then [] else [Add(name, order[n], desired[order[n]])])
  }

  /** The entries and the sorted wanted entries a script is written from. */
  ghost predicate Lists(s: seq<Entry>, m: Timeouts) {
    forall e :: e in s <==> e in m
  }

  lemma SubsetSize(a: set<Entry>, b: set<Entry>)
    requires a <= b
    ensures |a| <= |b|
  {
    assert b == a + (b - a);
  }

  lemma SizeOfKeys(m: Timeouts)
    ensures |m| == |m.Keys|
  {
  }

  lemma SmallerMap(m: Timeouts, n: Timeouts)
    requires m.Keys <= n.Keys
    ensures |m| <= |n|
  {
    SubsetSize(m.Keys, n.Keys);
    SizeOfKeys(m);
    SizeOfKeys(n);
  }

  ghost function Without(m: Timeouts, listed: seq<Entry>, desired: Timeouts): Timeouts {
    map e | e in m && (e !in listed || e in desired) :: m[e]
  }

  /** Replacing the entries of the live set or of the spare keeps a good state good. */
  lemma GoodEntries(g: Goal, k: Kernel, name: Name, entries: Timeouts)
    requires Good(g, k) && name in k && |entries| <= k[name].capacity && (name == g.live || name == g.spare) && g.live != g.spare
    requires name == g.live && g.live in g.before ==> forall e :: e in g.before[g.live].entries && e in g.desired ==> e in entries
    ensures Good(g, WithEntries(k, name, entries))
  {
  }

  lemma OneSafe(good: Kernel -> bool, k: Kernel, c: Command, next: Kernel)
    requires good(k) && Exec(k, c) == Some(next) && good(next)
    ensures Safe(good, k, [c]) && Run(k, [c]) == Some(next)
  {
    assert [c][1..] == [];
  }

  ghost function WithEntries(k: Kernel, name: Name, entries: Timeouts): Kernel
    requires name in k
  {
    k[name := k[name].(entries := entries)]
  }

  lemma Overwritten(k: Kernel, name: Name, m: Timeouts, next: Timeouts)
    requires name in k
    ensures WithEntries(WithEntries(k, name, m), name, next) == WithEntries(k, name, next)
  {
  }

  lemma DeleteOne(g: Goal, k: Kernel, m: Timeouts, e: Entry)
    requires g.live != g.spare && g.live in k && Good(g, WithEntries(k, g.live, m)) && e !in g.desired
    ensures Exec(WithEntries(k, g.live, m), Del(g.live, e)) == Some(WithEntries(k, g.live, m - {e}))
    ensures Good(g, WithEntries(k, g.live, m - {e}))
  {
    var next := m - {e};
    assert next.Keys <= m.Keys;
    SmallerMap(next, m);
    Overwritten(k, g.live, m, next);
    GoodEntries(g, WithEntries(k, g.live, m), g.live, next);
  }

  lemma WithoutSnoc(m: Timeouts, front: seq<Entry>, e: Entry, desired: Timeouts)
    ensures Without(m, front + [e], desired) == if e in desired then Without(m, front, desired) else Without(m, front, desired) - {e}
  {
  }

  lemma {:induction false} DeletesSafe(g: Goal, k: Kernel, listed: seq<Entry>)
    requires Good(g, k) && g.live in k && g.live != g.spare
    ensures Safe(GoodFor(g), k, Deletes(g.live, listed, g.desired))
    ensures Run(k, Deletes(g.live, listed, g.desired)) == Some(WithEntries(k, g.live, Without(k[g.live].entries, listed, g.desired)))
    decreases |listed|
  {
    var m := k[g.live].entries;
    if listed == [] {
      assert Without(m, listed, g.desired) == m;
      assert WithEntries(k, g.live, m) == k;
    } else {
      var n := |listed| - 1;
      var e, front := listed[n], listed[..n];
      assert listed == front + [e];
      DeletesSafe(g, k, front);
      WithoutSnoc(m, front, e, g.desired);
      var cs := Deletes(g.live, front, g.desired);
      if e in g.desired {
        assert Deletes(g.live, listed, g.desired) == cs;
      } else {
        var m1 := Without(m, front, g.desired);
        SafeEnds(GoodFor(g), k, cs);
        DeleteOne(g, k, m1, e);
        OneSafe(GoodFor(g), WithEntries(k, g.live, m1), Del(g.live, e), WithEntries(k, g.live, m1 - {e}));
        SafeAppend(GoodFor(g), k, cs, [Del(g.live, e)]);
      }
    }
  }

  /** The entries after adding the listed ones that were not up to date. */
  ghost function Filled(m: Timeouts, order: seq<Entry>, desired: Timeouts, observed: Timeouts): Timeouts
    requires forall i :: 0 <= i < |order| ==> order[i] in desired
  {
    if order == [] then m
    else
      var n := |order| - 1;
      var rest := Filled(m, order[..n], desired, observed);
      if UpToDate(observed, desired, order[n]) then rest else rest[order[n] := desired[order[n]]]
  }

  lemma {:induction false} FilledIs(m: Timeouts, order: seq<Entry>, desired: Timeouts, observed: Timeouts)
    requires (forall i :: 0 <= i < |order| ==> order[i] in desired) && m.Keys <= desired.Keys
    ensures var f := Filled(m, order, desired, observed);
            && m.Keys <= f.Keys <= desired.Keys
            && (forall e :: e in order && !UpToDate(observed, desired, e) ==> e in f && f[e] == desired[e])
            && (forall e :: e in m && (e !in order || UpToDate(observed, desired, e)) ==> f[e] == m[e])
    decreases |order|
  {
    if order != [] {
      var n := |order| - 1;
      FilledIs(m, order[..n], desired, observed);
      assert order == order[..n] + [order[n]];
    }
  }

  lemma AddOne(g: Goal, k: Kernel, name: Name, m: Timeouts, e: Entry)
    requires name in k && (name == g.live || name == g.spare) && g.live != g.spare && Good(g, WithEntries(k, name, m))
    requires e in g.desired && m.Keys <= g.desired.Keys && |g.desired| <= k[name].capacity
    ensures Exec(WithEntries(k, name, m), Add(name, e, g.desired[e])) == Some(WithEntries(k, name, m[e := g.desired[e]]))
    ensures Good(g, WithEntries(k, name, m[e := g.desired[e]]))
  {
    var next := m[e := g.desired[e]];
    SmallerMap(next, g.desired);
    assert next.Keys == m.Keys + {e};
    SizeOfKeys(m);
    SizeOfKeys(next);
    Overwritten(k, name, m, next);
    GoodEntries(g, WithEntries(k, name, m), name, next);
  }

  lemma {:induction false} AddsSafe(g: Goal, k: Kernel, name: Name, order: seq<Entry>, observed: Timeouts)
    requires Good(g, k) && name in k && (name == g.live || name == g.spare) && g.live != g.spare
    requires k[name].entries.Keys <= g.desired.Keys && |g.desired| <= k[name].capacity
    requires forall i :: 0 <= i < |order| ==> order[i] in g.desired
    ensures Safe(GoodFor(g), k, Adds(name, order, g.desired, observed))
    ensures Run(k, Adds(name, order, g.desired, observed)) == Some(WithEntries(k, name, Filled(k[name].entries, order, g.desired, observed)))
    decreases |order|
  {
    var m := k[name].entries;
    if order == [] {
      assert WithEntries(k, name, m) == k;
    } else {
      var n := |order| - 1;
      var e, front := order[n], order[..n];
      AddsSafe(g, k, name, front, observed);
      var cs := Adds(name, front, g.desired, observed);
      if UpToDate(observed, g.desired, e) {
        assert Adds(name, order, g.desired, observed) == cs;
      } else {
        var m1 := Filled(m, front, g.desired, observed);
        FilledIs(m, front, g.desired, observed);
        SafeEnds(GoodFor(g), k, cs);
        AddOne(g, k, name, m1, e);
        OneSafe(GoodFor(g), WithEntries(k, name, m1), Add(name, e, g.desired[e]), WithEntries(k, name, m1[e := g.desired[e]]));
        SafeAppend(GoodFor(g), k, cs, [Add(name, e, g.desired[e])]);
      }
    }
  }

  // ---------- The whole script ----------

  /** The live set holds exactly what is wanted, and the spare is gone. */
  ghost predicate Reached(g: Goal, k: Kernel) {
    && Good(g, k) && g.spare !in k && g.live in k && k[g.live].entries == g.desired
  }

  ghost predicate Achieves(g: Goal, k: Kernel, cs: seq<Command>) {
    Safe(GoodFor(g), k, cs) && Run(k, cs).Some? && Reached(g, Run(k, cs).value)
  }

  lemma AchievesAfter(g: Goal, k: Kernel, a: seq<Command>, next: Kernel, b: seq<Command>)
    requires Safe(GoodFor(g), k, a) && Run(k, a) == Some(next) && Achieves(g, next, b)
    ensures Achieves(g, k, a + b)
  {
    SafeAppend(GoodFor(g), k, a, b);
  }

  /** Filling from a part of what is wanted gives all of it. */
  lemma FilledAll(m: Timeouts, order: seq<Entry>, desired: Timeouts, observed: Timeouts)
    requires m.Keys <= desired.Keys && Lists(order, desired)
    requires forall e :: UpToDate(observed, desired, e) ==> e in m && m[e] == desired[e]
    ensures Filled(m, order, desired, observed) == desired
  {
    var f := Filled(m, order, desired, observed);
    FilledIs(m, order, desired, observed);
    forall e | e in desired
      ensures e in f && f[e] == desired[e]
    {
      assert e in order;
      assert UpToDate(observed, desired, e) ==> e in m && m[e] == desired[e];
    }
    assert f.Keys == desired.Keys;
  }

  /** Populating a set that exists and is large enough. */
  lemma FillAchieves(g: Goal, k: Kernel, order: seq<Entry>, observed: Timeouts)
    requires Good(g, k) && g.live in k && g.spare !in k && g.live != g.spare && |g.desired| <= k[g.live].capacity
    requires k[g.live].entries.Keys <= g.desired.Keys && Lists(order, g.desired)
    requires forall e :: UpToDate(observed, g.desired, e) ==> e in k[g.live].entries && k[g.live].entries[e] == g.desired[e]
    ensures Achieves(g, k, Adds(g.live, order, g.desired, observed))
  {
    AddsSafe(g, k, g.live, order, observed);
    SafeEnds(GoodFor(g), k, Adds(g.live, order, g.desired, observed));
    FilledAll(k[g.live].entries, order, g.desired, observed);
  }

  lemma InPlaceAchieves(g: Goal, k: Kernel, listed: seq<Entry>, order: seq<Entry>)
    requires Good(g, k) && g.live in k && g.spare !in k && g.live != g.spare && |g.desired| <= k[g.live].capacity
    requires Lists(listed, k[g.live].entries) && Lists(order, g.desired)
    ensures Achieves(g, k, Deletes(g.live, listed, g.desired) + Adds(g.live, order, g.desired, k[g.live].entries))
  {
    var m := k[g.live].entries;
    DeletesSafe(g, k, listed);
    SafeEnds(GoodFor(g), k, Deletes(g.live, listed, g.desired));
    var next := WithEntries(k, g.live, Without(m, listed, g.desired));
    FillAchieves(g, next, order, m);
    AchievesAfter(g, k, Deletes(g.live, listed, g.desired), next, Adds(g.live, order, g.desired, m));
  }

  lemma CreateAchieves(g: Goal, k: Kernel, capacity: nat, order: seq<Entry>)
    requires Good(g, k) && g.live !in k && g.live !in g.before && g.spare !in k && g.live != g.spare
    requires capacity >= |g.desired| && Lists(order, g.desired)
    ensures Achieves(g, k, [Create(g.live, capacity)] + Adds(g.live, order, g.desired, map[]))
  {
    var next := k[g.live := KernelSet(capacity, map[])];
    assert Good(g, next);
    OneSafe(GoodFor(g), k, Create(g.live, capacity), next);
    FillAchieves(g, next, order, map[]);
    AchievesAfter(g, k, [Create(g.live, capacity)], next, Adds(g.live, order, g.desired, map[]));
  }

  /** The old live set moves to the spare name and is destroyed. */
  lemma SwapAchieves(g: Goal, k: Kernel)
    requires Good(g, k) && g.live in k && g.spare in k && g.live != g.spare && k[g.spare].entries == g.desired
    ensures Achieves(g, k, [Swap(g.spare, g.live)] + [Destroy(g.spare)])
  {
    var swapped := k[g.spare := k[g.live]][g.live := k[g.spare]];
    var done := swapped - {g.spare};
    assert Good(g, swapped) && Good(g, done);
    OneSafe(GoodFor(g), k, Swap(g.spare, g.live), swapped);
    OneSafe(GoodFor(g), swapped, Destroy(g.spare), done);
    AchievesAfter(g, k, [Swap(g.spare, g.live)], swapped, [Destroy(g.spare)]);
  }

  lemma ResizeAchieves(g: Goal, k: Kernel, capacity: nat, order: seq<Entry>)
    requires Good(g, k) && g.live in k && g.spare !in k && g.live != g.spare && capacity >= |g.desired| && Lists(order, g.desired)
    ensures Achieves(g, k, [Create(g.spare, capacity)] + (Adds(g.spare, order, g.desired, map[]) + ([Swap(g.spare, g.live)] + [Destroy(g.spare)])))
  {
    var adds, finish := Adds(g.spare, order, g.desired, map[]), [Swap(g.spare, g.live)] + [Destroy(g.spare)];
    var created := k[g.spare := KernelSet(capacity, map[])];
    assert Good(g, created);
    OneSafe(GoodFor(g), k, Create(g.spare, capacity), created);
    AddsSafe(g, created, g.spare, order, map[]);
    SafeEnds(GoodFor(g), created, adds);
    var f := Filled(map[], order, g.desired, map[]);
    FilledAll(map[], order, g.desired, map[]);
    var filled := WithEntries(created, g.spare, f);
    SwapAchieves(g, filled);
    AchievesAfter(g, created, adds, filled, finish);
    AchievesAfter(g, k, [Create(g.spare, capacity)], created, adds + finish);
  }

  /** What the planner reads: the live set, if it exists, and the entries in listed order. */
  ghost predicate Observed(k: Kernel, live: Name, listed: seq<Entry>) {
    if live in k then Lists(listed, k[live].entries) else listed == []
  }

  method AppendDeletes(cs: seq<Command>, name: Name, listed: seq<Entry>, desired: Timeouts) returns (r: seq<Command>)
    ensures r == cs + Deletes(name, listed, desired)
  {
    r := cs;
    for i := 0 to |listed|
      invariant r == cs + Deletes(name, listed[..i], desired)
    {
      assert listed[..i + 1][..i] == listed[..i];
      if listed[i] !in desired {
        r := r + [Del(name, listed[i])];
      }
    }
    assert listed[..|listed|] == listed;
  }

  /** A missing entry reads as timeout zero, which no grant is. */
  method AppendAdds(cs: seq<Command>, name: Name, order: seq<Entry>, desired: Timeouts, observed: Timeouts)
    returns (r: seq<Command>)
    requires (forall i :: 0 <= i < |order| ==> order[i] in desired) && forall e :: e in desired ==> desired[e] > 0
    ensures r == cs + Adds(name, order, desired, observed)
  {
    r := cs;
    for i := 0 to |order|
      invariant r == cs + Adds(name, order[..i], desired, observed)
    {
      assert order[..i + 1][..i] == order[..i];
      var seen := if order[i] in observed then observed[order[i]] else 0;
      if seen != desired[order[i]] {
        r := r + [Add(name, order[i], desired[order[i]])];
      }
    }
    assert order[..|order|] == order;
  }

  method SortedEntries(desired: Timeouts) returns (order: seq<Entry>)
    ensures Lists(order, desired) && SortedBy(StrLeq, order)
  {
    var left, all: seq<Entry> := desired.Keys, [];
    while left != {}
      invariant left <= desired.Keys && forall e :: e in all <==> e in desired.Keys - left
      decreases left
    {
      var e :| e in left;
      all := all + [e];
      left := left - {e};
    }
    forall a, b
      ensures StrLeq(a, b) || StrLeq(b, a)
    {
      StrTotal(a, b);
    }
    forall a, b, c | StrLeq(a, b) && StrLeq(b, c)
      ensures StrLeq(a, c)
    {
      StrTransitive(a, b, c);
    }
    order := Sort(StrLeq, all);
    SameElements(order, all);
  }

  /** What follows the removal of a left-over spare: resize by swapping, change in place, or create. */
  method Tail(k: Kernel, ghost clean: Kernel, live: Name, spare: Name, listed: seq<Entry>, desired: Timeouts,
              order: seq<Entry>,
              capacity: nat, ghost g: Goal)
    returns (tail: seq<Command>)
    requires live != spare && g == Goal(live, spare, k, desired) && clean == k - {spare} && Good(g, clean)
    requires Observed(k, live, listed) && Lists(order, desired) && capacity >= |desired|
    requires forall e :: e in desired ==> desired[e] > 0
    ensures Achieves(g, clean, tail)
  {
    if live in k && |desired| > k[live].capacity {
      tail := Resize(live, spare, desired, order, capacity);
      ResizeAchieves(g, clean, capacity, order);
    } else if live in k {
      var dels := AppendDeletes([], live, listed, desired);
      tail := AppendAdds(dels, live, order, desired, k[live].entries);
      assert dels == Deletes(live, listed, desired);
      InPlaceAchieves(g, clean, listed, order);
    } else {
      tail := AppendAdds([Create(live, capacity)], live, order, desired, map[]);
      CreateAchieves(g, clean, capacity, order);
    }
  }

  /** Fills a larger set under the spare name, swaps it in, and destroys the old one. */
  method Resize(live: Name, spare: Name, desired: Timeouts, order: seq<Entry>, capacity: nat)
    returns (tail: seq<Command>)
    requires Lists(order, desired) && forall e :: e in desired ==> desired[e] > 0
    ensures (forall i :: 0 <= i < |order| ==> order[i] in desired) &&
            tail == [Create(spare, capacity)] + (Adds(spare, order, desired, map[]) + ([Swap(spare, live)] + [Destroy(spare)]))
  {
    var adds := AppendAdds([], spare, order, desired, map[]);
    assert adds == Adds(spare, order, desired, map[]);
    tail := [Create(spare, capacity)] + (adds + ([Swap(spare, live)] + [Destroy(spare)]));
  }

  /** Planned from any well-formed kernel, the script leaves the live set with exactly the
      wanted entries and timeouts and no spare, and keeps every state on the way good. */
  method AppendDynamicIPSet(k: Kernel, live: Name, spare: Name, listed: seq<Entry>, desired: Timeouts)
    returns (cs: seq<Command>)
    requires live != spare && WellFormed(k) && Observed(k, live, listed) && forall e :: e in desired ==> desired[e] > 0
    ensures Achieves(Goal(live, spare, k, desired), k, cs)
  {
    ghost var g := Goal(live, spare, k, desired);
    assert Good(g, k);
    var order := SortedEntries(desired);
    var capacity := DynamicCapacity(|desired|);
    var head: seq<Command> := if spare in k then [Destroy(spare)] else [];
    ghost var clean := k - {spare};
    assert Safe(GoodFor(g), k, head) && Run(k, head) == Some(clean) by {
      DropSpare(g);
    }
    var tail := Tail(k, clean, live, spare, listed, desired, order, capacity, g);
    AchievesAfter(g, k, head, clean, tail);
    cs := head + tail;
  }

  lemma DropSpare(g: Goal)
    requires g.live != g.spare && WellFormed(g.before)
    ensures var k := g.before; var head := if g.spare in k then [Destroy(g.spare)] else [];
            Safe(GoodFor(g), k, head) && Run(k, head) == Some(k - {g.spare}) && Good(g, k - {g.spare})
  {
    var k := g.before;
    assert Good(g, k) && Good(g, k - {g.spare});
    if g.spare in k {
      OneSafe(GoodFor(g), k, Destroy(g.spare), k - {g.spare});
    } else {
      assert k - {g.spare} == k;
    }
  }

  /** The script stops after any number of lines; planning again from what is then observed
      still ends with exactly the wanted entries. */
  method StopAndReplan(k: Kernel, live: Name, spare: Name, listed: seq<Entry>, desired: Timeouts, stop: nat)
    returns (stopped: Kernel, ended: Kernel)
    requires live != spare && WellFormed(k) && Observed(k, live, listed) && forall e :: e in desired ==> desired[e] > 0
    ensures Good(Goal(live, spare, k, desired), stopped)
    ensures Reached(Goal(live, spare, stopped, desired), ended)
  {
    var cs := AppendDynamicIPSet(k, live, spare, listed, desired);
    var n := if stop < |cs| then stop else |cs|;
    SafeRuns(GoodFor(Goal(live, spare, k, desired)), k, cs, n);
    stopped := Run(k, cs[..n]).value;
    var again: seq<Entry> := [];
    if live in stopped {
      again := SortedEntries(stopped[live].entries);
    }
    var rest := AppendDynamicIPSet(stopped, live, spare, again, desired);
    ended := Run(stopped, rest).value;
  }

  // ---------- Restoring in pieces ----------

  const NEWLINE := '\n'

  ghost predicate WholeLines(s: string) {
    s != "" && s[|s| - 1] == NEWLINE
  }

  function Join(chunks: seq<string>): string {
    if chunks == [] then "" else Join(chunks[..|chunks| - 1]) + chunks[|chunks| - 1]
  }

  /** One past the last newline of the first `size` characters, or zero. */
  method LastLine(s: string, size: nat) returns (n: nat)
    requires size <= |s|
    ensures n <= size && (n > 0 ==> s[n - 1] == NEWLINE)
    ensures forall i :: n <= i < size ==> s[i] != NEWLINE
  {
    n := size;
    while n > 0 && s[n - 1] != NEWLINE
      invariant n <= size && forall i :: n <= i < size ==> s[i] != NEWLINE
    {
      n := n - 1;
    }
  }

  /** No newline among the `n` characters from `from`, with more to come. */
  ghost predicate NoBreak(s: string, from: nat, n: nat) {
    from + n < |s| && forall i :: from <= i < from + n ==> s[i] != NEWLINE
  }

  /** Some line, newline included, does not fit the limit. */
  ghost predicate LongLine(s: string, limit: nat) {
    exists from: nat :: NoBreak(s, from, limit)
  }

  /** A whole number of lines ends there, or the text does. */
  ghost predicate Breaks(s: string, j: nat) {
    0 < j <= |s| && (j == |s| || s[j - 1] == NEWLINE)
  }

  /** No whole line, and not the rest, fits behind a piece of this length. */
  ghost predicate Exceeds(length: nat, rest: string, limit: nat) {
    forall j: nat :: Breaks(rest, j) ==> length + j > limit
  }

  /** No piece could have taken in another line of the next one, nor all of it. */
  ghost predicate Packed(chunks: seq<string>, limit: nat) {
    forall i :: 0 <= i < |chunks| - 1 ==> Exceeds(|chunks[i]|, chunks[i + 1], limit)
  }

  lemma PackedNext(chunks: seq<string>, rest: string, size: nat, limit: nat)
    requires Packed(chunks, limit) && Breaks(rest, size)
    requires chunks != [] ==> Exceeds(|chunks[|chunks| - 1]|, rest, limit)
    requires forall j: nat :: Breaks(rest, j) && j > size ==> j > limit
    ensures Packed(chunks + [rest[..size]], limit) && Exceeds(size, rest[size..], limit)
  {
    var more := chunks + [rest[..size]];
    forall j: nat | Breaks(rest[..size], j)
      ensures Breaks(rest, j)
    {
    }
    forall i | 0 <= i < |more| - 1
      ensures Exceeds(|more[i]|, more[i + 1], limit)
    {
      if i < |chunks| - 1 {
        assert more[i] == chunks[i] && more[i + 1] == chunks[i + 1];
      } else {
        assert more[i + 1] == rest[..size] && more[i] == chunks[|chunks| - 1];
      }
    }
    forall j: nat | Breaks(rest[size..], j)
      ensures size + j > limit
    {
      assert Breaks(rest, size + j);
    }
  }

  /** What has been cut off so far: pieces within the limit, of whole lines, packed, up to here. */
  ghost predicate Cut(chunks: seq<string>, input: string, at: nat, limit: nat) {
    && at <= |input| && Join(chunks) == input[..at] && Packed(chunks, limit)
    && (forall i :: 0 <= i < |chunks| ==> 0 < |chunks[i]| <= limit)
    && (forall i :: 0 <= i < |chunks| - 1 ==> WholeLines(chunks[i]))
    && (at < |input| && chunks != [] ==> WholeLines(chunks[|chunks| - 1]))
    && (chunks != [] ==> Exceeds(|chunks[|chunks| - 1]|, input[at..], limit))
    && (forall from: nat :: from < at ==> !NoBreak(input, from, limit))
  }

  lemma CutNext(chunks: seq<string>, input: string, at: nat, size: nat, limit: nat)
    requires Cut(chunks, input, at, limit) && 0 < size <= limit && at + size <= |input| && Breaks(input[at..], size)
    requires forall j: nat :: Breaks(input[at..], j) && j > size ==> j > limit
    ensures Cut(chunks + [input[at..][..size]], input, at + size, limit)
  {
    var rest := input[at..];
    var chunk := rest[..size];
    JoinSnoc(chunks, chunk);
    assert input[..at + size] == input[..at] + chunk;
    assert at + size < |input| ==> input[at + size - 1] == rest[size - 1];
    PieceBreaks(input, at, size, limit);
    PackedNext(chunks, rest, size, limit);
    assert input[at + size..] == rest[size..];
  }

  lemma JoinSnoc(chunks: seq<string>, chunk: string)
    ensures Join(chunks + [chunk]) == Join(chunks) + chunk
  {
    assert (chunks + [chunk])[..|chunks|] == chunks;
  }

  /** How much of the rest goes into the next piece; zero when no whole line fits. */
  method NextSize(rest: string, limit: nat) returns (size: nat)
    requires rest != ""
    ensures size <= limit && size <= |rest|
    ensures size == 0 ==> NoBreak(rest, 0, limit)
    ensures 0 < size < |rest| ==> rest[size - 1] == NEWLINE
    ensures forall j: nat :: Breaks(rest, j) && j > size ==> j > limit
  {
    size := if |rest| < limit then |rest| else limit;
    if size < |rest| {
      size := LastLine(rest, size);
    }
  }

  lemma PieceBreaks(input: string, at: nat, size: nat, limit: nat)
    requires at + size <= |input| && size <= limit && (0 < size && at + size < |input| ==> input[at + size - 1] == NEWLINE)
    ensures forall from: nat :: at <= from < at + size ==> !NoBreak(input, from, limit)
  {
  }

  /** Feeds the script in pieces no longer than the limit, cut only between lines and in
      order; refuses exactly when some line does not fit. */
  method RestoreBounded(input: string, limit: nat) returns (chunks: seq<string>, ok: bool)
    ensures forall i :: 0 <= i < |chunks| ==> 0 < |chunks[i]| <= limit
    ensures forall i :: 0 <= i < |chunks| - 1 ==> WholeLines(chunks[i])
    ensures ok ==> Join(chunks) == input
    ensures !ok ==> Join(chunks) <= input
    ensures ok <==> !LongLine(input, limit)
    ensures Packed(chunks, limit)
  {
    chunks := [];
    var at := 0;
    while at < |input|
      invariant Cut(chunks, input, at, limit)
      decreases |input| - at
    {
      var size := NextSize(input[at..], limit);
      if size == 0 {
        assert NoBreak(input, at, limit);
        return chunks, false;
      }
      CutNext(chunks, input, at, size, limit);
      chunks, at := chunks + [input[at..][..size]], at + size;
    }
    assert input[..at] == input;
    return chunks, true;
  }
}
