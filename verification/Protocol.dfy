/** The durable records and the kernel, as values, and what ties them together.

    A record written but not yet synced may or may not survive a crash, so each
    record carries the set of values it may have afterwards.  `Inv` relates every
    combination a crash can leave to what the kernel holds
    (internal/state/store.go, internal/state/filesystem.go:160-220,
    internal/firewall/router.go:76-111).
 */
module Protocol {
  import opened Basics

  type Id = string

  /** Names in the kernel: those made for this owner, and everything else on the host. */
  datatype Name = Own(text: string) | Foreign(text: string)

  // ---------- Targets and the kernel ----------

  /** The objects of a firewall, and where each hook dispatches. */
  datatype Firewall = Firewall(objects: set<Name>, hooks: map<Name, Name>)

  predicate Ours(t: Firewall) {
    (forall x :: x in t.objects ==> x.Own?) && (forall s :: s in t.hooks ==> s.Own?)
  }

  /** A compiled firewall; all its names are derived from the owner (internal/firewall/types.go). */
  type Target = t: Firewall | Ours(t) witness Firewall({}, map[])

  datatype Revision = Revision(id: Id, epoch: nat, refresh: nat, target: Option<Target>)

  /** What the host has installed, by whomever. */
  datatype Kernel = Kernel(installed: set<Name>, dispatch: map<Name, Name>)

  function Objects(t: Option<Target>): (r: set<Name>)
    ensures forall x :: x in r ==> x.Own?
  {
    if t.Some? then t.value.objects else {}
  }

  function Hooks(t: Option<Target>): (r: map<Name, Name>)
    ensures forall s :: s in r ==> s.Own?
  {
    if t.Some? then t.value.hooks else map[]
  }

  ghost predicate SameEntry(m: map<Name, Name>, n: map<Name, Name>, s: Name) {
    s in m && s in n && m[s] == n[s]
  }

  ghost predicate SameHook(m: map<Name, Name>, n: map<Name, Name>, s: Name) {
    SameEntry(m, n, s) || (s !in m && s !in n)
  }

  /** Of the owner's names, the kernel dispatches exactly to `t`, all of whose objects are present. */
  ghost predicate Selects(k: Kernel, t: Option<Target>) {
    && (forall x: Name :: x.Own? ==> (x in k.installed <==> x in Objects(t)))
    && (forall s: Name :: s.Own? ==> SameHook(k.dispatch, Hooks(t), s))
  }

  /** The kernel holds nothing of the owner's. */
  ghost predicate NothingOwned(k: Kernel) {
    Selects(k, None)
  }

  /** What neither target owns is as it was, object or hook, the owner's or not. */
  ghost predicate OnlyTouches(k: Kernel, k': Kernel, p: Option<Target>, c: Option<Target>) {
    && (forall x :: x !in Objects(p) && x !in Objects(c) ==> (x in k.installed <==> x in k'.installed))
    && (forall s :: s !in Hooks(p) && s !in Hooks(c) ==> SameHook(k.dispatch, k'.dispatch, s))
  }

  /** Nothing of anyone else's has changed. */
  ghost predicate ForeignKept(k: Kernel, k': Kernel) {
    && (forall x: Name :: x.Foreign? ==> (x in k.installed <==> x in k'.installed))
    && (forall s: Name :: s.Foreign? ==> SameHook(k.dispatch, k'.dispatch, s))
  }

  /** Every owned object and every hook belongs to `p` or to `c`. */
  ghost predicate Within(k: Kernel, p: Option<Target>, c: Option<Target>) {
    && (forall x :: x in k.installed && x.Own? ==> x in Objects(p) || x in Objects(c))
    && (forall s :: s in k.dispatch && s.Own? ==> SameEntry(k.dispatch, Hooks(p), s) || SameEntry(k.dispatch, Hooks(c), s))
  }

  /** A completed switch from `p` to `c`: hooks only `p` used may linger until retirement. */
  ghost predicate Switched(k: Kernel, p: Option<Target>, c: Option<Target>, k': Kernel) {
    && k'.installed == k.installed + Objects(c)
    && (forall s :: s in Hooks(c) ==> SameEntry(k'.dispatch, Hooks(c), s))
    && (forall s :: s in k'.dispatch && s !in Hooks(c) ==> SameEntry(k'.dispatch, k.dispatch, s))
    && (forall s :: s in k.dispatch && s !in k'.dispatch ==> s in Hooks(p))
  }

  /** An interrupted switch, compensated or not: each hook is old, new, restored or gone. */
  ghost predicate PartlySwitched(k: Kernel, p: Option<Target>, c: Option<Target>, k': Kernel) {
    && k.installed <= k'.installed <= k.installed + Objects(c)
    && (forall s :: s in k'.dispatch ==>
                      SameEntry(k'.dispatch, k.dispatch, s) || SameEntry(k'.dispatch, Hooks(c), s) || SameEntry(k'.dispatch, Hooks(p), s))
    && (forall s :: s in k.dispatch && s !in k'.dispatch ==> s in Hooks(p) || s in Hooks(c))
  }

  /** Retirement of `p` in favour of `c` removes what only `p` owns. */
  ghost predicate Retired(k: Kernel, p: Option<Target>, c: Option<Target>, k': Kernel) {
    && k'.installed == k.installed - (Objects(p) - Objects(c))
    && k'.dispatch == k.dispatch - (Hooks(p).Keys - Hooks(c).Keys)
  }

  ghost predicate PartlyRetired(k: Kernel, p: Option<Target>, c: Option<Target>, k': Kernel) {
    && k.installed - (Objects(p) - Objects(c)) <= k'.installed <= k.installed
    && (forall s :: s in k'.dispatch ==> SameEntry(k'.dispatch, k.dispatch, s))
    && (forall s :: s in k.dispatch && s !in k'.dispatch ==> s in Hooks(p) && s !in Hooks(c))
  }

  // ---------- Durable records ----------

  datatype Phase = Prepared | Switching | Committed

  datatype Journal = Apply(previous: Option<Id>, candidate: Id, phase: Phase) | Cleanup(ids: set<Id>)

  /** The two records of the state directory, with the values each may have after a crash. */
  datatype Disk = Disk(active: Option<Id>, activeMay: set<Option<Id>>,
                       journal: Option<Journal>, journalMay: set<Option<Journal>>)

  /** A directory sync makes what is visible certain, for both records at once. */
  function Settle(d: Disk): Disk {
    d.(activeMay := {d.active}, journalMay := {d.journal})
  }

  /** A rename or removal not yet followed by a directory sync. */
  function SeeJournal(d: Disk, j: Option<Journal>): Disk {
    d.(journal := j, journalMay := d.journalMay + {j})
  }

  function SeeActive(d: Disk, a: Option<Id>): Disk {
    d.(active := a, activeMay := d.activeMay + {a})
  }

  ghost predicate Settled(d: Disk) {
    d.activeMay == {d.active} && d.journalMay == {d.journal}
  }

  /** What a write may leave behind: nothing, a visible record, or a certain one. */
  ghost predicate Wrote(d: Disk, seen: Disk, d': Disk) {
    d' == d || d' == seen || d' == Settle(seen)
  }

  type Catalog = map<Id, Revision>

  function TargetOf(cat: Catalog, a: Option<Id>): Option<Target> {
    if a.Some? && a.value in cat then cat[a.value].target else None
  }

  /** The records the store accepts on reading (internal/state/store.go:105-179). */
  predicate RecordsOk(a: Option<Id>, j: Option<Journal>, files: set<Id>) {
    && (a.Some? ==> a.value in files)
    && match j
       case None => true
       case Some(Apply(p, c, _)) =>
         && c in files && (p.Some? ==> p.value in files)
         && (p.Some? ==> a.Some?) && (a.Some? ==> a == p || a == Some(c))
       case Some(Cleanup(ids)) => ids <= files && (a.Some? ==> a.value in ids)
  }

  /** One of the named revisions owns the object. */
  ghost predicate OwnsObject(ids: set<Id>, cat: Catalog, x: Name) {
    exists id :: id in ids && x in Objects(TargetOf(cat, Some(id)))
  }

  ghost predicate OwnsHook(ids: set<Id>, cat: Catalog, s: Name) {
    exists id :: id in ids && s in Hooks(TargetOf(cat, Some(id)))
  }

  ghost predicate OwnedBy(k: Kernel, ids: set<Id>, cat: Catalog) {
    && (forall x :: x in k.installed && x.Own? ==> OwnsObject(ids, cat, x))
    && (forall s :: s in k.dispatch && s.Own? ==> OwnsHook(ids, cat, s))
  }

  /** What none of the named revisions owns is as it was. */
  ghost predicate OnlyTouchesOf(k: Kernel, k': Kernel, ids: set<Id>, cat: Catalog) {
    && (forall x :: !OwnsObject(ids, cat, x) ==> (x in k.installed <==> x in k'.installed))
    && (forall s :: !OwnsHook(ids, cat, s) ==> SameHook(k.dispatch, k'.dispatch, s))
  }

  /** Everything owned in the kernel is accounted for by these records. */
  ghost predicate Bounded(a: Option<Id>, j: Option<Journal>, k: Kernel, cat: Catalog) {
    match j
    case None => Within(k, TargetOf(cat, a), TargetOf(cat, a))
    case Some(Apply(p, c, _)) => Within(k, TargetOf(cat, p), TargetOf(cat, Some(c)))
    case Some(Cleanup(ids)) => OwnedBy(k, ids, cat)
  }

  /** The active target is still in place: selected when nothing is pending, installed while an apply is. */
  ghost predicate Holds(a: Option<Id>, j: Option<Journal>, k: Kernel, cat: Catalog) {
    match j
    case None => Selects(k, TargetOf(cat, a))
    case Some(Apply(_, _, _)) => Objects(TargetOf(cat, a)) <= k.installed
    case Some(Cleanup(_)) => true
  }

  /** The invariant of every reachable state, whatever a crash preserves. */
  ghost predicate Inv(d: Disk, k: Kernel, cat: Catalog, files: set<Id>) {
    && d.active in d.activeMay && d.journal in d.journalMay && files <= cat.Keys
    && (None in d.journalMay ==> d.activeMay == {d.active})
    && forall a, j :: a in d.activeMay && j in d.journalMay ==> RecordsOk(a, j, files) && Bounded(a, j, k, cat)
  }

  /** Beyond `Inv`: the kernel was never emptied behind the program's back. */
  ghost predicate Strong(d: Disk, k: Kernel, cat: Catalog) {
    forall a, j :: a in d.activeMay && j in d.journalMay ==> Holds(a, j, k, cat)
  }

  /** No intent is visible, and the kernel selects the active revision's target. */
  ghost predicate Calm(d: Disk, k: Kernel, cat: Catalog) {
    d.journal.None? && Selects(k, TargetOf(cat, d.active))
  }

  /** Calm, and certain to be found so after a crash. */
  ghost predicate Quiet(d: Disk, k: Kernel, cat: Catalog) {
    Settled(d) && Calm(d, k, cat)
  }

  /** Every journal a crash can leave names `p` and `c`, in either role. */
  ghost predicate Authorizes(d: Disk, p: Option<Id>, c: Option<Id>) {
    forall j :: j in d.journalMay ==>
                  && j.Some? && j.value.Apply?
                  && ((j.value.previous == p && Some(j.value.candidate) == c) || (j.value.previous == c && Some(j.value.candidate) == p))
  }

  // ---------- Steps ----------

  /** After a crash each record has one of its possible values. */
  ghost predicate Crashed(d: Disk, d': Disk) {
    d'.active in d.activeMay && d'.journal in d.journalMay && Settled(d')
  }

  lemma CrashKeeps(d: Disk, d': Disk, k: Kernel, cat: Catalog, files: set<Id>)
    requires Inv(d, k, cat, files) && Crashed(d, d')
    ensures Inv(d', k, cat, files)
    ensures Strong(d, k, cat) ==> Strong(d', k, cat)
  {
  }

  /** A host restart takes away what the owner had installed; the records still bound the rest. */
  function Rebooted(k: Kernel): Kernel {
    Kernel(set x | x in k.installed && x.Foreign?, map s | s in k.dispatch && s.Foreign? :: k.dispatch[s])
  }

  lemma RebootKeeps(d: Disk, k: Kernel, cat: Catalog, files: set<Id>)
    requires Inv(d, k, cat, files)
    ensures Inv(d, Rebooted(k), cat, files) && ForeignKept(k, Rebooted(k))
  {
    forall a, j | a in d.activeMay && j in d.journalMay
      ensures Bounded(a, j, Rebooted(k), cat)
    {
    }
  }

  lemma SettleKeeps(d: Disk, k: Kernel, cat: Catalog, files: set<Id>)
    requires Inv(d, k, cat, files)
    ensures Inv(Settle(d), k, cat, files)
    ensures Strong(d, k, cat) ==> Strong(Settle(d), k, cat)
  {
  }

  lemma CalmStrong(d: Disk, k: Kernel, cat: Catalog, files: set<Id>)
    requires Inv(d, k, cat, files) && Calm(d, k, cat)
    ensures Strong(d, k, cat)
  {
  }

  /** Publishing an apply intent when none is visible. */
  lemma PrepareKeeps(d: Disk, d': Disk, c: Id, k: Kernel, cat: Catalog, files: set<Id>)
    requires Inv(d, k, cat, files) && d.journal.None? && c in files
    requires Wrote(d, SeeJournal(d, Some(Apply(d.active, c, Prepared))), d')
    ensures Inv(d', k, cat, files)
    ensures Strong(d, k, cat) ==> Strong(d', k, cat)
  {
  }

  lemma PhaseKeeps(d: Disk, d': Disk, phase: Phase, k: Kernel, cat: Catalog, files: set<Id>)
    requires Inv(d, k, cat, files) && d.journal.Some? && d.journal.value.Apply?
    requires Authorizes(d, d.journal.value.previous, Some(d.journal.value.candidate))
    requires Wrote(d, SeeJournal(d, Some(d.journal.value.(phase := phase))), d')
    ensures Inv(d', k, cat, files)
    ensures Strong(d, k, cat) ==> Strong(d', k, cat)
  {
  }

  /** Every journal a crash can leave is the apply of `c` over `p`. */
  ghost predicate Pending(d: Disk, p: Option<Id>, c: Id) {
    forall j :: j in d.journalMay ==> j.Some? && j.value.Apply? && j.value.previous == p && j.value.candidate == c
  }

  /** Whatever survives, the recorded apply has reached the phase. */
  ghost predicate InPhase(d: Disk, phase: Phase) {
    forall j :: j in d.journalMay ==> j.Some? && j.value.Apply? && j.value.phase == phase
  }

  /** No cleanup can surface. */
  ghost predicate NoCleanup(d: Disk) {
    forall j :: j in d.journalMay ==> j.None? || j.value.Apply?
  }

  lemma PendingAuthorizes(d: Disk, p: Option<Id>, c: Id)
    requires Pending(d, p, c)
    ensures Authorizes(d, p, Some(c)) && Authorizes(d, Some(c), p)
  {
  }

  /** Publishing `c` as active needs both targets in place: either value may survive. */
  lemma CommitKeeps(d: Disk, d': Disk, p: Option<Id>, c: Id, k: Kernel, cat: Catalog, files: set<Id>)
    requires Inv(d, k, cat, files) && Pending(d, p, c) && Objects(TargetOf(cat, Some(c))) <= k.installed
    requires Wrote(d, SeeActive(d, Some(c)), d')
    ensures Inv(d', k, cat, files) && Pending(d', p, c)
    ensures Strong(d, k, cat) ==> Strong(d', k, cat)
  {
  }

  /** A switch in either direction, complete or not, stays within the two journalled targets. */
  lemma SwitchKeeps(d: Disk, p: Option<Id>, c: Id, from: Option<Id>, to: Option<Id>, k: Kernel, k': Kernel,
                    cat: Catalog, files: set<Id>)
    requires Inv(d, k, cat, files) && Pending(d, p, c)
    requires (from == p && to == Some(c)) || (from == Some(c) && to == p)
    requires Switched(k, TargetOf(cat, from), TargetOf(cat, to), k') || PartlySwitched(k, TargetOf(cat, from), TargetOf(cat, to), k')
    ensures Inv(d, k', cat, files)
    ensures Strong(d, k, cat) ==> Strong(d, k', cat)
  {
    assert forall s :: s in k'.dispatch ==>
                         SameEntry(k.dispatch, k'.dispatch, s)
                         || SameEntry(k'.dispatch, Hooks(TargetOf(cat, to)), s) || SameEntry(k'.dispatch, Hooks(TargetOf(cat, from)), s);
  }

  /** Retiring the other target is safe once every surviving active record names `keep`. */
  lemma RetireKeeps(d: Disk, p: Option<Id>, c: Id, drop: Option<Id>, keep: Option<Id>, k: Kernel, k': Kernel,
                    cat: Catalog, files: set<Id>)
    requires Inv(d, k, cat, files) && Pending(d, p, c) && d.activeMay == {keep}
    requires (drop == p && keep == Some(c)) || (drop == Some(c) && keep == p)
    requires Retired(k, TargetOf(cat, drop), TargetOf(cat, keep), k') || PartlyRetired(k, TargetOf(cat, drop), TargetOf(cat, keep), k')
    ensures Inv(d, k', cat, files)
    ensures Strong(d, k, cat) ==> Strong(d, k', cat)
  {
    assert forall s :: s in k'.dispatch ==> SameEntry(k.dispatch, k'.dispatch, s);
  }

  /** Dispatch follows `keep`; only hooks and objects of `drop` are left over. */
  ghost predicate SwitchedTo(k: Kernel, drop: Option<Target>, keep: Option<Target>) {
    && Within(k, drop, keep) && Objects(keep) <= k.installed
    && forall s :: s in Hooks(keep) ==> SameEntry(k.dispatch, Hooks(keep), s)
  }

  lemma SwitchReaches(k: Kernel, k': Kernel, drop: Option<Target>, keep: Option<Target>)
    requires Within(k, drop, keep) && Switched(k, drop, keep, k')
    ensures SwitchedTo(k', drop, keep)
  {
    assert forall s :: s in k'.dispatch && s !in Hooks(keep) ==> SameEntry(k.dispatch, k'.dispatch, s);
  }

  /** Switch, then retire: from any state within the two targets the survivor is selected exactly. */
  lemma RetireSelects(k: Kernel, k': Kernel, drop: Option<Target>, keep: Option<Target>)
    requires SwitchedTo(k, drop, keep) && Retired(k, drop, keep, k')
    ensures Selects(k', keep)
  {
    forall s: Name | s.Own?
      ensures SameHook(k'.dispatch, Hooks(keep), s)
    {
      if s in Hooks(keep) {
        assert SameEntry(k.dispatch, Hooks(keep), s);
      } else if s in k.dispatch {
        assert SameEntry(k.dispatch, Hooks(drop), s) || SameEntry(k.dispatch, Hooks(keep), s);
      }
    }
  }

  /** A switch, complete or not, in either direction, touches the two targets only. */
  lemma SwitchTouches(k: Kernel, k': Kernel, p: Option<Target>, c: Option<Target>)
    requires Switched(k, p, c, k') || PartlySwitched(k, p, c, k')
    ensures OnlyTouches(k, k', p, c)
  {
    forall s | s !in Hooks(p) && s !in Hooks(c)
      ensures SameHook(k.dispatch, k'.dispatch, s)
    {
      if s in k'.dispatch {
        assert SameEntry(k'.dispatch, k.dispatch, s);
      }
    }
  }

  lemma RetireTouches(k: Kernel, k': Kernel, p: Option<Target>, c: Option<Target>)
    requires Retired(k, p, c, k') || PartlyRetired(k, p, c, k')
    ensures OnlyTouches(k, k', p, c)
  {
    forall s | s !in Hooks(p) && s !in Hooks(c)
      ensures SameHook(k.dispatch, k'.dispatch, s)
    {
      if s in k'.dispatch {
        assert SameEntry(k'.dispatch, k.dispatch, s);
      }
    }
  }

  /** Removing the intent is safe once the kernel selects the one possible active target. */
  lemma FinishKeeps(d: Disk, d': Disk, k: Kernel, cat: Catalog, files: set<Id>)
    requires Inv(d, k, cat, files) && d.activeMay == {d.active} && Selects(k, TargetOf(cat, d.active))
    requires Wrote(d, SeeJournal(d, None), d')
    ensures Inv(d', k, cat, files)
    ensures Strong(d, k, cat) ==> Strong(d', k, cat)
    ensures d' == Settle(SeeJournal(d, None)) ==> Quiet(d', k, cat)
  {
  }

  /** Once no record but the active one survives, other revision files may go. */
  lemma DropFilesKeeps(d: Disk, k: Kernel, cat: Catalog, files: set<Id>, files': set<Id>)
    requires Inv(d, k, cat, files) && Settled(d) && d.journal.None? && files' <= files
    requires d.active.Some? ==> d.active.value in files'
    ensures Inv(d, k, cat, files')
  {
  }

  lemma MoreFilesKeeps(d: Disk, k: Kernel, cat: Catalog, files: set<Id>, files': set<Id>)
    requires Inv(d, k, cat, files) && files <= files' <= cat.Keys
    ensures Inv(d, k, cat, files')
  {
  }

  /** A fresh revision joins the catalog without disturbing what is known of the others. */
  lemma CatalogGrows(d: Disk, k: Kernel, cat: Catalog, r: Revision, files: set<Id>)
    requires Inv(d, k, cat, files) && r.id !in cat
    ensures Inv(d, k, cat[r.id := r], files)
    ensures Strong(d, k, cat) ==> Strong(d, k, cat[r.id := r])
  {
    var cat' := cat[r.id := r];
    forall a, j | a in d.activeMay && j in d.journalMay
      ensures Bounded(a, j, k, cat') && (Holds(a, j, k, cat) ==> Holds(a, j, k, cat'))
    {
      assert RecordsOk(a, j, files);
      assert a.Some? ==> a.value in cat;
      if j.Some? && j.value.Cleanup? {
        OwnedGrows(k, j.value.ids, cat, cat');
      }
    }
  }

  lemma OwnedGrows(k: Kernel, ids: set<Id>, cat: Catalog, cat': Catalog)
    requires OwnedBy(k, ids, cat) && ids <= cat.Keys && forall id :: id in cat ==> id in cat' && cat'[id] == cat[id]
    ensures OwnedBy(k, ids, cat')
  {
    OwnersGrow(ids, cat, ids, cat');
  }

  lemma OwnersGrow(ids: set<Id>, cat: Catalog, ids': set<Id>, cat': Catalog)
    requires ids <= ids' && forall id :: id in ids ==> TargetOf(cat', Some(id)) == TargetOf(cat, Some(id))
    ensures forall x :: OwnsObject(ids, cat, x) ==> OwnsObject(ids', cat', x)
    ensures forall s :: OwnsHook(ids, cat, s) ==> OwnsHook(ids', cat', s)
  {
    forall x | OwnsObject(ids, cat, x)
      ensures OwnsObject(ids', cat', x)
    {
      var id :| id in ids && x in Objects(TargetOf(cat, Some(id)));
      assert id in ids' && x in Objects(TargetOf(cat', Some(id)));
    }
    forall s | OwnsHook(ids, cat, s)
      ensures OwnsHook(ids', cat', s)
    {
      var id :| id in ids && s in Hooks(TargetOf(cat, Some(id)));
      assert id in ids' && s in Hooks(TargetOf(cat', Some(id)));
    }
  }

  // ---------- Cleanup ----------

  /** The revisions a pair of records refers to. */
  function Referenced(a: Option<Id>, j: Option<Journal>): set<Id> {
    (if a.Some? then {a.value} else {}) +
    match j
    case None => {}
    case Some(Apply(p, c, _)) => (if p.Some? then {p.value} else {}) + {c}
    case Some(Cleanup(ids)) => ids
  }

  /** Whatever the records bound, the revisions they refer to own. */
  lemma BoundedOwned(a: Option<Id>, j: Option<Journal>, k: Kernel, cat: Catalog)
    requires Bounded(a, j, k, cat)
    ensures OwnedBy(k, Referenced(a, j), cat)
  {
    if j.None? {
      WithinOwned(k, a, a, Referenced(a, j), cat);
    } else if j.value.Apply? {
      WithinOwned(k, j.value.previous, Some(j.value.candidate), Referenced(a, j), cat);
    } else {
      OwnedMore(k, j.value.ids, Referenced(a, j), cat);
    }
  }

  lemma WithinOwned(k: Kernel, p: Option<Id>, c: Option<Id>, ids: set<Id>, cat: Catalog)
    requires Within(k, TargetOf(cat, p), TargetOf(cat, c))
    requires (p.Some? ==> p.value in ids) && (c.Some? ==> c.value in ids)
    ensures OwnedBy(k, ids, cat)
  {
    OwnersAmong(p, ids, cat);
    OwnersAmong(c, ids, cat);
  }

  /** What the target of one of the revisions owns, they own. */
  lemma OwnersAmong(a: Option<Id>, ids: set<Id>, cat: Catalog)
    requires a.Some? ==> a.value in ids
    ensures forall x :: x in Objects(TargetOf(cat, a)) ==> OwnsObject(ids, cat, x)
    ensures forall s :: s in Hooks(TargetOf(cat, a)) ==> OwnsHook(ids, cat, s)
  {
    if a.Some? {
      assert a == Some(a.value);
    }
  }

  lemma TouchesAmong(k: Kernel, k': Kernel, p: Option<Id>, c: Option<Id>, ids: set<Id>, cat: Catalog)
    requires OnlyTouches(k, k', TargetOf(cat, p), TargetOf(cat, c))
    requires (p.Some? ==> p.value in ids) && (c.Some? ==> c.value in ids)
    ensures OnlyTouchesOf(k, k', ids, cat)
  {
    OwnersAmong(p, ids, cat);
    OwnersAmong(c, ids, cat);
  }

  /** Targets have only the owner's names, so whatever touches only targets keeps everything foreign. */
  lemma TouchesKeepForeign(k: Kernel, k': Kernel, ids: set<Id>, cat: Catalog)
    requires OnlyTouchesOf(k, k', ids, cat)
    ensures ForeignKept(k, k')
  {
  }

  lemma OwnedMore(k: Kernel, ids: set<Id>, ids': set<Id>, cat: Catalog)
    requires OwnedBy(k, ids, cat) && ids <= ids'
    ensures OwnedBy(k, ids', cat)
  {
    OwnersGrow(ids, cat, ids', cat);
  }

  /** Replacing any intent by a cleanup of everything visibly referenced. */
  lemma BeginCleanupKeeps(d: Disk, d': Disk, k: Kernel, cat: Catalog, files: set<Id>)
    requires Inv(d, k, cat, files)
    requires Wrote(d, SeeJournal(d, Some(Cleanup(Referenced(d.active, d.journal)))), d')
    ensures Inv(d', k, cat, files)
    ensures Strong(d, k, cat) ==> Strong(d', k, cat)
  {
    var j' := Some(Cleanup(Referenced(d.active, d.journal)));
    assert RecordsOk(d.active, d.journal, files);
    BoundedOwned(d.active, d.journal, k, cat);
    forall a | a in d.activeMay
      ensures RecordsOk(a, j', files) && Bounded(a, j', k, cat)
    {
      assert RecordsOk(a, d.journal, files);
    }
  }

  /** A cleanup, complete or not, removes objects and hooks of the named revisions and nothing else. */
  ghost predicate Shrinks(k: Kernel, ids: set<Id>, cat: Catalog, k': Kernel) {
    && k'.installed <= k.installed && (forall s :: s in k'.dispatch ==> SameEntry(k'.dispatch, k.dispatch, s))
    && OnlyTouchesOf(k, k', ids, cat)
  }

  ghost predicate CleaningUp(d: Disk, ids: set<Id>) {
    d.journalMay == {Some(Cleanup(ids))}
  }

  lemma CleanupKernelKeeps(d: Disk, ids: set<Id>, k: Kernel, k': Kernel, cat: Catalog, files: set<Id>)
    requires Inv(d, k, cat, files) && CleaningUp(d, ids) && Shrinks(k, ids, cat, k')
    ensures Inv(d, k', cat, files) && Strong(d, k', cat)
  {
    assert RecordsOk(d.active, d.journal, files) && Bounded(d.active, d.journal, k, cat);
    assert OwnedBy(k', ids, cat);
  }

  /** A completed cleanup leaves nothing owned by the named revisions. */
  ghost predicate Cleaned(k: Kernel, ids: set<Id>, cat: Catalog, k': Kernel) {
    && Shrinks(k, ids, cat, k')
    && (forall x :: x in k'.installed ==> !OwnsObject(ids, cat, x))
    && (forall s :: s in k'.dispatch ==> !OwnsHook(ids, cat, s))
  }

  lemma CleanupPossible(k: Kernel, ids: set<Id>, cat: Catalog)
    ensures exists k' :: Cleaned(k, ids, cat, k')
  {
    var k' := Kernel(set x | x in k.installed && !OwnsObject(ids, cat, x), map s | s in k.dispatch && !OwnsHook(ids, cat, s) :: k.dispatch[s]);
    assert Cleaned(k, ids, cat, k');
  }

  lemma CleanedEmpty(k: Kernel, ids: set<Id>, cat: Catalog, k': Kernel)
    requires OwnedBy(k, ids, cat) && Cleaned(k, ids, cat, k')
    ensures NothingOwned(k')
  {
  }

  lemma RemoveActiveKeeps(d: Disk, d': Disk, ids: set<Id>, k: Kernel, cat: Catalog, files: set<Id>)
    requires Inv(d, k, cat, files) && CleaningUp(d, ids)
    requires Wrote(d, SeeActive(d, None), d')
    ensures Inv(d', k, cat, files) && CleaningUp(d', ids) && Strong(d', k, cat)
  {
  }

  // ---------- Calls into the backend ----------

  /** A call, with the journals and active records a crash at that moment could leave. */
  datatype Call =
    | SwitchCall(from: Option<Target>, to: Option<Target>, journals: set<Option<Journal>>, catalog: Catalog)
    | RetireCall(drop: Option<Target>, keep: Option<Target>, journals: set<Option<Journal>>, actives: set<Option<Id>>, catalog: Catalog)
    | CleanupCall(ids: set<Id>, journals: set<Option<Journal>>)

  /** The journal is an apply of one of the two targets over the other. */
  ghost predicate Journalled(j: Option<Journal>, cat: Catalog, a: Option<Target>, b: Option<Target>) {
    && j.Some? && j.value.Apply?
    && var p, c := TargetOf(cat, j.value.previous), TargetOf(cat, Some(j.value.candidate));
       (p == a && c == b) || (p == b && c == a)
  }

  /** Whatever a crash at that moment leaves, the journal names exactly what the call was given; and
      enforcement is retired only when every active record that can survive names what is kept, and for
      a candidate only once its journal is sure to say committed. */
  ghost predicate Permitted(call: Call) {
    match call
    case SwitchCall(from, to, journals, cat) => journals != {} && forall j :: j in journals ==> Journalled(j, cat, from, to)
    case RetireCall(drop, keep, journals, actives, cat) =>
      && journals != {} && (forall j :: j in journals ==> Journalled(j, cat, drop, keep))
      && (forall a :: a in actives ==> TargetOf(cat, a) == keep)
      && (forall j, a :: j in journals && a in actives && a == Some(j.value.candidate) ==> j.value.phase.Committed?)
    case CleanupCall(ids, journals) => journals == {Some(Cleanup(ids))}
  }

  ghost predicate AllPermitted(calls: seq<Call>) {
    forall i :: 0 <= i < |calls| ==> Permitted(calls[i])
  }
}
