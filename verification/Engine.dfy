/** The transaction engine: prepare, switch, commit, retire, finish, with rollback,
    uncertain commits and recovery (internal/app/engine.go).

    Every call into the store or the backend may succeed, fail before, during or
    after taking effect, or end the process.  `Engine.Valid` holds after each of
    these, so the contracts below speak about every run.
 */
module Engine {
  import opened Basics
  import opened Protocol

  const MAX_U64: nat := 0xffff_ffff_ffff_ffff

  datatype Res = Ok | Err | Crash

  datatype View = View(active: Option<Revision>, journal: Option<Journal>)

  // ---------- What may go wrong ----------

  /** Decides which calls fail.  While it is steady none does. */
  class Environment {
    var steady: bool

    constructor ()
      ensures !steady
    {
      steady := false;
    }

    method Try() returns (r: Res)
      ensures steady ==> r.Ok?
    {
      r := Ok;
      if !steady {
        if {
          case true => r := Ok;
          case true => r := Err;
          case true => r := Crash;
        }
      }
    }

    /** A cancelled request, or a candidate that is refused. */
    method Interrupts() returns (stop: bool)
      ensures steady ==> !stop
    {
      stop := false;
      if * {
        stop := !steady;
      }
    }
  }

  // ---------- The durable store ----------

  class Store {
    const env: Environment
    var disk: Disk
    var catalog: Catalog
    var files: set<Id>
    var sure: set<Id>

    /** Revision files: those certain to survive, those visible, those ever written. */
    ghost predicate FilesOk()
      reads this
    {
      && sure <= files <= catalog.Keys
      && forall id :: id in catalog ==> catalog[id].id == id
    }

    /** The records are ones a reader accepts. */
    predicate Readable()
      reads this
    {
      RecordsOk(disk.active, disk.journal, files)
    }

    constructor (env: Environment)
      ensures this.env == env && FilesOk() && disk == Disk(None, {None}, None, {None}) && catalog == map[]
    {
      this.env := env;
      disk := Disk(None, {None}, None, {None});
      catalog := map[];
      files := {};
      sure := {};
    }

    /** Temporary file, rename, directory sync; or remove, directory sync. */
    method WriteJournal(j: Option<Journal>) returns (r: Res)
      modifies this`disk
      ensures Wrote(old(disk), SeeJournal(old(disk), j), disk)
      ensures r.Ok? ==> disk == Settle(SeeJournal(old(disk), j))
      ensures env.steady ==> r.Ok?
    {
      r := env.Try();
      if !r.Ok? {
        return;
      }
      disk := SeeJournal(disk, j);
      r := env.Try();
      if !r.Ok? {
        return;
      }
      disk := Settle(disk);
      r := env.Try();
      if !r.Ok? {
        return;
      }
      r := Ok;
    }

    method WriteActive(a: Option<Id>) returns (r: Res)
      modifies this`disk
      ensures Wrote(old(disk), SeeActive(old(disk), a), disk)
      ensures r.Ok? ==> disk == Settle(SeeActive(old(disk), a))
      ensures env.steady ==> r.Ok?
    {
      r := env.Try();
      if !r.Ok? {
        return;
      }
      disk := SeeActive(disk, a);
      r := env.Try();
      if !r.Ok? {
        return;
      }
      disk := Settle(disk);
      r := env.Try();
      if !r.Ok? {
        return;
      }
      r := Ok;
    }

    /** A validated view of the records; refuses records that contradict each other or name missing files. */
    method Read() returns (r: Res, view: View)
      requires FilesOk()
      ensures r.Ok? ==> Readable() && view.journal == disk.journal
      ensures env.steady && Readable() ==> r.Ok?
      ensures r.Ok? ==> match disk.active
                        case None => view.active.None?
                        case Some(id) => id in catalog && view.active == Some(catalog[id])
    {
      view := View(None, None);
      r := env.Try();
      if !r.Ok? {
        return;
      }
      if !Readable() {
        return Err, view;
      }
      view := View(if disk.active.Some? then Some(catalog[disk.active.value]) else None, disk.journal);
      r := Ok;
    }

    /** The candidate's immutable revision file, certain on success. */
    method WriteRevision(candidate: Revision) returns (r: Res)
      requires FilesOk() && (candidate.id in catalog ==> catalog[candidate.id] == candidate)
      requires candidate.id in files ==> candidate.id in sure
      modifies this`catalog, this`files, this`sure
      ensures FilesOk() && old(sure) <= sure && catalog == old(catalog)[candidate.id := candidate]
      ensures r.Ok? ==> candidate.id in sure
      ensures env.steady ==> r.Ok?
    {
      catalog := catalog[candidate.id := candidate];
      if candidate.id in files {
        r := env.Try();
        if !r.Ok? {
          return;
        }
        return Ok;
      }
      r := env.Try();
      if !r.Ok? {
        return;
      }
      files := files + {candidate.id};
      r := env.Try();
      if !r.Ok? {
        return;
      }
      sure := files;
      r := env.Try();
      if !r.Ok? {
        return;
      }
      r := Ok;
    }

    /** Records the candidate and the intent to apply it, before any kernel change. */
    method Prepare(previous: Option<Id>, candidate: Revision) returns (r: Res)
      requires FilesOk() && (candidate.id in catalog ==> catalog[candidate.id] == candidate)
      requires candidate.id in files ==> candidate.id in sure
      modifies this
      ensures FilesOk() && old(sure) <= sure
      ensures catalog == old(catalog) || catalog == old(catalog)[candidate.id := candidate]
      ensures disk == old(disk) ||
              (&& candidate.id in sure && old(disk).journal.None? && old(disk).active == previous
               && Wrote(old(disk), SeeJournal(old(disk), Some(Apply(previous, candidate.id, Prepared))), disk))
      ensures r.Ok? ==>
                && candidate.id in sure && old(disk).journal.None? && old(disk).active == previous
                && catalog == old(catalog)[candidate.id := candidate]
                && disk == Settle(SeeJournal(old(disk), Some(Apply(previous, candidate.id, Prepared))))
      ensures env.steady && old(Readable()) && old(disk).journal.None? && old(disk).active == previous ==> r.Ok?
    {
      var view;
      r, view := Read();
      if !r.Ok? {
        return;
      }
      if view.journal.Some? || disk.active != previous {
        return Err;
      }
      r := WriteRevision(candidate);
      if !r.Ok? {
        return;
      }
      r := WriteJournal(Some(Apply(previous, candidate.id, Prepared)));
    }

    method MarkPhase(phase: Phase) returns (r: Res)
      requires FilesOk()
      modifies this`disk
      ensures disk == old(disk) ||
              (&& old(disk).journal.Some? && old(disk).journal.value.Apply?
               && Wrote(old(disk), SeeJournal(old(disk), Some(old(disk).journal.value.(phase := phase))), disk))
      ensures r.Ok? ==>
                && old(disk).journal.Some? && old(disk).journal.value.Apply?
                && disk == Settle(SeeJournal(old(disk), Some(old(disk).journal.value.(phase := phase))))
      ensures env.steady && old(Readable()) && old(disk).journal.Some? && old(disk).journal.value.Apply? ==> r.Ok?
    {
      var view;
      r, view := Read();
      if !r.Ok? {
        return;
      }
      if view.journal.None? || !view.journal.value.Apply? {
        return Err;
      }
      r := WriteJournal(Some(view.journal.value.(phase := phase)));
    }

    /** Publishes the candidate as the authoritative active revision. */
    method Commit(candidate: Id) returns (r: Res)
      requires FilesOk()
      modifies this`disk
      ensures Wrote(old(disk), SeeActive(old(disk), Some(candidate)), disk)
      ensures r.Ok? ==> disk == Settle(SeeActive(old(disk), Some(candidate)))
      ensures (&& env.steady && old(Readable()) && old(disk).journal.Some? && old(disk).journal.value.Apply?
               && old(disk).journal.value.candidate == candidate) ==> r.Ok?
    {
      var view;
      r, view := Read();
      if !r.Ok? {
        return;
      }
      if view.journal.None? || !view.journal.value.Apply? || view.journal.value.candidate != candidate {
        return Err;
      }
      r := WriteActive(Some(candidate));
    }

    /** Syncs every named file and both directories: what is visible becomes certain. */
    method Stabilize() returns (r: Res)
      requires FilesOk()
      modifies this`disk, this`sure
      ensures FilesOk() && old(sure) <= sure
      ensures disk == old(disk) || disk == Settle(old(disk))
      ensures r.Ok? ==> disk == Settle(old(disk)) && Readable()
      ensures env.steady && old(Readable()) ==> r.Ok?
    {
      var view;
      r, view := Read();
      if !r.Ok? {
        return;
      }
      r := env.Try();
      if !r.Ok? {
        return;
      }
      disk := Settle(disk);
      r := env.Try();
      if !r.Ok? {
        return;
      }
      sure := files;
      r := Ok;
    }

    /** Clears a completed intent, then removes the revision files it no longer needs. */
    method Finish() returns (r: Res)
      requires FilesOk()
      modifies this`disk, this`files, this`sure
      ensures FilesOk() && sure <= old(sure)
      ensures (disk == old(disk) || Wrote(old(disk), SeeJournal(old(disk), None), disk)) && disk.active == old(disk).active
      ensures sure == old(sure) || (disk == Settle(SeeJournal(old(disk), None)) &&
                                    (disk.active.Some? && disk.active.value in old(sure) ==> disk.active.value in sure))
      ensures r.Ok? ==> disk.journal.None? && (old(disk).journal.Some? ==> disk == Settle(SeeJournal(old(disk), None)))
      ensures r.Ok? && old(disk).journal.None? ==> disk == old(disk)
      ensures r.Ok? ==> forall id :: id in Referenced(None, old(disk).journal) && Some(id) != disk.active ==> id !in files
      ensures forall id :: id in old(files) && id !in Referenced(None, old(disk).journal) ==> id in files
      ensures env.steady && old(Readable()) ==> r.Ok?
    {
      var view;
      r, view := Read();
      if !r.Ok? {
        return;
      }
      if view.journal.None? {
        return Ok;
      }
      var ids := Referenced(None, view.journal);
      r := WriteJournal(None);
      if !r.Ok? {
        return;
      }
      while ids != {}
        invariant FilesOk() && sure <= old(sure) && disk == Settle(SeeJournal(old(disk), None))
        invariant disk.active.Some? && disk.active.value in old(sure) ==> disk.active.value in sure
        invariant ids <= Referenced(None, old(disk).journal)
        invariant forall id :: id in Referenced(None, old(disk).journal) && id !in ids && Some(id) != disk.active ==> id !in files
        invariant forall id :: id in old(files) && id !in Referenced(None, old(disk).journal) ==> id in files
        decreases ids
      {
        var id :| id in ids;
        ids := ids - {id};
        if disk.active == Some(id) {
          continue;
        }
        r := env.Try();
        if !r.Ok? {
          return;
        }
        files, sure := files - {id}, sure - {id};
        r := env.Try();
        if !r.Ok? {
          return;
        }
      }
      r := Ok;
    }

    method BeginCleanup() returns (r: Res)
      modifies this`disk
      ensures Wrote(old(disk), SeeJournal(old(disk), Some(Cleanup(Referenced(old(disk).active, old(disk).journal)))), disk)
      ensures r.Ok? ==> disk == Settle(SeeJournal(old(disk), Some(Cleanup(Referenced(old(disk).active, old(disk).journal)))))
      ensures env.steady ==> r.Ok?
    {
      r := WriteJournal(Some(Cleanup(Referenced(disk.active, disk.journal))));
    }

    method RemoveActive() returns (r: Res)
      modifies this`disk
      ensures Wrote(old(disk), SeeActive(old(disk), None), disk)
      ensures r.Ok? ==> disk.active.None? && (old(disk).active.None? ==> disk == old(disk))
      ensures r.Ok? && old(disk).active.Some? ==> disk == Settle(SeeActive(old(disk), None))
      ensures env.steady ==> r.Ok?
    {
      if disk.active.None? {
        return Ok;
      }
      r := WriteActive(None);
    }
  }

  // ---------- The firewall backend ----------

  class Backend {
    const env: Environment
    const store: Store
    ghost var kernel: Kernel
    ghost var calls: seq<Call>

    constructor (env: Environment, store: Store, ghost host: Kernel)
      ensures this.env == env && this.store == store && kernel == host && calls == []
    {
      this.env, this.store, kernel, calls := env, store, host, [];
    }

    /** Installs `c` and dispatches to it. */
    method Switch(p: Option<Target>, c: Option<Target>) returns (r: Res)
      modifies this
      ensures r.Ok? ==> Switched(old(kernel), p, c, kernel)
      ensures env.steady ==> r.Ok?
      ensures Switched(old(kernel), p, c, kernel) || PartlySwitched(old(kernel), p, c, kernel)
      ensures calls == old(calls) + [SwitchCall(p, c, store.disk.journalMay, store.catalog)]
    {
      calls := calls + [SwitchCall(p, c, store.disk.journalMay, store.catalog)];
      r := env.Try();
      if r.Ok? {
        ghost var k := Kernel(kernel.installed + Objects(c), kernel.dispatch + Hooks(c));
        assert Switched(kernel, p, c, k);
        ghost var next :| Switched(old(kernel), p, c, next);
        kernel := next;
      } else {
        assert PartlySwitched(kernel, p, c, kernel);
        ghost var next :| Switched(old(kernel), p, c, next) || PartlySwitched(old(kernel), p, c, next);
        kernel := next;
      }
    }

    /** Removes what `p` owns and `c` does not. */
    method Retire(p: Option<Target>, c: Option<Target>) returns (r: Res)
      modifies this
      ensures r.Ok? ==> Retired(old(kernel), p, c, kernel)
      ensures env.steady ==> r.Ok?
      ensures Retired(old(kernel), p, c, kernel) || PartlyRetired(old(kernel), p, c, kernel)
      ensures calls == old(calls) + [RetireCall(p, c, store.disk.journalMay, store.disk.activeMay, store.catalog)]
    {
      calls := calls + [RetireCall(p, c, store.disk.journalMay, store.disk.activeMay, store.catalog)];
      r := env.Try();
      if r.Ok? {
        kernel := Kernel(kernel.installed - (Objects(p) - Objects(c)), kernel.dispatch - (Hooks(p).Keys - Hooks(c).Keys));
      } else {
        assert PartlyRetired(kernel, p, c, kernel);
        ghost var next :| Retired(old(kernel), p, c, next) || PartlyRetired(old(kernel), p, c, next);
        kernel := next;
      }
    }

    /** Removes everything the named revisions own. */
    method Cleanup(ids: set<Id>) returns (r: Res)
      modifies this
      ensures r.Ok? ==> Cleaned(old(kernel), ids, store.catalog, kernel)
      ensures env.steady ==> r.Ok?
      ensures Shrinks(old(kernel), ids, store.catalog, kernel)
      ensures calls == old(calls) + [CleanupCall(ids, store.disk.journalMay)]
    {
      calls := calls + [CleanupCall(ids, store.disk.journalMay)];
      r := env.Try();
      if r.Ok? {
        CleanupPossible(kernel, ids, store.catalog);
        ghost var next :| Cleaned(old(kernel), ids, store.catalog, next);
        kernel := next;
      } else {
        assert Shrinks(kernel, ids, store.catalog, kernel);
        ghost var next :| Shrinks(old(kernel), ids, store.catalog, next);
        kernel := next;
      }
    }
  }

  // ---------- The engine ----------

  datatype Candidate = Candidate(epoch: nat, refresh: nat, target: Option<Target>)

  /** What an apply attempt reports (internal/app/engine.go:29-37); `died` when the process ended in it. */
  datatype Outcome = Outcome(committed: bool, degraded: bool, active: Option<Id>, died: bool)

  ghost predicate CleanupFound(d: Disk) {
    d.journal.Some? && d.journal.value.Cleanup?
  }

  const Died := Outcome(false, true, None, true)

  class Engine {
    const env: Environment
    const store: Store
    const backend: Backend
    var admitted: nat
    var activeEpoch: nat
    var refreshSequence: nat
    var healthy: bool
    var closing: bool
    /** The host has restarted, and nothing has put the active target back yet. */
    ghost var emptied: bool

    /** A new engine on a host that has nothing of the owner's. */
    constructor (ghost host: Kernel)
      requires NothingOwned(host)
      ensures fresh(env) && fresh(store) && fresh(backend) && Valid() && !healthy && !emptied && backend.kernel == host
    {
      var e := new Environment();
      env := e;
      var s := new Store(e);
      store := s;
      backend := new Backend(e, s, host);
      admitted, activeEpoch, refreshSequence := 0, 0, 0;
      healthy, closing, emptied := false, false, false;
    }

    ghost predicate World()
      reads this, store, backend
    {
      && store.env == env && backend.env == env && backend.store == store && AllPermitted(backend.calls)
      && store.FilesOk() && Inv(store.disk, backend.kernel, store.catalog, store.sure)
    }

    ghost predicate StrongWorld()
      reads this, store, backend
    {
      Strong(store.disk, backend.kernel, store.catalog)
    }

    /** Holds in every reachable state; a healthy engine has nothing pending and enforces the active target,
        and unless a host restart has emptied the kernel the active target is in place. */
    ghost predicate Valid()
      reads this, store, backend
    {
      World() && (healthy ==> Calm(store.disk, backend.kernel, store.catalog)) && (!emptied ==> StrongWorld())
    }

    function Target(a: Option<Id>): Option<Target>
      reads store
    {
      TargetOf(store.catalog, a)
    }

    // ----- Kernel steps: each needs the journal to name both targets -----

    method SwitchKernel(ghost p: Option<Id>, ghost c: Id, from: Option<Id>, to: Option<Id>) returns (r: Res)
      requires World() && Pending(store.disk, p, c) && ((from == p && to == Some(c)) || (from == Some(c) && to == p))
      requires Authorizes(store.disk, from, to)
      modifies backend
      ensures World() && (old(StrongWorld()) ==> StrongWorld())
      ensures r.Ok? ==> SwitchedTo(backend.kernel, Target(from), Target(to))
      ensures env.steady ==> r.Ok?
      ensures OnlyTouches(old(backend.kernel), backend.kernel, Target(p), Target(Some(c)))
      ensures old(backend.kernel).installed <= backend.kernel.installed
    {
      r := backend.Switch(Target(from), Target(to));
      SwitchTouches(old(backend.kernel), backend.kernel, Target(from), Target(to));
      SwitchKeeps(store.disk, p, c, from, to, old(backend.kernel), backend.kernel, store.catalog, store.sure);
      if r.Ok? {
        PendingWithin(store.disk, p, c, old(backend.kernel), store.catalog, store.sure);
        SwitchReaches(old(backend.kernel), backend.kernel, Target(from), Target(to));
      }
    }

    method RetireKernel(ghost p: Option<Id>, ghost c: Id, drop: Option<Id>, keep: Option<Id>) returns (r: Res)
      requires World() && Pending(store.disk, p, c) && ((drop == p && keep == Some(c)) || (drop == Some(c) && keep == p))
      requires Authorizes(store.disk, drop, keep) && store.disk.activeMay == {keep}
      requires SwitchedTo(backend.kernel, Target(drop), Target(keep)) && (keep == Some(c) ==> InPhase(store.disk, Committed))
      modifies backend
      ensures World() && (old(StrongWorld()) ==> StrongWorld())
      ensures r.Ok? ==> Selects(backend.kernel, Target(keep))
      ensures env.steady ==> r.Ok?
      ensures OnlyTouches(old(backend.kernel), backend.kernel, Target(p), Target(Some(c)))
    {
      r := backend.Retire(Target(drop), Target(keep));
      RetireTouches(old(backend.kernel), backend.kernel, Target(drop), Target(keep));
      RetireKeeps(store.disk, p, c, drop, keep, old(backend.kernel), backend.kernel, store.catalog, store.sure);
      if r.Ok? {
        RetireSelects(old(backend.kernel), backend.kernel, Target(drop), Target(keep));
      }
    }

    /** Clears the intent once the kernel selects the only possible active target. */
    method FinishQuietly() returns (r: Res)
      requires World() && store.disk.journal.Some? && store.disk.activeMay == {store.disk.active}
      requires Selects(backend.kernel, Target(store.disk.active))
      modifies store
      ensures World() && (old(StrongWorld()) ==> StrongWorld()) && store.catalog == old(store.catalog)
      ensures store.disk.active == old(store.disk).active && store.disk.activeMay == {store.disk.active}
      ensures old(NoCleanup(store.disk)) ==> NoCleanup(store.disk)
      ensures r.Ok? ==> Quiet(store.disk, backend.kernel, store.catalog)
      ensures env.steady ==> r.Ok?
    {
      r := store.Finish();
      FinishKeeps(old(store.disk), store.disk, backend.kernel, store.catalog, old(store.sure));
      if store.sure != old(store.sure) {
        DropFilesKeeps(store.disk, backend.kernel, store.catalog, old(store.sure), store.sure);
      }
    }

    // ----- Undoing and completing an apply -----

    /** Marks the engine unhealthy and reports the failure, or the end of the process. */
    method Fail(r: Res, o: Outcome) returns (res: Outcome)
      modifies this`healthy
      ensures !healthy && res == if r.Crash? then Died else o
    {
      healthy := false;
      res := if r.Crash? then Died else o;
    }

    method StabilizeStore() returns (r: Res)
      requires World()
      modifies store
      ensures World() && (old(StrongWorld()) ==> StrongWorld()) && store.catalog == old(store.catalog)
      ensures store.disk == old(store.disk) || store.disk == Settle(old(store.disk))
      ensures r.Ok? ==> store.disk == Settle(old(store.disk))
      ensures env.steady ==> r.Ok?
    {
      r := store.Stabilize();
      SettleKeeps(old(store.disk), backend.kernel, store.catalog, old(store.sure));
      MoreFilesKeeps(store.disk, backend.kernel, store.catalog, old(store.sure), store.sure);
    }

    method MarkPending(ghost p: Option<Id>, ghost c: Id, phase: Phase) returns (r: Res)
      requires World() && Pending(store.disk, p, c)
      modifies store`disk
      ensures World() && Pending(store.disk, p, c) && (old(StrongWorld()) ==> StrongWorld())
      ensures store.disk.active == old(store.disk).active && store.disk.activeMay <= old(store.disk).activeMay
      ensures store.disk.active in store.disk.activeMay
      ensures r.Ok? ==> InPhase(store.disk, phase)
      ensures env.steady ==> r.Ok?
    {
      r := store.MarkPhase(phase);
      if store.disk != old(store.disk) {
        PendingAuthorizes(old(store.disk), p, c);
        PhaseKeeps(old(store.disk), store.disk, phase, backend.kernel, store.catalog, store.sure);
      }
    }

    /** Puts the previous target back, retires the candidate and clears the intent. */
    method Rollback(p: Option<Id>, c: Id) returns (o: Outcome)
      requires World() && StrongWorld() && Pending(store.disk, p, c) && p != Some(c) && store.disk.activeMay == {p}
      modifies this`healthy, store, backend
      ensures World() && StrongWorld() && store.catalog == old(store.catalog)
      ensures !o.committed && store.disk.active == p && store.disk.activeMay == {p}
      ensures healthy <==> !o.died && !o.degraded
      ensures o.died ==> o == Died
      ensures !o.died ==> o.active == p
      ensures env.steady ==> healthy
      ensures healthy ==> Quiet(store.disk, backend.kernel, store.catalog)
      ensures NoCleanup(store.disk) && store.disk.activeMay <= {p, Some(c)}
      ensures OnlyTouches(old(backend.kernel), backend.kernel, Target(p), Target(Some(c)))
    {
      PendingAuthorizes(store.disk, p, c);
      var failed := Outcome(false, true, p, false);
      var stop := env.Interrupts();
      if stop {
        o := Fail(Err, failed);
        return;
      }
      var r := SwitchKernel(p, c, Some(c), p);
      if !r.Ok? {
        o := Fail(r, failed);
        return;
      }
      r := RetireKernel(p, c, Some(c), p);
      if !r.Ok? {
        o := Fail(r, failed);
        return;
      }
      r := StabilizeStore();
      if !r.Ok? {
        o := Fail(r, failed);
        return;
      }
      r := FinishQuietly();
      if !r.Ok? {
        o := Fail(r, failed);
        return;
      }
      healthy := true;
      o := Outcome(false, false, p, false);
    }

    /** The commit is known to have taken effect: retire the previous target and clear the intent. */
    method ResolveCommitted(p: Option<Id>, c: Id) returns (o: Outcome)
      requires World() && StrongWorld() && Pending(store.disk, p, c) && store.disk.activeMay == {Some(c)}
      requires SwitchedTo(backend.kernel, Target(p), Target(Some(c)))
      modifies this`healthy, store, backend
      ensures World() && StrongWorld() && store.catalog == old(store.catalog)
      ensures (o.committed || o.died) && store.disk.active == Some(c) && store.disk.activeMay == {Some(c)}
      ensures healthy <==> !o.died && !o.degraded
      ensures o.died ==> o == Died
      ensures !o.died ==> o.active == Some(c)
      ensures env.steady ==> healthy && o.committed
      ensures healthy ==> Quiet(store.disk, backend.kernel, store.catalog)
      ensures NoCleanup(store.disk) && store.disk.activeMay <= {p, Some(c)}
      ensures OnlyTouches(old(backend.kernel), backend.kernel, Target(p), Target(Some(c)))
    {
      PendingAuthorizes(store.disk, p, c);
      var failed := Outcome(true, true, Some(c), false);
      var r := StabilizeStore();
      if !r.Ok? {
        o := Fail(r, failed);
        return;
      }
      r := MarkPending(p, c, Committed);
      if !r.Ok? {
        o := Fail(r, failed);
        return;
      }
      o := RetireAndFinish(p, c);
    }

    /** The last steps of a committed apply; a failure leaves the commitment standing. */
    method RetireAndFinish(p: Option<Id>, c: Id) returns (o: Outcome)
      requires World() && StrongWorld() && Pending(store.disk, p, c) && store.disk.activeMay == {Some(c)}
      requires InPhase(store.disk, Committed)
      requires SwitchedTo(backend.kernel, Target(p), Target(Some(c)))
      modifies this`healthy, store, backend
      ensures World() && StrongWorld() && store.catalog == old(store.catalog)
      ensures (o.committed || o.died) && store.disk.active == Some(c) && store.disk.activeMay == {Some(c)}
      ensures healthy <==> !o.died && !o.degraded
      ensures o.died ==> o == Died
      ensures !o.died ==> o.active == Some(c)
      ensures env.steady ==> healthy && o.committed
      ensures healthy ==> Quiet(store.disk, backend.kernel, store.catalog)
      ensures NoCleanup(store.disk) && store.disk.activeMay <= {p, Some(c)}
      ensures OnlyTouches(old(backend.kernel), backend.kernel, Target(p), Target(Some(c)))
    {
      PendingAuthorizes(store.disk, p, c);
      var failed := Outcome(true, true, Some(c), false);
      var r := RetireKernel(p, c, p, Some(c));
      if !r.Ok? {
        o := Fail(r, failed);
        return;
      }
      r := FinishQuietly();
      if !r.Ok? {
        o := Fail(r, failed);
        return;
      }
      var view;
      r, view := store.Read();
      if !r.Ok? {
        o := Fail(r, failed);
        return;
      }
      healthy := true;
      o := Outcome(true, false, store.disk.active, false);
    }

    /** A failed commit may have taken effect: make the records certain, then go by what they say. */
    method ResolveCommitError(p: Option<Id>, c: Id) returns (o: Outcome)
      requires World() && StrongWorld() && Pending(store.disk, p, c) && p != Some(c)
      requires store.disk.activeMay <= {p, Some(c)} && SwitchedTo(backend.kernel, Target(p), Target(Some(c)))
      modifies this`healthy, store, backend
      ensures World() && StrongWorld() && store.catalog == old(store.catalog)
      ensures healthy <==> !o.died && !o.degraded
      ensures o.died ==> o == Died
      ensures o.committed ==> o.active == Some(c)
      ensures !o.committed ==> o.active.None? || o.active == p
      ensures healthy ==> o.active == store.disk.active
      ensures env.steady ==> healthy && (o.committed <==> old(store.disk).active == Some(c))
      ensures healthy ==> Quiet(store.disk, backend.kernel, store.catalog)
      ensures store.disk.active == old(store.disk).active && (store.disk.active == p || store.disk.active == Some(c))
      ensures o.committed ==> store.disk.active == Some(c) && store.disk.activeMay == {Some(c)}
      ensures healthy && !o.committed ==> store.disk.active == p
      ensures NoCleanup(store.disk) && store.disk.activeMay <= {p, Some(c)}
      ensures OnlyTouches(old(backend.kernel), backend.kernel, Target(p), Target(Some(c)))
    {
      var r := StabilizeStore();
      if !r.Ok? {
        o := Fail(r, Outcome(false, true, p, false));
        return;
      }
      var view;
      r, view := store.Read();
      if !r.Ok? {
        o := Fail(r, Outcome(false, true, None, false));
        return;
      }
      if view.active.Some? && view.active.value.id == c {
        o := ResolveCommitted(p, c);
      } else {
        o := Rollback(p, c);
      }
    }

    // ----- Applying a candidate -----

    predicate Current(candidate: Candidate)
      reads this
    {
      if candidate.epoch == 0 then false
      else if candidate.refresh != 0 then candidate.epoch == activeEpoch && candidate.refresh == refreshSequence
      else candidate.epoch == admitted
    }

    /** From the recorded intent to the commit. */
    method SwitchAndCommit(p: Option<Id>, c: Id) returns (o: Outcome)
      requires World() && StrongWorld() && Pending(store.disk, p, c) && p != Some(c) && store.disk.activeMay == {p}
      modifies this`healthy, store, backend
      ensures World() && StrongWorld() && store.catalog == old(store.catalog)
      ensures healthy <==> !o.died && !o.degraded
      ensures o.died ==> o == Died
      ensures o.committed ==> o.active == Some(c)
      ensures !o.committed ==> o.active.None? || o.active == p
      ensures healthy ==> o.active == store.disk.active
      ensures env.steady ==> healthy && o.committed
      ensures healthy ==> Quiet(store.disk, backend.kernel, store.catalog)
      ensures store.disk.active == p || store.disk.active == Some(c)
      ensures o.committed ==> store.disk.active == Some(c) && store.disk.activeMay == {Some(c)}
      ensures healthy && !o.committed ==> store.disk.active == p
      ensures NoCleanup(store.disk) && store.disk.activeMay <= {p, Some(c)}
      ensures OnlyTouches(old(backend.kernel), backend.kernel, Target(p), Target(Some(c)))
    {
      PendingAuthorizes(store.disk, p, c);
      var stop := env.Interrupts();
      if stop {
        o := Rollback(p, c);
        return;
      }
      var r := SwitchKernel(p, c, p, Some(c));
      if r.Crash? {
        o := Fail(r, Died);
        return;
      }
      if r.Err? {
        o := Rollback(p, c);
        return;
      }
      stop := env.Interrupts();
      if stop {
        o := Rollback(p, c);
        return;
      }
      r := MarkPending(p, c, Switching);
      if r.Crash? {
        o := Fail(r, Died);
        return;
      }
      if r.Err? {
        o := Rollback(p, c);
        return;
      }
      o := CommitCandidate(p, c);
    }

    /** The commit and what follows it. */
    method CommitCandidate(p: Option<Id>, c: Id) returns (o: Outcome)
      requires World() && StrongWorld() && Pending(store.disk, p, c) && p != Some(c) && store.disk.activeMay == {p}
      requires InPhase(store.disk, Switching)
      requires SwitchedTo(backend.kernel, Target(p), Target(Some(c)))
      modifies this`healthy, store, backend
      ensures World() && StrongWorld() && store.catalog == old(store.catalog)
      ensures healthy <==> !o.died && !o.degraded
      ensures o.died ==> o == Died
      ensures o.committed ==> o.active == Some(c)
      ensures !o.committed ==> o.active.None? || o.active == p
      ensures healthy ==> o.active == store.disk.active
      ensures env.steady ==> healthy && o.committed
      ensures healthy ==> Quiet(store.disk, backend.kernel, store.catalog)
      ensures store.disk.active == p || store.disk.active == Some(c)
      ensures o.committed ==> store.disk.active == Some(c) && store.disk.activeMay == {Some(c)}
      ensures healthy && !o.committed ==> store.disk.active == p
      ensures NoCleanup(store.disk) && store.disk.activeMay <= {p, Some(c)}
      ensures OnlyTouches(old(backend.kernel), backend.kernel, Target(p), Target(Some(c)))
    {
      var r := store.Commit(c);
      CommitKeeps(old(store.disk), store.disk, p, c, backend.kernel, store.catalog, store.sure);
      if r.Crash? {
        o := Fail(r, Died);
        return;
      }
      if r.Err? {
        o := ResolveCommitError(p, c);
        return;
      }
      var stop := env.Interrupts();
      if stop {
        o := ResolveCommitted(p, c);
        return;
      }
      r := MarkPending(p, c, Committed);
      if r.Crash? {
        o := Fail(r, Died);
        return;
      }
      if r.Err? {
        o := ResolveCommitted(p, c);
        return;
      }
      stop := env.Interrupts();
      if stop {
        o := ResolveCommitted(p, c);
        return;
      }
      o := RetireAndFinish(p, c);
    }

    /** Records the intent to apply a fresh revision over a quiet state. */
    method PrepareFresh(candidate: Revision) returns (r: Res)
      requires World() && Calm(store.disk, backend.kernel, store.catalog) && candidate.id !in store.catalog
      modifies store
      ensures World() && StrongWorld() && store.disk.active == old(store.disk).active
      ensures env.steady ==> r.Ok?
      ensures Target(store.disk.active) == old(Target(store.disk.active))
      ensures store.disk.activeMay == {store.disk.active} && (old(NoCleanup(store.disk)) ==> NoCleanup(store.disk))
      ensures r.Ok? ==> Pending(store.disk, store.disk.active, candidate.id) && store.disk.activeMay == {store.disk.active}
      ensures r.Ok? ==> store.disk.active != Some(candidate.id) && Target(Some(candidate.id)) == candidate.target
    {
      CalmStrong(store.disk, backend.kernel, store.catalog, store.sure);
      CatalogGrows(store.disk, backend.kernel, store.catalog, candidate, store.sure);
      assert RecordsOk(store.disk.active, store.disk.journal, store.sure);
      r := store.Prepare(store.disk.active, candidate);
      MoreFilesKeeps(old(store.disk), backend.kernel, store.catalog, old(store.sure), store.sure);
      if store.disk != old(store.disk) {
        PrepareKeeps(old(store.disk), store.disk, candidate.id, backend.kernel, store.catalog, store.sure);
      }
    }

    /** One apply attempt.  Whatever happens in it, the state stays recoverable; a healthy return is definite. */
    method ApplyLocked(candidate: Candidate, id: Id) returns (o: Outcome)
      requires Valid() && id !in store.catalog
      modifies this`healthy, store, backend
      ensures Valid() && (old(StrongWorld()) ==> StrongWorld())
      ensures !o.died && !o.degraded ==> healthy
      ensures o.committed && healthy ==> !o.died && !o.degraded
      ensures o.committed ==> o.active == Some(id) && Target(Some(id)) == candidate.target
      ensures !o.committed ==> o.active.None? || o.active == old(store.disk).active
      ensures env.steady && old(healthy && !closing && Current(candidate)) ==> healthy && o.committed
      ensures healthy ==> store.disk.active == (if o.committed then Some(id) else old(store.disk).active)
      ensures o.committed ==> store.disk.active == Some(id) && store.disk.activeMay == {Some(id)}
      ensures store.disk.active == old(store.disk).active || store.disk.active == Some(id)
      ensures !old(healthy && !closing && Current(candidate)) ==> store.disk == old(store.disk) && backend.kernel == old(backend.kernel)
      ensures store.disk.activeMay <= old(store.disk.activeMay) + {Some(id)}
      ensures old(NoCleanup(store.disk)) || o.committed ==> NoCleanup(store.disk)
      ensures OnlyTouches(old(backend.kernel), backend.kernel, old(Target(store.disk.active)), candidate.target)
    {
      if closing || !healthy {
        return Outcome(false, !healthy, None, false);
      }
      var stop := env.Interrupts();
      if stop {
        return Outcome(false, false, None, false);
      }
      if !Current(candidate) {
        return Outcome(false, false, None, false);
      }
      var r, view := store.Read();
      if !r.Ok? {
        o := Fail(r, Outcome(false, true, None, false));
        return;
      }
      // The refusal of a pending transaction at this point cannot fire: a healthy engine has none.
      assert view.journal.None?;
      stop := env.Interrupts();
      if stop {
        return Outcome(false, false, store.disk.active, false);
      }
      var p := store.disk.active;
      r := PrepareFresh(Revision(id, candidate.epoch, candidate.refresh, candidate.target));
      if !r.Ok? {
        o := Fail(r, Outcome(false, true, None, false));
        return;
      }
      o := SwitchAndCommit(p, id);
    }

    // ----- Recovery -----

    /** Publishes the candidate again and marks it committed. */
    method Recommit(p: Option<Id>, c: Id, mark: bool) returns (r: Res)
      requires World() && Pending(store.disk, p, c) && store.disk.activeMay == {Some(c)}
      requires Objects(Target(Some(c))) <= backend.kernel.installed
      modifies store
      ensures World() && (old(StrongWorld()) ==> StrongWorld()) && store.catalog == old(store.catalog)
      ensures Pending(store.disk, p, c) && store.disk.active == Some(c) && store.disk.activeMay == {Some(c)}
      ensures r.Ok? ==> InPhase(store.disk, Committed)
      ensures env.steady ==> r.Ok?
    {
      if mark {
        r := MarkPending(p, c, Switching);
        if !r.Ok? {
          return;
        }
      }
      ghost var before := store.disk;
      r := store.Commit(c);
      CommitKeeps(before, store.disk, p, c, backend.kernel, store.catalog, store.sure);
      if !r.Ok? {
        return;
      }
      r := MarkPending(p, c, Committed);
    }

    /** Re-selects the committed candidate and completes its transaction. */
    method Forward(p: Option<Id>, c: Id, mark: bool) returns (r: Res)
      requires World() && Pending(store.disk, p, c) && store.disk.activeMay == {Some(c)}
      modifies store, backend
      ensures World() && (old(StrongWorld()) ==> StrongWorld()) && store.catalog == old(store.catalog)
      ensures store.disk.active == Some(c)
      ensures r.Ok? ==> Quiet(store.disk, backend.kernel, store.catalog)
      ensures env.steady ==> r.Ok?
      ensures OnlyTouches(old(backend.kernel), backend.kernel, Target(p), Target(Some(c)))
    {
      PendingAuthorizes(store.disk, p, c);
      r := SwitchKernel(p, c, p, Some(c));
      if !r.Ok? {
        return;
      }
      r := Recommit(p, c, mark);
      if !r.Ok? {
        return;
      }
      PendingAuthorizes(store.disk, p, c);
      r := RetireKernel(p, c, p, Some(c));
      if !r.Ok? {
        return;
      }
      r := FinishQuietly();
    }

    /** Re-selects the previous target and drops the uncommitted candidate. */
    method Backward(p: Option<Id>, c: Id) returns (r: Res)
      requires World() && Pending(store.disk, p, c) && p != Some(c) && store.disk.activeMay == {p}
      modifies store, backend
      ensures World() && (old(StrongWorld()) ==> StrongWorld()) && store.catalog == old(store.catalog)
      ensures store.disk.active == p
      ensures r.Ok? ==> Quiet(store.disk, backend.kernel, store.catalog)
      ensures env.steady ==> r.Ok?
      ensures OnlyTouches(old(backend.kernel), backend.kernel, Target(p), Target(Some(c)))
    {
      PendingAuthorizes(store.disk, p, c);
      r := SwitchKernel(p, c, Some(c), p);
      if !r.Ok? {
        return;
      }
      r := RetireKernel(p, c, Some(c), p);
      if !r.Ok? {
        return;
      }
      r := FinishQuietly();
    }

    /** Removes everything the cleanup intent names, then the active record and the intent. */
    method CleanupView(ids: set<Id>) returns (r: Res)
      requires World() && Settled(store.disk) && store.disk.journal == Some(Cleanup(ids))
      modifies store, backend
      ensures World() && (old(StrongWorld()) ==> StrongWorld()) && store.catalog == old(store.catalog)
      ensures r.Ok? ==> store.disk.active.None? && NothingOwned(backend.kernel) && Quiet(store.disk, backend.kernel, store.catalog)
      ensures OnlyTouchesOf(old(backend.kernel), backend.kernel, ids, store.catalog)
      ensures env.steady ==> r.Ok?
    {
      r := backend.Cleanup(ids);
      CleanupKernelKeeps(store.disk, ids, old(backend.kernel), backend.kernel, store.catalog, store.sure);
      if !r.Ok? {
        return;
      }
      assert Bounded(store.disk.active, store.disk.journal, old(backend.kernel), store.catalog);
      CleanedEmpty(old(backend.kernel), ids, store.catalog, backend.kernel);
      r := store.RemoveActive();
      RemoveActiveKeeps(old(store.disk), store.disk, ids, backend.kernel, store.catalog, store.sure);
      if !r.Ok? {
        return;
      }
      r := FinishQuietly();
    }

    /** Re-applies the active revision over itself when nothing is pending. */
    method Reapply(a: Id) returns (r: Res)
      requires World() && Settled(store.disk) && store.disk.journal.None? && store.disk.active == Some(a)
      modifies store, backend
      ensures World() && (old(StrongWorld()) ==> StrongWorld()) && store.disk.active == Some(a)
      ensures Target(Some(a)) == old(Target(Some(a)))
      ensures r.Ok? ==> Quiet(store.disk, backend.kernel, store.catalog)
      ensures env.steady ==> r.Ok?
      ensures OnlyTouches(old(backend.kernel), backend.kernel, Target(Some(a)), Target(Some(a)))
    {
      assert RecordsOk(store.disk.active, store.disk.journal, store.sure);
      r := store.Prepare(Some(a), store.catalog[a]);
      assert store.catalog == old(store.catalog);
      MoreFilesKeeps(old(store.disk), backend.kernel, store.catalog, old(store.sure), store.sure);
      if store.disk != old(store.disk) {
        PrepareKeeps(old(store.disk), store.disk, a, backend.kernel, store.catalog, store.sure);
      }
      if !r.Ok? {
        return;
      }
      r := Forward(Some(a), a, true);
    }

    /** Resolves whatever is pending by the records alone. */
    method ResolvePending() returns (r: Res)
      requires World() && Settled(store.disk)
      modifies store, backend
      ensures World() && (old(StrongWorld()) ==> StrongWorld())
      ensures r.Ok? ==> Quiet(store.disk, backend.kernel, store.catalog)
      ensures env.steady ==> r.Ok?
      ensures r.Ok? ==> store.disk.active == (if CleanupFound(old(store.disk)) then None else old(store.disk).active)
      ensures OnlyTouchesOf(old(backend.kernel), backend.kernel, Referenced(old(store.disk).active, old(store.disk).journal), store.catalog)
    {
      ghost var ids := Referenced(store.disk.active, store.disk.journal);
      assert RecordsOk(store.disk.active, store.disk.journal, store.sure);
      assert Bounded(store.disk.active, store.disk.journal, backend.kernel, store.catalog);
      match store.disk.journal
      case None =>
        if store.disk.active.None? {
          return Ok;
        }
        ghost var a := store.disk.active;
        r := Reapply(store.disk.active.value);
        TouchesAmong(old(backend.kernel), backend.kernel, a, a, ids, store.catalog);
      case Some(Cleanup(ids)) =>
        r := CleanupView(ids);
      case Some(Apply(p, c, _)) =>
        if store.disk.active == Some(c) {
          r := Forward(p, c, false);
        } else {
          r := Backward(p, c);
        }
        TouchesAmong(old(backend.kernel), backend.kernel, p, Some(c), ids, store.catalog);
    }

    /** Makes the records certain and resolves what they leave pending. */
    method Resolve() returns (r: Res)
      requires World()
      modifies store, backend
      ensures World() && (old(StrongWorld()) ==> StrongWorld())
      ensures r.Ok? ==> Quiet(store.disk, backend.kernel, store.catalog)
      ensures r.Ok? ==> store.disk.active == (if CleanupFound(old(store.disk)) then None else old(store.disk).active)
      ensures OnlyTouchesOf(old(backend.kernel), backend.kernel, Referenced(old(store.disk).active, old(store.disk).journal), store.catalog)
      ensures env.steady ==> r.Ok?
    {
      var view;
      r, view := store.Read();
      if !r.Ok? {
        return;
      }
      r := StabilizeStore();
      if !r.Ok? {
        return;
      }
      r, view := store.Read();
      if !r.Ok? {
        return;
      }
      r := ResolvePending();
    }

    /** Recovery.  Success leaves nothing pending and the kernel selecting the target of the active record it found. */
    method Recover() returns (r: Res)
      requires Valid()
      modifies this, store, backend
      ensures Valid() && (old(StrongWorld()) ==> StrongWorld())
      ensures r.Ok? <==> healthy
      ensures r.Ok? ==> store.disk.active == (if CleanupFound(old(store.disk)) then None else old(store.disk).active)
      ensures r.Ok? ==> Quiet(store.disk, backend.kernel, store.catalog)
      ensures env.steady && !closing ==> r.Ok?
      ensures r.Ok? ==> activeEpoch == (if store.disk.active.None? then 0 else store.catalog[store.disk.active.value].epoch)
      ensures admitted >= old(admitted) && closing == old(closing)
      ensures emptied == (old(emptied) && !r.Ok?)
      ensures OnlyTouchesOf(old(backend.kernel), backend.kernel, Referenced(old(store.disk).active, old(store.disk).journal), store.catalog)
      ensures ForeignKept(old(backend.kernel), backend.kernel)
    {
      healthy := false;
      if closing {
        return Err;
      }
      r := Resolve();
      TouchesKeepForeign(old(backend.kernel), backend.kernel, Referenced(old(store.disk).active, old(store.disk).journal), store.catalog);
      if !r.Ok? {
        return;
      }
      assert RecordsOk(store.disk.active, store.disk.journal, store.sure);
      Adopt(if store.disk.active.None? then None else Some(store.catalog[store.disk.active.value]));
      // The ban source and the lookup view are restored last.
      var stop := env.Interrupts();
      if stop {
        return Err;
      }
      CalmStrong(store.disk, backend.kernel, store.catalog, store.sure);
      healthy, emptied := true, false;
    }

    // ----- Cleanup -----

    /** Removes only what durable records refer to, behind a recorded intent. */
    method RemoveEverything() returns (r: Res)
      requires Valid()
      modifies this`healthy, this`emptied, store, backend
      ensures Valid() && (old(StrongWorld()) ==> StrongWorld()) && store.catalog == old(store.catalog)
      ensures r.Ok? ==> healthy && store.disk.active.None? && NothingOwned(backend.kernel)
      ensures env.steady && !closing ==> r.Ok?
      ensures emptied == (old(emptied) && !r.Ok?)
      ensures OnlyTouchesOf(old(backend.kernel), backend.kernel, Referenced(old(store.disk).active, old(store.disk).journal), store.catalog)
      ensures ForeignKept(old(backend.kernel), backend.kernel)
    {
      if closing {
        return Err;
      }
      var view;
      r, view := store.Read();
      if !r.Ok? {
        healthy := false;
        return;
      }
      assert RecordsOk(store.disk.active, store.disk.journal, store.sure);
      if view.journal.None? && view.active.None? {
        assert Bounded(None, None, backend.kernel, store.catalog);
        CalmStrong(store.disk, backend.kernel, store.catalog, store.sure);
        healthy, emptied := true, false;
        return Ok;
      }
      ghost var ids := Referenced(store.disk.active, store.disk.journal);
      r := store.BeginCleanup();
      BeginCleanupKeeps(old(store.disk), store.disk, backend.kernel, store.catalog, store.sure);
      if !r.Ok? {
        healthy := false;
        return;
      }
      r, view := store.Read();
      if !r.Ok? {
        healthy := false;
        return;
      }
      r := CleanupView(view.journal.value.ids);
      TouchesKeepForeign(old(backend.kernel), backend.kernel, ids, store.catalog);
      healthy := r.Ok?;
      if r.Ok? {
        CalmStrong(store.disk, backend.kernel, store.catalog, store.sure);
        emptied := false;
      }
    }

    // ----- Admission -----

    /** A new request epoch; it fences every older reload. */
    method Admit() returns (epoch: nat, ok: bool)
      modifies this`admitted
      ensures ok <==> !closing && healthy && old(admitted) != MAX_U64
      ensures if ok then epoch == admitted == old(admitted) + 1 else admitted == old(admitted)
      ensures ok ==> forall c: Candidate :: c.refresh == 0 ==> (Current(c) <==> c.epoch == epoch)
      ensures forall c: Candidate :: c.refresh != 0 ==> (Current(c) <==> old(Current(c)))
    {
      if closing || !healthy || admitted == MAX_U64 {
        return 0, false;
      }
      admitted := admitted + 1;
      return admitted, true;
    }

    /** A new refresh of the active configuration; it fences older refreshes and no reload. */
    method AdmitRefresh(epoch: nat) returns (sequence: nat, ok: bool)
      modifies this`refreshSequence
      ensures ok <==> !closing && healthy && epoch == activeEpoch != 0 && old(refreshSequence) != MAX_U64
      ensures if ok then sequence == refreshSequence == old(refreshSequence) + 1 else refreshSequence == old(refreshSequence)
      ensures ok ==> forall c: Candidate :: c.refresh != 0 ==> (Current(c) <==> c.epoch == epoch && c.refresh == sequence)
      ensures forall c: Candidate :: c.refresh == 0 ==> (Current(c) <==> old(Current(c)))
    {
      if closing || !healthy || epoch == 0 || epoch != activeEpoch || refreshSequence == MAX_U64 {
        return 0, false;
      }
      refreshSequence := refreshSequence + 1;
      return refreshSequence, true;
    }

    method Adopt(revision: Option<Revision>)
      modifies this`activeEpoch, this`refreshSequence, this`admitted
      ensures admitted >= old(admitted)
      ensures revision.None? ==> activeEpoch == 0 && refreshSequence == 0 && admitted == old(admitted)
      ensures revision.Some? ==> activeEpoch == revision.value.epoch <= admitted
      ensures revision.Some? ==> admitted == old(admitted) || admitted == revision.value.epoch
      ensures revision.Some? ==> refreshSequence >= revision.value.refresh
      ensures revision.Some? && revision.value.epoch == old(activeEpoch) ==> refreshSequence >= old(refreshSequence)
      ensures revision.Some? ==> refreshSequence == revision.value.refresh ||
                                 (revision.value.epoch == old(activeEpoch) && refreshSequence == old(refreshSequence))
    {
      if revision.None? {
        activeEpoch, refreshSequence := 0, 0;
        return;
      }
      var r := revision.value;
      if r.epoch != activeEpoch {
        refreshSequence := r.refresh;
      } else if r.refresh > refreshSequence {
        refreshSequence := r.refresh;
      }
      activeEpoch := r.epoch;
      if r.epoch > admitted {
        admitted := r.epoch;
      }
    }

    method ApplyCandidate(candidate: Candidate, id: Id) returns (o: Outcome)
      requires Valid() && id !in store.catalog
      modifies this, store, backend
      ensures Valid() && (old(StrongWorld()) ==> StrongWorld()) && closing == old(closing) && emptied == old(emptied)
      ensures !o.died && !o.degraded ==> healthy
      ensures o.committed && healthy ==> !o.died && !o.degraded
      ensures o.committed ==> o.active == Some(id) && Target(Some(id)) == candidate.target
      ensures !o.committed ==> o.active.None? || o.active == old(store.disk).active
      ensures env.steady && old(healthy && !closing && Current(candidate)) ==> healthy && o.committed
      ensures healthy ==> store.disk.active == (if o.committed then Some(id) else old(store.disk).active)
      ensures o.committed ==> store.disk.active == Some(id) && store.disk.activeMay == {Some(id)} && activeEpoch == candidate.epoch
      ensures store.disk.active == old(store.disk).active || store.disk.active == Some(id)
      ensures !old(healthy && !closing && Current(candidate)) ==> store.disk == old(store.disk) && backend.kernel == old(backend.kernel)
      ensures store.disk.activeMay <= old(store.disk.activeMay) + {Some(id)}
      ensures old(NoCleanup(store.disk)) || o.committed ==> NoCleanup(store.disk)
      ensures OnlyTouches(old(backend.kernel), backend.kernel, old(Target(store.disk.active)), candidate.target)
    {
      o := ApplyLocked(candidate, id);
      if o.committed {
        Adopt(Some(Revision(id, candidate.epoch, candidate.refresh, candidate.target)));
      }
    }

    // ----- Death and rebirth -----

    /** The process ends; what was not synced may be lost, and a host restart takes away all that the
        owner had installed. */
    method Restart(reboot: bool)
      requires World() && (!emptied ==> StrongWorld())
      modifies this, store, backend
      ensures Valid() && !healthy && (old(StrongWorld()) && !reboot ==> StrongWorld())
      ensures Crashed(old(store.disk), store.disk) && store.catalog == old(store.catalog)
      ensures !closing && emptied == (old(emptied) || reboot)
      ensures ForeignKept(old(backend.kernel), backend.kernel) && (!reboot ==> backend.kernel == old(backend.kernel))
    {
      var a :| a in store.disk.activeMay;
      var j :| j in store.disk.journalMay;
      store.disk := Disk(a, {a}, j, {j});
      CrashKeeps(old(store.disk), store.disk, backend.kernel, store.catalog, store.sure);
      if * {
        store.files := store.sure;
      }
      if reboot {
        RebootKeeps(store.disk, backend.kernel, store.catalog, store.sure);
        backend.kernel := Rebooted(backend.kernel);
        emptied := true;
      }
      admitted, activeEpoch, refreshSequence := 0, 0, 0;
      healthy, closing := false, false;
    }
  }

  lemma PendingWithin(d: Disk, p: Option<Id>, c: Id, k: Kernel, cat: Catalog, files: set<Id>)
    requires Inv(d, k, cat, files) && Pending(d, p, c)
    ensures Within(k, TargetOf(cat, p), TargetOf(cat, Some(c)))
  {
    assert Bounded(d.active, d.journal, k, cat);
  }

  // ---------- Whole runs ----------

  datatype Command =
    | DoApply(candidate: Candidate, id: Id)
    | DoRecover
    | DoCleanup
    | DoAdmit
    | DoRefresh(epoch: nat)
    | DoRestart(reboot: bool)
    | DoSteady(on: bool)

  /** After these commands, the last host restart has not been followed by a recovery or cleanup that succeeded. */
  ghost function Emptied(script: seq<Command>, oks: seq<bool>, start: bool): bool
    requires |script| == |oks|
  {
    if script == [] then start
    else
      var n := |script| - 1;
      var before := Emptied(script[..n], oks[..n], start);
      match script[n]
      case DoRestart(reboot) => before || reboot
      case DoRecover => before && !oks[n]
      case DoCleanup => before && !oks[n]
      case _ => before
  }

  /** One command; `ok` says whether it succeeded.  A process that dies is started again. */
  method Obey(engine: Engine, command: Command) returns (ok: bool)
    requires engine.Valid()
    modifies engine, engine.store, engine.backend, engine.env
    ensures engine.Valid() && ForeignKept(old(engine.backend.kernel), engine.backend.kernel)
    ensures engine.emptied ==
            match command {
              case DoRestart(reboot) => old(engine.emptied) || reboot
              case DoRecover => old(engine.emptied) && !ok
              case DoCleanup => old(engine.emptied) && !ok
              case _ => old(engine.emptied)
            }
  {
    ok := true;
    match command
    case DoApply(candidate, id) =>
      if id !in engine.store.catalog {
        var o := engine.ApplyCandidate(candidate, id);
        ok := o.committed;
        if o.died {
          engine.Restart(false);
        }
      }
    case DoRecover =>
      var r := engine.Recover();
      ok := r.Ok?;
      if r.Crash? {
        engine.Restart(false);
      }
    case DoCleanup =>
      var r := engine.RemoveEverything();
      ok := r.Ok?;
      if r.Crash? {
        engine.Restart(false);
      }
    case DoAdmit =>
      var _, admitted := engine.Admit();
      ok := admitted;
    case DoRefresh(epoch) =>
      var _, admitted := engine.AdmitRefresh(epoch);
      ok := admitted;
    case DoRestart(reboot) =>
      engine.Restart(reboot);
    case DoSteady(on) =>
      engine.env.steady := on;
  }

  /** Any sequence of operations, each free to fail or to end the process at any of its steps, keeps the
      invariant: every call into the backend so far was permitted by the journal, and nothing foreign has
      changed.  Unless a host restart is still unrepaired, every active record that a crash could leave has
      its target in the kernel, and with nothing pending the kernel selects exactly that target. */
  method Run(engine: Engine, script: seq<Command>) returns (oks: seq<bool>)
    requires engine.Valid()
    modifies engine, engine.store, engine.backend, engine.env
    ensures engine.Valid() && |oks| == |script| && engine.emptied == Emptied(script, oks, old(engine.emptied))
    ensures AllPermitted(engine.backend.calls) && ForeignKept(old(engine.backend.kernel), engine.backend.kernel)
    ensures !Emptied(script, oks, old(engine.emptied)) ==> InPlace(engine.store.disk, engine.backend.kernel, engine.store.catalog)
  {
    oks := [];
    for i := 0 to |script|
      invariant engine.Valid() && |oks| == i && engine.emptied == Emptied(script[..i], oks, old(engine.emptied))
      invariant ForeignKept(old(engine.backend.kernel), engine.backend.kernel)
    {
      var ok := Obey(engine, script[i]);
      assert script[..i + 1][..i] == script[..i] && (oks + [ok])[..i] == oks;
      oks := oks + [ok];
    }
    assert script[..|script|] == script;
    if !engine.emptied {
      StrongInPlace(engine.store.disk, engine.backend.kernel, engine.store.catalog, engine.store.sure);
    }
  }

  /** Whatever survives a crash, the target of the active record is in the kernel, and is selected exactly
      when no intent can survive with it. */
  ghost predicate InPlace(d: Disk, k: Kernel, cat: Catalog) {
    && (NoCleanup(d) ==> forall a :: a in d.activeMay ==> Objects(TargetOf(cat, a)) <= k.installed)
    && (None in d.journalMay ==> Selects(k, TargetOf(cat, d.active)))
  }

  lemma StrongInPlace(d: Disk, k: Kernel, cat: Catalog, files: set<Id>)
    requires Inv(d, k, cat, files) && Strong(d, k, cat)
    ensures InPlace(d, k, cat)
  {
    assert d.journal in d.journalMay;
    forall a | a in d.activeMay && NoCleanup(d)
      ensures Objects(TargetOf(cat, a)) <= k.installed
    {
      assert Holds(a, d.journal, k, cat);
    }
    if None in d.journalMay {
      assert Holds(d.active, None, k, cat);
    }
  }

  /** Without faults a reload that is admitted and applied is committed, and the kernel selects its target. */
  method Reload(engine: Engine, target: Option<Target>, id: Id) returns (epoch: nat, o: Outcome)
    requires engine.Valid() && engine.env.steady && engine.healthy && !engine.closing
    requires engine.admitted < MAX_U64 && id !in engine.store.catalog
    modifies engine, engine.store, engine.backend
    ensures engine.Valid() && engine.healthy && epoch == old(engine.admitted) + 1 == engine.activeEpoch
    ensures o == Outcome(true, false, Some(id), false) && engine.store.disk.active == Some(id)
    ensures Selects(engine.backend.kernel, target)
    ensures OnlyTouches(old(engine.backend.kernel), engine.backend.kernel, old(engine.Target(engine.store.disk.active)), target)
  {
    var ok;
    epoch, ok := engine.Admit();
    o := engine.ApplyCandidate(Candidate(epoch, 0, target), id);
  }

  /** And so is a refresh of the active configuration. */
  method Refresh(engine: Engine, target: Option<Target>, id: Id) returns (sequence: nat, o: Outcome)
    requires engine.Valid() && engine.env.steady && engine.healthy && !engine.closing && engine.activeEpoch != 0
    requires engine.refreshSequence < MAX_U64 && id !in engine.store.catalog
    modifies engine, engine.store, engine.backend
    ensures engine.Valid() && engine.healthy && sequence == old(engine.refreshSequence) + 1 && engine.activeEpoch == old(engine.activeEpoch)
    ensures o == Outcome(true, false, Some(id), false) && engine.store.disk.active == Some(id)
    ensures Selects(engine.backend.kernel, target)
  {
    var ok;
    sequence, ok := engine.AdmitRefresh(engine.activeEpoch);
    o := engine.ApplyCandidate(Candidate(engine.activeEpoch, sequence, target), id);
  }

  /** A reload admitted later fences an earlier one, even before it is applied itself. */
  method Superseded(engine: Engine, target: Option<Target>, id: Id) returns (ok: bool, o: Outcome)
    requires engine.Valid() && id !in engine.store.catalog
    modifies engine, engine.store, engine.backend
    ensures engine.Valid() && !o.committed
    ensures ok ==> engine.store.disk == old(engine.store.disk) && engine.backend.kernel == old(engine.backend.kernel)
  {
    var first, admitted := engine.Admit();
    if !admitted {
      return false, Outcome(false, !engine.healthy, None, false);
    }
    var _, again := engine.Admit();
    if !again {
      return false, Outcome(false, !engine.healthy, None, false);
    }
    o := engine.ApplyCandidate(Candidate(first, 0, target), id);
    ok := true;
  }

  /** No run can lead where recovery cannot get out: after anything at all, a restart and a recovery
      in which no call fails leave nothing pending and the kernel selecting the active target. */
  method RunThenRecover(engine: Engine, script: seq<Command>, reboot: bool) returns (r: Res)
    requires engine.Valid()
    modifies engine, engine.store, engine.backend, engine.env
    ensures engine.Valid() && r.Ok? && engine.healthy && !engine.emptied
    ensures Quiet(engine.store.disk, engine.backend.kernel, engine.store.catalog)
    ensures ForeignKept(old(engine.backend.kernel), engine.backend.kernel)
  {
    var _ := Run(engine, script);
    engine.Restart(reboot);
    engine.env.steady := true;
    r := engine.Recover();
  }

  /** An apply that fails or dies anywhere, any crash after it, and a recovery that succeeds: nothing is
      pending and the kernel selects the active target, which is the candidate exactly when its commit
      record was the one found.  A commit once reported is never lost.  Only a cleanup that was already
      under way can surface instead.  If no call of the recovery fails, it succeeds; if no call at all
      fails, the candidate is the one selected. */
  method ApplyCrashRecover(engine: Engine, candidate: Candidate, id: Id, crash: bool, reboot: bool, steady: bool)
    returns (o: Outcome, r: Res, ghost found: Option<Id>, ghost cleanup: bool)
    requires engine.Valid() && id !in engine.store.catalog
    modifies engine, engine.store, engine.backend, engine.env
    ensures engine.Valid()
    ensures steady && !old(engine.closing) ==> r.Ok?
    ensures old(engine.env.steady && engine.healthy && !engine.closing && engine.Current(candidate)) ==> found == Some(id)
    ensures found == Some(id) || found in old(engine.store.disk).activeMay
    ensures r.Ok? ==> Quiet(engine.store.disk, engine.backend.kernel, engine.store.catalog)
    ensures r.Ok? ==> engine.store.disk.active == (if cleanup then None else found)
    ensures o.committed ==> found == Some(id) && !cleanup
    ensures cleanup ==> !old(NoCleanup(engine.store.disk))
    ensures !o.died && !o.degraded && !o.committed && !crash && !reboot ==> found == old(engine.store.disk).active
  {
    o := engine.ApplyCandidate(candidate, id);
    if o.died || crash || reboot {
      engine.Restart(reboot);
    }
    engine.env.steady := steady;
    found := engine.store.disk.active;
    cleanup := CleanupFound(engine.store.disk);
    r := engine.Recover();
  }
}
