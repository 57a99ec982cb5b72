/** The lock-free lookup view (internal/app/lookup.go:28-102).

    Writers are serialized by the engine's lock, but each of their operations is several
    atomic steps, and one reader runs between any two of them.
 */
module QueryView {
  import opened Basics

  // ---------- Shared state ----------

  /** A published snapshot; the token is the version it was published under. */
  datatype View = View(content: nat, token: nat)

  datatype Shared = Shared(version: nat, view: Option<View>, fallback: Option<View>)

  /** The atomic steps writers are made of. */
  datatype Micro =
    | KeepFallback
    | Bump
    | ClearView
    | ClearFallback
    | StoreView(content: nat)

  datatype Operation = Invalidate | Abort | Restore | Publish(content: nat)

  function PublishSteps(content: nat): seq<Micro> {
    [Bump, StoreView(content), ClearFallback]
  }

  /** Restoring publishes the fallback again, and does nothing without one. */
  function Steps(op: Operation, fallback: Option<View>): seq<Micro> {
    match op
    case Invalidate => [KeepFallback, Bump, ClearView]
    case Abort => [Bump, ClearView, ClearFallback]
    case Restore => if fallback.None? then [] else PublishSteps(fallback.value.content)
    case Publish(content) => PublishSteps(content)
  }

  /** A view is stored under the version its publication has just reached. */
  function Do(s: Shared, m: Micro): Shared {
    match m
    case KeepFallback => if s.view.Some? then s.(fallback := s.view) else s
    case Bump => s.(version := s.version + 1)
    case ClearView => s.(view := None)
    case ClearFallback => s.(fallback := None)
    case StoreView(content) => s.(view := Some(View(content, s.version)))
  }

  function DoAll(s: Shared, ms: seq<Micro>): Shared
    decreases |ms|
  {
    if ms == [] then s else DoAll(Do(s, ms[0]), ms[1..])
  }

  lemma DoThree(s: Shared, a: Micro, b: Micro, c: Micro)
    ensures DoAll(s, [a, b, c]) == Do(Do(Do(s, a), b), c)
  {
    assert [a, b, c][1..] == [b, c] && [b, c][1..] == [c] && [c][1..] == [];
    assert DoAll(s, [a, b, c]) == DoAll(Do(s, a), [b, c]);
    assert DoAll(Do(s, a), [b, c]) == DoAll(Do(Do(s, a), b), [c]);
    assert DoAll(Do(Do(s, a), b), [c]) == DoAll(Do(Do(Do(s, a), b), c), []);
  }

  /** The writers' methods, each run under the lock. */
  class Fields {
    var version: nat
    var view: Option<View>
    var fallback: Option<View>

    ghost function State(): Shared
      reads this
    {
      Shared(version, view, fallback)
    }

    constructor ()
      ensures State() == Shared(0, None, None)
    {
      version, view, fallback := 0, None, None;
    }

    method Invalidate()
      modifies this
      ensures State() == DoAll(old(State()), Steps(Operation.Invalidate, None))
    {
      DoThree(State(), KeepFallback, Bump, ClearView);
      if view.Some? {
        fallback := view;
      }
      version := version + 1;
      view := None;
    }

    method Abort()
      modifies this
      ensures State() == DoAll(old(State()), Steps(Operation.Abort, None))
    {
      DoThree(State(), Bump, ClearView, ClearFallback);
      version := version + 1;
      view := None;
      fallback := None;
    }

    method Publish(content: nat)
      modifies this
      ensures State() == DoAll(old(State()), PublishSteps(content))
    {
      DoThree(State(), Bump, StoreView(content), ClearFallback);
      version := version + 1;
      view := Some(View(content, version));
      fallback := None;
    }

    method Restore()
      modifies this
      ensures State() == DoAll(old(State()), Steps(Operation.Restore, old(fallback)))
    {
      if fallback.None? {
        return;
      }
      Publish(fallback.value.content);
    }
  }

  // ---------- A reader among the writers ----------

  /** Where the reader is: it loads the view, then the version, evaluates, and loads both again. */
  datatype Reader =
    | Idle
    | Loaded(seen: Option<View>)
    | Held(view: View, version: nat)
    | Rechecked(view: View, version: nat)
    | Answered(view: View)
    | Unavailable
    | Stale

  /** `published` lists every view ever stored. */
  datatype System = System(shared: Shared, pending: seq<Micro>, reader: Reader, published: seq<View>)

  datatype Event = Begin(op: Operation) | WriterStep | ReaderStep

  const Initial := System(Shared(0, None, None), [], Idle, [])

  function ReaderNext(s: Shared, r: Reader): Reader {
    match r
    case Idle => Loaded(s.view)
    case Loaded(seen) => if seen.Some? && seen.value.token == s.version then Held(seen.value, s.version) else Unavailable
    case Held(view, version) => if s.version == version then Rechecked(view, version) else Stale
    case Rechecked(view, version) => if s.view == Some(view) then Answered(view) else Stale
    case _ => r
  }

  /** An operation begins only when the previous one is done; any step may come next. */
  function Next(s: System, e: Event): System {
    match e
    case Begin(op) => if s.pending == [] then s.(pending := Steps(op, s.shared.fallback)) else s
    case WriterStep =>
      if s.pending == [] then s
      else
        var m := s.pending[0];
        var shared := Do(s.shared, m);
        System(shared, s.pending[1..], s.reader, if m.StoreView? then s.published + [shared.view.value] else s.published)
    case ReaderStep => s.(reader := ReaderNext(s.shared, s.reader))
  }

  ghost predicate IsTrace(states: seq<System>, events: seq<Event>) {
    |states| == |events| + 1 && states[0] == Initial && forall i :: 0 <= i < |events| ==> states[i + 1] == Next(states[i], events[i])
  }

  ghost predicate LastPublished(s: System, v: View) {
    s.published != [] && s.published[|s.published| - 1] == v
  }

  // ---------- What every step keeps ----------

  /** The stored view is the last one published, from no later than the current version. */
  ghost predicate SharedOk(s: System) {
    && (s.published != [] ==> s.published[|s.published| - 1].token <= s.shared.version)
    && (s.shared.view.Some? ==> LastPublished(s, s.shared.view.value))
  }

  /** An operation that has bumped the version and not yet replaced the view has outdated it. */
  ghost predicate PendingOk(s: System) {
    && (s.pending == [] || s.pending == [ClearFallback] || s.pending == [ClearView]
        || s.pending == [Bump, ClearView] || s.pending == [KeepFallback, Bump, ClearView]
        || s.pending == [ClearView, ClearFallback] || s.pending == [Bump, ClearView, ClearFallback]
        || Publishing(s.pending))
    && (s.pending != [] && (s.pending[0].ClearView? || s.pending[0].StoreView?) ==>
          (s.published != [] ==> s.published[|s.published| - 1].token < s.shared.version))
  }

  /** A stored view has the current version, except between a bump and what follows it. */
  ghost predicate Coherent(s: System) {
    s.shared.view.Some? && (s.pending == [] || !(s.pending[0].ClearView? || s.pending[0].StoreView?)) ==>
      s.shared.view.value.token == s.shared.version
  }

  ghost predicate Publishing(ms: seq<Micro>) {
    exists content :: ms == PublishSteps(content) || ms == [StoreView(content), ClearFallback]
  }

  /** What the reader holds is still the last published view, unless the version has moved on. */
  ghost predicate ReaderOk(s: System) {
    match s.reader
    case Loaded(Some(v)) => v.token <= s.shared.version && (v.token == s.shared.version ==> s.shared.view == Some(v))
    case Held(v, n) => v.token == n <= s.shared.version && (n == s.shared.version ==> s.shared.view == Some(v))
    case Rechecked(v, n) => v.token == n <= s.shared.version
    case _ => true
  }

  ghost predicate Inv(s: System) {
    SharedOk(s) && PendingOk(s) && ReaderOk(s) && Coherent(s)
  }

  lemma BeginKeeps(s: System, op: Operation)
    requires Inv(s)
    ensures Inv(Next(s, Begin(op)))
  {
    if s.pending == [] {
      var steps := Steps(op, s.shared.fallback);
      match op {
        case Restore =>
          if s.shared.fallback.Some? {
            assert steps == PublishSteps(s.shared.fallback.value.content);
            assert Publishing(steps);
          }
        case Publish(content) => assert Publishing(steps);
        case _ =>
      }
    }
  }

  lemma ReaderKeeps(s: System)
    requires Inv(s)
    ensures Inv(Next(s, ReaderStep))
  {
  }

  lemma PendingTail(s: System)
    requires Inv(s) && s.pending != []
    ensures var rest := s.pending[1..];
            rest == [] || rest == [ClearFallback] || rest == [ClearView] || rest == [Bump, ClearView]
            || rest == [ClearView, ClearFallback] || exists content :: rest == [StoreView(content), ClearFallback]
    ensures s.pending[0].Bump? ==> s.pending[1..] != []
    ensures s.pending[0].KeepFallback? ==> s.pending[1..] == [Bump, ClearView]
    ensures s.pending[0].ClearFallback? ==> s.pending[1..] == []
    ensures s.pending[0].ClearView? ==> s.pending[1..] == [] || s.pending[1..] == [ClearFallback]
    ensures s.pending[0].StoreView? ==> s.pending[1..] == [ClearFallback]
  {
    var ms := s.pending;
    if Publishing(ms) {
      var content :| ms == PublishSteps(content) || ms == [StoreView(content), ClearFallback];
      if ms == PublishSteps(content) {
        assert ms[1..] == [StoreView(content), ClearFallback];
      } else {
        assert ms[1..] == [ClearFallback];
      }
    }
  }

  lemma WriterKeeps(s: System)
    requires Inv(s)
    ensures Inv(Next(s, WriterStep))
  {
    if s.pending != [] {
      PendingTail(s);
      var rest := s.pending[1..];
      if content :| rest == [StoreView(content), ClearFallback] {
        assert Publishing(rest);
      }
    }
  }

  lemma {:induction false} TraceKeeps(states: seq<System>, events: seq<Event>, i: nat)
    requires IsTrace(states, events) && i < |states|
    ensures Inv(states[i])
    decreases i
  {
    if i > 0 {
      TraceKeeps(states, events, i - 1);
      assert states[i] == Next(states[i - 1], events[i - 1]);
      match events[i - 1] {
        case Begin(op) => BeginKeeps(states[i - 1], op);
        case WriterStep => WriterKeeps(states[i - 1]);
        case ReaderStep => ReaderKeeps(states[i - 1]);
      }
    }
  }

  /** Versions never go back. */
  lemma {:induction false} VersionsGrow(states: seq<System>, events: seq<Event>, i: nat, j: nat)
    requires IsTrace(states, events) && i <= j < |states|
    ensures states[i].shared.version <= states[j].shared.version
    decreases j - i
  {
    if i < j {
      VersionsGrow(states, events, i, j - 1);
      assert states[j] == Next(states[j - 1], events[j - 1]);
    }
  }

  function Rank(r: Reader): nat {
    match r
    case Idle => 0
    case Loaded(_) => 1
    case Held(_, _) => 2
    case Rechecked(_, _) => 3
    case _ => 4
  }

  /** The reader only moves forward, and stays as it is while its rank stays. */
  lemma {:induction false} ReaderForward(states: seq<System>, events: seq<Event>, i: nat, j: nat)
    requires IsTrace(states, events) && i <= j < |states|
    ensures Rank(states[i].reader) <= Rank(states[j].reader)
    ensures Rank(states[i].reader) == Rank(states[j].reader) ==> states[i].reader == states[j].reader
    decreases j - i
  {
    if i < j {
      ReaderForward(states, events, i, j - 1);
      assert states[j] == Next(states[j - 1], events[j - 1]);
    }
  }

  /** The step at which the reader's rank reaches `r`. */
  lemma Reaches(states: seq<System>, events: seq<Event>, r: nat, end: nat) returns (i: nat)
    requires IsTrace(states, events) && end < |states| && 0 < r <= Rank(states[end].reader)
    ensures 0 < i <= end && Rank(states[i - 1].reader) < r <= Rank(states[i].reader)
    ensures states[i].reader == ReaderNext(states[i - 1].shared, states[i - 1].reader) && states[i].shared == states[i - 1].shared
    ensures states[i].published == states[i - 1].published
  {
    i := 0;
    while Rank(states[i].reader) < r
      invariant i <= end && (i > 0 ==> Rank(states[i - 1].reader) < r)
      decreases end - i
    {
      i := i + 1;
    }
    assert states[i] == Next(states[i - 1], events[i - 1]);
  }

  /** The version and the view are those the answer rests on, the last ones published. */
  ghost predicate Steady(s: System, v: View) {
    s.shared.version == v.token && s.shared.view == Some(v) && LastPublished(s, v)
  }

  /** An answer that is not stale comes from the last published view: from the reader's first
      version read to its second, nothing was invalidated or published. */
  lemma AnswerIsSteady(states: seq<System>, events: seq<Event>, end: nat, v: View)
    returns (first: nat, second: nat, last: nat)
    requires IsTrace(states, events) && end < |states| && states[end].reader == Answered(v)
    ensures 0 < first < second < last <= end
    ensures states[first - 1].reader.Loaded? && states[first].reader == Held(v, v.token)
    ensures states[second - 1].reader == Held(v, v.token) && states[second].reader == Rechecked(v, v.token)
    ensures states[last - 1].reader == Rechecked(v, v.token) && states[last - 1].shared.view == Some(v)
    ensures forall m :: first <= m <= second ==> Steady(states[m], v)
  {
    first := Reaches(states, events, 2, end);
    second := Reaches(states, events, 3, end);
    last := Reaches(states, events, 4, end);
    ReaderForward(states, events, first, end);
    ReaderForward(states, events, second, end);
    ReaderForward(states, events, last, end);
    assert states[first].reader.Held? && states[second].reader.Rechecked? && states[last].reader == Answered(v);
    if second <= first {
      ReaderForward(states, events, second, first);
    }
    if last <= second {
      ReaderForward(states, events, last, second);
    }
    ReaderForward(states, events, second, last - 1);
    ReaderForward(states, events, first, second - 1);
    TraceKeeps(states, events, first);
    forall m | first <= m <= second
      ensures Steady(states[m], v)
    {
      VersionsGrow(states, events, first, m);
      VersionsGrow(states, events, m, second);
      if m < second {
        ReaderForward(states, events, first, m);
        ReaderForward(states, events, m, second - 1);
        TraceKeeps(states, events, m);
      } else {
        TraceKeeps(states, events, second - 1);
        ReaderForward(states, events, first, second - 1);
      }
    }
  }

  lemma HeldBefore(states: seq<System>, events: seq<Event>, end: nat) returns (first: nat)
    requires IsTrace(states, events) && end < |states| && (states[end].reader.Held? || states[end].reader.Rechecked?)
    ensures 0 < first <= end && states[first].reader == Held(states[end].reader.view, states[end].reader.version)
    ensures Steady(states[first], states[end].reader.view) && states[first].shared.version == states[end].reader.version
  {
    first := Reaches(states, events, 2, end);
    ReaderForward(states, events, first, end);
    TraceKeeps(states, events, first);
    if states[end].reader.Rechecked? {
      var second := Reaches(states, events, 3, end);
      ReaderForward(states, events, second, end);
      if second <= first {
        ReaderForward(states, events, second, first);
      }
      ReaderForward(states, events, first, second - 1);
    }
  }

  /** No reader is turned away without cause: when the answer is called stale, the version or the
      view has changed since the reader took its view. */
  lemma StaleMeansChange(states: seq<System>, events: seq<Event>, end: nat) returns (first: nat, last: nat)
    requires IsTrace(states, events) && end < |states| && states[end].reader.Stale?
    ensures 0 < first < last <= end && states[first].reader.Held?
    ensures states[last].shared.version != states[first].shared.version || states[last].shared.view != states[first].shared.view
  {
    last := Reaches(states, events, 4, end);
    ReaderForward(states, events, last, end);
    first := HeldBefore(states, events, last - 1);
  }

  // ---------- What is promised when nothing interferes ----------

  function ReaderRun(s: System): Reader {
    ReaderNext(s.shared, ReaderNext(s.shared, ReaderNext(s.shared, ReaderNext(s.shared, Idle))))
  }

  /** Between operations there is always a coherent view or none: in every trace, a reader that is not
      disturbed is answered from the last published view, and is refused only when that was taken back. */
  lemma Undisturbed(states: seq<System>, events: seq<Event>, i: nat)
    requires IsTrace(states, events) && i < |states| && states[i].pending == []
    ensures var s := states[i];
            match s.shared.view
            case None => ReaderRun(s) == Unavailable
            case Some(v) => ReaderRun(s) == Answered(v) && LastPublished(s, v)
  {
    TraceKeeps(states, events, i);
  }

  ghost function After(s: Shared, op: Operation): Shared {
    DoAll(s, Steps(op, s.fallback))
  }

  /** Restoring undoes any number of invalidations: the content comes back, under a version of its own. */
  lemma {:induction false} RestoreUndoes(s: Shared, n: nat)
    requires s.view.Some?
    ensures var back := After(Invalidated(s, n), Restore);
            n > 0 ==> back.view == Some(View(s.view.value.content, back.version)) && back.version == s.version + n + 1 && back.fallback.None?
  {
    if n > 0 {
      InvalidatedHolds(s, n);
      var t := Invalidated(s, n);
      DoThree(t, Bump, StoreView(t.fallback.value.content), ClearFallback);
    }
  }

  ghost function Invalidated(s: Shared, n: nat): Shared {
    if n == 0 then s else After(Invalidated(s, n - 1), Invalidate)
  }

  /** Nothing can be read, and what was last read is kept. */
  lemma {:induction false} InvalidatedHolds(s: Shared, n: nat)
    requires s.view.Some? && n > 0
    ensures var t := Invalidated(s, n); t.view.None? && t.fallback == s.view && t.version == s.version + n
    decreases n
  {
    if n > 1 {
      InvalidatedHolds(s, n - 1);
    }
    DoThree(Invalidated(s, n - 1), KeepFallback, Bump, ClearView);
  }

  /** After an abort there is nothing to restore. */
  lemma AbortForgets(s: Shared)
    ensures var t := After(s, Abort); t.view.None? && t.version > s.version && After(t, Restore) == t
  {
    DoThree(s, Bump, ClearView, ClearFallback);
  }
}
