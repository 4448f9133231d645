/** Executors that drive duplication reservations through the project and worker tables, and may die at any point. */
module DuplicationExecutors {
  import opened Prelude
  import opened Duplications

  /** Where an executor stands between two of its store calls. */
  datatype Phase =
    | HasReservation
    | HasProject
    | HasRecorded
    | HasWorker(worker: nat)
    | HasCopied(worker: nat)
    | Failing
    | Reconciling
    | Marking(project: Option<nat>, failedWorker: Option<nat>)

  /** A live executor: its key, the reserved project it works on, and its next step. */
  datatype Executor = Executor(key: Key, project: nat, phase: Phase)

  /**
   * `copied` holds the workers whose copy finished; `reservedFor` remembers which key each project id was drawn for.
   */
  datatype World = World(
    table: Table,
    projects: map<nat, seq<nat>>,
    copied: set<nat>,
    executors: map<nat, Executor>,
    reservedFor: map<nat, Key>,
    nextId: nat)

  const Empty := World(map[], map[], {}, map[], map[], 0)

  datatype Event =
    | Start(executor: nat, key: Key, request: Request, stale: bool)
    | CreateProject(executor: nat)
    | RecordProject(executor: nat)
    | CreateWorker(executor: nat)
    | FinishCopy(executor: nat)
    | AbandonCopy(executor: nat, removed: bool)
    | CompleteRow(executor: nat)
    | Break(executor: nat)
    | CleanUp(executor: nat)
    | Reconcile(executor: nat)
    | MarkFailed(executor: nat)
    | Crash(executor: nat)

  function At(w: World, e: nat, phase: Phase): World
    requires e in w.executors
  {
    w.(executors := w.executors[e := w.executors[e].(phase := phase)])
  }

  function Done(w: World, e: nat): World {
    w.(executors := w.executors - {e})
  }

  const RESPONSE := "response"

  /** A request arrives: it reserves, or finds a pending row it takes over once stale, or is answered at once. */
  function Started(w: World, e: nat, key: Key, request: Request, stale: bool): World {
    var reply := ReserveReply(w.table, key, request, w.nextId);
    var drawn := w.(table := ReserveTable(w.table, key, request, w.nextId, 0), nextId := w.nextId + 1);
    if e in w.executors || reply.Err? then w
    else match reply.value
      case Reserved(id, _) =>
        drawn.(executors := w.executors[e := Executor(key, id, HasReservation)],
          reservedFor := w.reservedFor[id := key])
      case InProgress(row) =>
        if stale && row.project.Some? then
          drawn.(executors := w.executors[e := Executor(key, row.project.value, Reconciling)]) else drawn
      case _ => drawn
  }

  /** The failure path's look at its project: gone, holding workers, or empty and then deleted. */
  function CleanedUp(w: World, e: nat): World
    requires e in w.executors
  {
    var p := w.executors[e].project;
    if p !in w.projects then At(w, e, Marking(None, None))
    else if w.projects[p] != [] then At(w, e, Marking(Some(p), Some(w.projects[p][0])))
    else At(w.(projects := w.projects - {p}), e, Marking(None, None))
  }

  /** A stale reservation: completed if its one worker was copied, otherwise cleaned up like a failure. */
  function Reconciled(w: World, e: nat): World
    requires e in w.executors
  {
    var x := w.executors[e];
    var p := x.project;
    if p in w.projects && |w.projects[p]| == 1 && w.projects[p][0] in w.copied then
      var completed := Complete(w.table, x.key, p, w.projects[p][0], RESPONSE, 0);
      Done(if completed.Ok? then w.(table := completed.value) else w, e)
    else if p !in w.projects then At(w, e, Marking(None, None))
    else if w.projects[p] == [] then At(w.(projects := w.projects - {p}), e, Marking(None, None))
    else At(w, e, Marking(Some(p), if |w.projects[p]| == 1 then Some(w.projects[p][0]) else None))
  }

  function Without(workers: seq<nat>, x: nat): (r: seq<nat>)
    ensures forall y :: y in r <==> y in workers && y != x
    ensures |r| <= |workers|
  {
    if workers == [] then [] else (if workers[0] == x then [] else [workers[0]]) + Without(workers[1..], x)
  }

  /** One store call of one executor, or its death. Events of an executor that is elsewhere do nothing. */
  function Next(w: World, ev: Event): World {
    if ev.Start? then Started(w, ev.executor, ev.key, ev.request, ev.stale)
    else if ev.executor !in w.executors then w
    else
      var e, x := ev.executor, w.executors[ev.executor];
      match ev
      case CreateProject(_) =>
        if !x.phase.HasReservation? then w
        else if x.project in w.projects then At(w, e, Failing)
        else At(w.(projects := w.projects[x.project := []]), e, HasProject)
      case RecordProject(_) =>
        if !x.phase.HasProject? then w
        else
          var r := Record(w.table, x.key, x.project, 0);
          if r.Err? then At(w, e, Failing) else At(w.(table := r.value), e, HasRecorded)
      case CreateWorker(_) =>
        if !x.phase.HasRecorded? then w
        else if x.project !in w.projects then At(w, e, Failing)
        else At(w.(projects := w.projects[x.project := w.projects[x.project] + [w.nextId]], nextId := w.nextId + 1), e,
          HasWorker(w.nextId))
      case FinishCopy(_) =>
        if !x.phase.HasWorker? then w else At(w.(copied := w.copied + {x.phase.worker}), e, HasCopied(x.phase.worker))
      case AbandonCopy(_, removed) =>
        if !x.phase.HasWorker? then w
        else if removed && x.project in w.projects then
          At(w.(projects := w.projects[x.project := Without(w.projects[x.project], x.phase.worker)]), e, Failing)
        else At(w, e, Failing)
      case CompleteRow(_) =>
        if !x.phase.HasCopied? then w
        else
          var r := Complete(w.table, x.key, x.project, x.phase.worker, RESPONSE, 0);
          if r.Err? then At(w, e, Failing) else Done(w.(table := r.value), e)
      case Break(_) =>
        if x.phase.Marking? || x.phase.Reconciling? then w else At(w, e, Failing)
      case CleanUp(_) =>
        if !x.phase.Failing? then w else CleanedUp(w, e)
      case Reconcile(_) =>
        if !x.phase.Reconciling? then w else Reconciled(w, e)
      case MarkFailed(_) =>
        if !x.phase.Marking? then w
        else
          var r := Fail(w.table, x.key, Write(x.phase.project), Write(x.phase.failedWorker), 0);
          Done(if r.Ok? then w.(table := r.value) else w, e)
      case Crash(_) => Done(w, e)
  }

  // ---------------------------------------------------------------------------
  // One live executor per reservation
  // ---------------------------------------------------------------------------

  /** Nobody takes over a pending reservation whose executor is still alive. */
  predicate Solo(w: World, ev: Event) {
    ev.Start? && ev.stale && IsPending(w.table, ev.key) ==> forall e :: e in w.executors ==>
      w.executors[e].key != ev.key
  }

  /** What an executor in each phase knows about its project. */
  ghost predicate PhaseHolds(w: World, x: Executor) {
    match x.phase
    case HasReservation => x.project !in w.projects
    case HasProject => x.project in w.projects && w.projects[x.project] == []
    case HasRecorded => x.project in w.projects && w.projects[x.project] == []
    case HasWorker(worker) => x.project in w.projects && w.projects[x.project] == [worker]
    case HasCopied(worker) => x.project in w.projects && w.projects[x.project] == [worker]
    case Marking(project, _) => if project.None? then x.project !in w.projects else project == Some(x.project)
    case _ => true
  }

  /** A live executor drives the one pending reservation of its key. */
  ghost predicate ExecutorHolds(w: World, e: nat)
    requires e in w.executors
  {
    var x := w.executors[e];
    && IsPending(w.table, x.key)
    && w.table[x.key].project == Some(x.project)
    && PhaseHolds(w, x)
  }

  /** A project was reserved for some key, and holds at most one worker; only the key's current project holds any. */
  ghost predicate ProjectHolds(w: World, p: nat)
    requires p in w.projects
  {
    && p in w.reservedFor
    && |w.projects[p]| <= 1
    && (w.projects[p] != [] ==> w.reservedFor[p] in w.table && w.table[w.reservedFor[p]].project == Some(p))
  }

  ghost predicate RowHolds(w: World, key: Key)
    requires key in w.table
  {
    var row := w.table[key];
    && (row.project.Some? ==> row.project.value in w.reservedFor && w.reservedFor[row.project.value] == key)
    && (row.status != Failed ==> row.project.Some?)
    && (row.status == Completed ==>
      row.worker.Some? && row.project.value in w.projects && w.projects[row.project.value] == [row.worker.value])
  }

  ghost predicate Holds(w: World) {
    && (forall p :: p in w.reservedFor ==> p < w.nextId)
    && (forall p :: p in w.projects ==> ProjectHolds(w, p))
    && (forall key :: key in w.table ==> RowHolds(w, key))
    && (forall e :: e in w.executors ==> ExecutorHolds(w, e))
    && (forall e, f :: e in w.executors && f in w.executors && e != f ==> w.executors[e].key != w.executors[f].key)
  }

  /** `x` is a workspace some reservation of the key produced. */
  ghost predicate Yields(w: World, key: Key, x: nat) {
    exists p :: p in w.projects && p in w.reservedFor && w.reservedFor[p] == key && x in w.projects[p]
  }

  /** No key ever yields two workspaces, and a retryable key has none. */
  lemma AtMostOneWorkspace(w: World, key: Key, x: nat, y: nat)
    requires Holds(w) && Yields(w, key, x)
    ensures Yields(w, key, y) ==> x == y
    ensures key in w.table && !Retryable(w.table[key])
  {
    var p :| p in w.projects && p in w.reservedFor && w.reservedFor[p] == key && x in w.projects[p];
    assert ProjectHolds(w, p);
    if Yields(w, key, y) {
      var q :| q in w.projects && q in w.reservedFor && w.reservedFor[q] == key && y in w.projects[q];
      assert ProjectHolds(w, q);
    }
  }

  /** A step of executor `e` touches only its own row, its own project and itself. */
  ghost predicate OwnStep(w: World, t: World, e: nat)
    requires e in w.executors
  {
    var x := w.executors[e];
    && t.reservedFor == w.reservedFor && t.nextId >= w.nextId
    && (forall key :: key != x.key ==>
      (key in t.table <==> key in w.table) && (key in w.table ==> t.table[key] == w.table[key]))
    && (forall p :: p != x.project ==>
      (p in t.projects <==> p in w.projects) && (p in w.projects ==> t.projects[p] == w.projects[p]))
    && t.executors - {e} == w.executors - {e}
    && (e in t.executors ==> t.executors[e].key == x.key && t.executors[e].project == x.project)
  }

  lemma OthersApart(w: World, e: nat, f: nat)
    requires Holds(w) && e in w.executors && f in w.executors && e != f
    ensures w.executors[e].key != w.executors[f].key && w.executors[e].project != w.executors[f].project
  {
    assert ExecutorHolds(w, e) && ExecutorHolds(w, f);
    assert RowHolds(w, w.executors[e].key) && RowHolds(w, w.executors[f].key);
  }

  lemma OwnStepOthers(w: World, t: World, e: nat, f: nat)
    requires Holds(w) && e in w.executors && OwnStep(w, t, e)
    requires f in t.executors && f != e
    ensures f in w.executors && t.executors[f] == w.executors[f] && ExecutorHolds(t, f)
  {
    assert f in t.executors - {e};
    assert t.executors[f] == (t.executors - {e})[f] == (w.executors - {e})[f];
    assert ExecutorHolds(w, f);
    OthersApart(w, e, f);
  }

  lemma OwnStepKeeps(w: World, t: World, e: nat)
    requires Holds(w) && e in w.executors && OwnStep(w, t, e)
    requires var x := w.executors[e];
             && x.key in t.table && RowHolds(t, x.key)
             && (x.project in t.projects ==> ProjectHolds(t, x.project))
             && (e in t.executors ==> ExecutorHolds(t, e))
    ensures Holds(t)
  {
    var x := w.executors[e];
    assert ExecutorHolds(w, e) && RowHolds(w, x.key);
    forall f | f in t.executors ensures ExecutorHolds(t, f) {
      if f != e { OwnStepOthers(w, t, e, f); }
    }
    forall f, g | f in t.executors && g in t.executors && f != g ensures t.executors[f].key != t.executors[g].key {
      if f != e { OwnStepOthers(w, t, e, f); }
      if g != e { OwnStepOthers(w, t, e, g); }
    }
    forall p | p in t.projects ensures ProjectHolds(t, p) {
      if p != x.project { assert ProjectHolds(w, p); }
    }
    forall key | key in t.table ensures RowHolds(t, key) {
      if key != x.key { assert RowHolds(w, key); }
    }
  }

  lemma OwnFacts(w: World, e: nat)
    requires Holds(w) && e in w.executors
    ensures var x := w.executors[e];
            ExecutorHolds(w, e) && RowHolds(w, x.key) && (x.project in w.projects ==> ProjectHolds(w, x.project))
  {
  }

  lemma CreateProjectKeeps(w: World, ev: Event)
    requires Holds(w) && (ev.CreateProject? || ev.RecordProject?) && ev.executor in w.executors
    ensures Holds(Next(w, ev))
  {
    OwnFacts(w, ev.executor);
    OwnStepKeeps(w, Next(w, ev), ev.executor);
  }

  lemma CreateWorkerKeeps(w: World, ev: Event)
    requires Holds(w) && (ev.CreateWorker? || ev.FinishCopy?) && ev.executor in w.executors
    ensures Holds(Next(w, ev))
  {
    OwnFacts(w, ev.executor);
    OwnStepKeeps(w, Next(w, ev), ev.executor);
  }

  lemma AbandonKeeps(w: World, ev: Event)
    requires Holds(w) && ev.AbandonCopy? && ev.executor in w.executors
    ensures Holds(Next(w, ev))
  {
    OwnFacts(w, ev.executor);
    OwnStepKeeps(w, Next(w, ev), ev.executor);
  }

  lemma BreakKeeps(w: World, ev: Event)
    requires Holds(w) && ev.Break? && ev.executor in w.executors
    ensures Holds(Next(w, ev))
  {
    OwnFacts(w, ev.executor);
    OwnStepKeeps(w, Next(w, ev), ev.executor);
  }

  lemma CompleteKeeps(w: World, ev: Event)
    requires Holds(w) && (ev.CompleteRow? || ev.MarkFailed?) && ev.executor in w.executors
    ensures Holds(Next(w, ev))
  {
    OwnFacts(w, ev.executor);
    OwnStepKeeps(w, Next(w, ev), ev.executor);
  }

  lemma CleanUpKeeps(w: World, ev: Event)
    requires Holds(w) && (ev.CleanUp?) && ev.executor in w.executors
    ensures Holds(Next(w, ev))
  {
    OwnFacts(w, ev.executor);
    OwnStepKeeps(w, Next(w, ev), ev.executor);
  }

  lemma ReconciledKeeps(w: World, e: nat)
    requires Holds(w) && e in w.executors
    ensures Holds(Reconciled(w, e))
  {
    OwnFacts(w, e);
    var x, t := w.executors[e], Reconciled(w, e);
    assert OwnStep(w, t, e);
    assert RowHolds(t, x.key);
    OwnStepKeeps(w, t, e);
  }

  lemma ReconcileKeeps(w: World, ev: Event)
    requires Holds(w) && ev.Reconcile? && ev.executor in w.executors
    ensures Holds(Next(w, ev))
  {
    ReconciledKeeps(w, ev.executor);
  }

  lemma CrashKeeps(w: World, ev: Event)
    requires Holds(w) && ev.Crash? && ev.executor in w.executors
    ensures Holds(Next(w, ev))
  {
    OwnFacts(w, ev.executor);
    OwnStepKeeps(w, Next(w, ev), ev.executor);
  }

  /** Each store call of a live executor keeps the invariant. */
  lemma DriveKeeps(w: World, ev: Event)
    requires Holds(w) && !ev.Start? && ev.executor in w.executors
    ensures Holds(Next(w, ev))
  {
    match ev
    case CreateProject(_) => CreateProjectKeeps(w, ev);
    case RecordProject(_) => CreateProjectKeeps(w, ev);
    case CreateWorker(_) => CreateWorkerKeeps(w, ev);
    case FinishCopy(_) => CreateWorkerKeeps(w, ev);
    case AbandonCopy(_, _) => AbandonKeeps(w, ev);
    case Break(_) => BreakKeeps(w, ev);
    case CompleteRow(_) => CompleteKeeps(w, ev);
    case MarkFailed(_) => CompleteKeeps(w, ev);
    case CleanUp(_) => CleanUpKeeps(w, ev);
    case Reconcile(_) => ReconcileKeeps(w, ev);
    case Crash(_) => CrashKeeps(w, ev);
  }

  /** A reservation written for a key that has no workspace, under a project id never drawn before. */
  lemma ReservationKeeps(w: World, e: nat, key: Key, row: Row)
    requires Holds(w) && e !in w.executors
    requires key !in w.table || Retryable(w.table[key])
    requires row.status == Pending && row.project == Some(w.nextId)
    ensures Holds(w.(table := w.table[key := row], nextId := w.nextId + 1,
                     executors := w.executors[e := Executor(key, w.nextId, HasReservation)],
                     reservedFor := w.reservedFor[w.nextId := key]))
  {
    var t := w.(table := w.table[key := row], nextId := w.nextId + 1,
                executors := w.executors[e := Executor(key, w.nextId, HasReservation)],
                reservedFor := w.reservedFor[w.nextId := key]);
    forall p | p in t.projects ensures p != w.nextId && ProjectHolds(t, p) {
      assert ProjectHolds(w, p);
    }
    forall other | other in t.table ensures RowHolds(t, other) {
      if other != key { assert RowHolds(w, other); }
    }
    forall f | f in t.executors ensures ExecutorHolds(t, f) && (f != e ==> t.executors[f].key != key) {
      if f != e { assert ExecutorHolds(w, f); }
    }
  }

  /** A takeover of a pending reservation nobody is driving. */
  lemma TakeoverKeeps(w: World, e: nat, key: Key)
    requires Holds(w) && e !in w.executors
    requires IsPending(w.table, key) && w.table[key].project.Some?
    requires forall f :: f in w.executors ==> w.executors[f].key != key
    ensures Holds(w.(nextId := w.nextId + 1,
      executors := w.executors[e := Executor(key, w.table[key].project.value, Reconciling)]))
  {
    var t := w.(nextId := w.nextId + 1,
      executors := w.executors[e := Executor(key, w.table[key].project.value, Reconciling)]);
    DrawKeeps(w);
    forall f | f in t.executors ensures ExecutorHolds(t, f) {
      if f != e { assert ExecutorHolds(w, f); }
    }
    forall p | p in t.projects ensures ProjectHolds(t, p) { assert ProjectHolds(w, p); }
    forall other | other in t.table ensures RowHolds(t, other) { assert RowHolds(w, other); }
  }

  lemma DrawKeeps(w: World)
    requires Holds(w)
    ensures Holds(w.(nextId := w.nextId + 1))
  {
    var t := w.(nextId := w.nextId + 1);
    forall f | f in t.executors ensures ExecutorHolds(t, f) { assert ExecutorHolds(w, f); }
    forall p | p in t.projects ensures ProjectHolds(t, p) { assert ProjectHolds(w, p); }
    forall other | other in t.table ensures RowHolds(t, other) { assert RowHolds(w, other); }
  }

  datatype StartKind = Ignored | Drawn | TakenOver | Reserving(row: Row)

  /** What starting an executor amounts to, case by case. */
  lemma StartCases(w: World, ev: Event) returns (kind: StartKind)
    requires ev.Start?
    ensures !kind.Ignored? && !kind.Drawn? ==> ev.executor !in w.executors
    ensures kind.TakenOver? ==> ev.stale && IsPending(w.table, ev.key) && w.table[ev.key].project.Some?
    ensures kind.Reserving? ==>
      (ev.key !in w.table || Retryable(w.table[ev.key])) && kind.row.status == Pending &&
        kind.row.project == Some(w.nextId)
    ensures Next(w, ev) == match kind
            case Ignored => w
            case Drawn => w.(nextId := w.nextId + 1)
            case TakenOver =>
              if ev.key in w.table && w.table[ev.key].project.Some? then
                w.(nextId := w.nextId + 1,
                  executors := w.executors[ev.executor := Executor(ev.key, w.table[ev.key].project.value, Reconciling)])
              else w
            case Reserving(row) =>
              w.(table := w.table[ev.key := row], nextId := w.nextId + 1,
                 executors := w.executors[ev.executor := Executor(ev.key, w.nextId, HasReservation)],
                 reservedFor := w.reservedFor[w.nextId := ev.key])
  {
    var reply := ReserveReply(w.table, ev.key, ev.request, w.nextId);
    if ev.executor in w.executors || reply.Err? {
      kind := Ignored;
    } else if reply.value.Reserved? {
      var table := ReserveTable(w.table, ev.key, ev.request, w.nextId, 0);
      kind := Reserving(table[ev.key]);
      assert table == w.table[ev.key := table[ev.key]];
    } else if reply.value.InProgress? && ev.stale && reply.value.row.project.Some? {
      kind := TakenOver;
    } else {
      kind := Drawn;
    }
  }

  lemma StartKeeps(w: World, ev: Event)
    requires Holds(w) && ev.Start? && Solo(w, ev)
    ensures Holds(Next(w, ev))
  {
    var kind := StartCases(w, ev);
    match kind
    case Ignored =>
    case Drawn => DrawKeeps(w);
    case TakenOver => TakeoverKeeps(w, ev.executor, ev.key);
    case Reserving(row) => ReservationKeeps(w, ev.executor, ev.key, row);
  }

  lemma NextKeeps(w: World, ev: Event)
    requires Holds(w) && Solo(w, ev)
    ensures Holds(Next(w, ev))
  {
    if ev.Start? {
      StartKeeps(w, ev);
    } else if ev.executor in w.executors {
      DriveKeeps(w, ev);
    }
  }

  ghost predicate Step(w: World, ev: Event, t: World) {
    t == Next(w, ev)
  }

  ghost predicate IsRun(worlds: seq<World>, events: seq<Event>) {
    && |worlds| == |events| + 1 && worlds[0] == Empty
    && forall k :: 0 <= k < |events| ==> Step(worlds[k], events[k], worlds[k + 1])
  }

  lemma {:induction false} SoloRunHolds(worlds: seq<World>, events: seq<Event>, n: nat)
    requires IsRun(worlds, events) && n < |worlds|
    requires forall k :: 0 <= k < n ==> Solo(worlds[k], events[k])
    ensures Holds(worlds[n])
  {
    if n != 0 {
      SoloRunHolds(worlds, events, n - 1);
      assert Step(worlds[n - 1], events[n - 1], worlds[n]);
      NextKeeps(worlds[n - 1], events[n - 1]);
    }
  }

  /**
   * Under any interleaving and any crashes, with one live executor per reservation, no key has two workspaces and no
   * retryable key has one.
   */
  lemma OneWorkspacePerKey(worlds: seq<World>, events: seq<Event>, n: nat, key: Key, x: nat, y: nat)
    requires IsRun(worlds, events) && n < |worlds|
    requires forall k :: 0 <= k < n ==> Solo(worlds[k], events[k])
    requires Yields(worlds[n], key, x)
    ensures Yields(worlds[n], key, y) ==> x == y
    ensures key in worlds[n].table && !Retryable(worlds[n].table[key])
  {
    SoloRunHolds(worlds, events, n);
    AtMostOneWorkspace(worlds[n], key, x, y);
  }

  /** A completed key's response names the one workspace it has. */
  lemma CompletedNamesWorkspace(worlds: seq<World>, events: seq<Event>, n: nat, key: Key)
    requires IsRun(worlds, events) && n < |worlds|
    requires forall k :: 0 <= k < n ==> Solo(worlds[k], events[k])
    requires IsCompleted(worlds[n].table, key)
    ensures worlds[n].table[key].worker.Some? && Yields(worlds[n], key, worlds[n].table[key].worker.value)
  {
    SoloRunHolds(worlds, events, n);
    assert RowHolds(worlds[n], key);
  }

  // ---------------------------------------------------------------------------
  // Why the executor must be alone
  // ---------------------------------------------------------------------------

  /** Three store calls of an executor with a fresh reservation: project, record, worker. */
  function Worked(w: World, e: nat): World {
    Next(Next(Next(w, CreateProject(e)), RecordProject(e)), CreateWorker(e))
  }

  lemma WorkedMakesWorker(w: World, e: nat)
    requires e in w.executors && w.executors[e].phase.HasReservation?
    requires w.executors[e].project !in w.projects && IsPending(w.table, w.executors[e].key)
    ensures var x := w.executors[e];
            && Worked(w, e).projects == w.projects[x.project := [w.nextId]]
            && Worked(w, e).reservedFor == w.reservedFor
            && Worked(w, e).nextId == w.nextId + 1
            && IsPending(Worked(w, e).table, x.key)
            && Worked(w, e).executors - {e} == w.executors - {e}
  {
    var x := w.executors[e];
    var w1 := Next(w, CreateProject(e));
    assert w1.executors[e] == x.(phase := HasProject) && w1.projects == w.projects[x.project := []];
    var w2 := Next(w1, RecordProject(e));
    assert w2.executors[e] == x.(phase := HasRecorded) && w2.projects == w1.projects && w2.nextId == w.nextId;
    var t := Worked(w, e);
    assert t.projects == w2.projects[x.project := w2.projects[x.project] + [w.nextId]];
    assert w2.projects[x.project] + [w.nextId] == [w.nextId];
    assert t.projects.Keys == w.projects[x.project := [w.nextId]].Keys;
  }

  /** Two live executors of one key, each with a reservation, each make it a workspace. */
  lemma TwoExecutorsYieldTwo(w: World, e: nat, f: nat)
    requires e != f && e in w.executors && f in w.executors
    requires w.executors[e].phase.HasReservation? && w.executors[f].phase.HasReservation?
    requires w.executors[e].key == w.executors[f].key && IsPending(w.table, w.executors[e].key)
    requires w.executors[e].project != w.executors[f].project
    requires w.executors[e].project !in w.projects && w.executors[f].project !in w.projects
    requires w.executors[e].project in w.reservedFor && w.reservedFor[w.executors[e].project] == w.executors[e].key
    requires w.executors[f].project in w.reservedFor && w.reservedFor[w.executors[f].project] == w.executors[e].key
    ensures var t := Worked(Worked(w, e), f);
            Yields(t, w.executors[e].key, w.nextId) && Yields(t, w.executors[e].key, w.nextId + 1)
  {
    WorkedMakesWorker(w, e);
    var v := Worked(w, e);
    assert f in w.executors - {e};
    assert v.executors[f] == (v.executors - {e})[f] == w.executors[f];
    WorkedMakesWorker(v, f);
    var t := Worked(v, f);
    assert w.nextId in t.projects[w.executors[e].project] && w.nextId + 1 in t.projects[w.executors[f].project];
  }

  function AfterFirst(key: Key, request: Request): World {
    World(map[key := Row(request, Pending, Some(0), None, "", 0)], map[], {},
      map[1 := Executor(key, 0, HasReservation)], map[0 := key], 1)
  }

  /** Executor 1 lives on with a reservation the table no longer knows; executor 3 holds the one it does. */
  function Overtaken(key: Key, request: Request): World {
    World(map[key := Row(request, Pending, Some(2), None, "", 0)], map[], {},
          map[1 := Executor(key, 0, HasReservation), 3 := Executor(key, 2, HasReservation)], map[0 := key, 2 := key], 3)
  }

  lemma FirstReserves(key: Key, request: Request)
    ensures Next(Empty, Start(1, key, request, false)) == AfterFirst(key, request)
  {
  }

  /** Executor 2 takes the reservation over while 1 lives, finds no project, and fails it as retryable. */
  lemma TakeoverFrees(key: Key, request: Request)
    ensures var w := AfterFirst(key, request);
            Next(Next(Next(w, Start(2, key, request, true)), Reconcile(2)), MarkFailed(2))
            == w.(table := map[key := w.table[key].(status := Failed, project := None)], nextId := 2)
  {
    var w := AfterFirst(key, request);
    var taken := Next(w, Start(2, key, request, true));
    assert taken == w.(executors := w.executors[2 := Executor(key, 0, Reconciling)], nextId := 2);
    var marking := Next(taken, Reconcile(2));
    assert marking == taken.(executors := w.executors[2 := Executor(key, 0, Marking(None, None))]);
    assert Next(marking, MarkFailed(2)).executors == w.executors;
  }

  lemma ThirdReserves(key: Key, request: Request)
    ensures var w := AfterFirst(key, request);
            Next(w.(table := map[key := w.table[key].(status := Failed, project := None)], nextId := 2),
              Start(3, key, request, false))
            == Overtaken(key, request)
  {
  }

  /** So with a takeover while the first executor lives, one key ends with two workspaces. */
  lemma TakeoverWhileAliveYieldsTwo(key: Key, request: Request)
    ensures var first := Next(Empty, Start(1, key, request, false));
            var freed := Next(Next(Next(first, Start(2, key, request, true)), Reconcile(2)), MarkFailed(2));
            var overtaken := Next(freed, Start(3, key, request, false));
            var t := Worked(Worked(overtaken, 3), 1);
            Yields(t, key, 3) && Yields(t, key, 4)
  {
    FirstReserves(key, request);
    TakeoverFrees(key, request);
    ThirdReserves(key, request);
    TwoExecutorsYieldTwo(Overtaken(key, request), 3, 1);
  }
}
