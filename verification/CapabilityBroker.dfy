/** The registry of active capability grants, and what becomes of every grant the broker hands out. */
module CapabilityBroker {
  import opened Prelude

  /** A worker and one of its runs. */
  datatype Key = Key(worker: string, run: string)

  /**
   * How far a use of the broker for a run has come: asking for a grant, holding an answer with a grant that is not
   * yet in the table, inside the run, or over.
   */
  datatype Phase = Asking | Answered | Inside | Over

  datatype Bind = Bind(key: Key, phase: Phase)

  /**
   * A bind gets at most one grant, which is known by the bind's position. A grant taken out of the table waits in
   * `queued` until the thread that took it has sent its revocation.
   */
  datatype State = State(binds: seq<Bind>, granted: set<nat>, active: map<Key, nat>, queued: set<nat>, sent: seq<nat>,
                         rejected: set<nat>, conflicts: set<nat>)

  /** Events of all threads, interleaved: each is atomic, holding the lock or outside shared state. */
  datatype Event =
    | Enter(key: Key)
    | Answer(bind: nat, granted: bool)
    | Reject(bind: nat)
    | Store(bind: nat)
    | Take(worker: string, run: Option<string>)
    | Leave(bind: nat)
    | Send(bind: nat)

  const Empty := State([], {}, map[], {}, [], {}, {})

  predicate Matches(key: Key, worker: string, run: Option<string>) {
    key.worker == worker && (run.None? || run.value == key.run)
  }

  predicate In(s: State, b: nat, phase: Phase) {
    b < |s.binds| && s.binds[b].phase == phase
  }

  function Moved(s: State, b: nat, phase: Phase): seq<Bind>
    requires b < |s.binds|
  {
    s.binds[b := s.binds[b].(phase := phase)]
  }

  /** The critical section of `revoke_active`: matching grants leave the table. */
  function Taken(s: State, worker: string, run: Option<string>): State {
    s.(active := map k | k in s.active && !Matches(k, worker, run) :: s.active[k],
       queued := s.queued + set k | k in s.active && Matches(k, worker, run) :: s.active[k])
  }

  predicate Possible(s: State, e: Event) {
    match e
    case Enter(_) => true
    case Answer(b, _) => In(s, b, Asking)
    case Reject(b) => In(s, b, Answered)
    case Store(b) => In(s, b, Answered)
    case Take(_, _) => true
    case Leave(b) => In(s, b, Inside)
    case Send(b) => b in s.queued
  }

  function Next(s: State, e: Event): State
    requires Possible(s, e)
  {
    match e
    case Enter(key) => s.(binds := s.binds + [Bind(key, Asking)])
    case Answer(b, granted) =>
      if granted then s.(binds := Moved(s, b, Answered), granted := s.granted + {b})
        else s.(binds := Moved(s, b, Inside))
    case Reject(b) => s.(binds := Moved(s, b, Over), rejected := s.rejected + {b})
    case Store(b) =>
      var key := s.binds[b].key;
      if key in s.active then s.(binds := Moved(s, b, Over), conflicts := s.conflicts + {b})
      else s.(binds := Moved(s, b, Inside), active := s.active[key := b])
    case Take(worker, run) => Taken(s, worker, run)
    case Leave(b) =>
      var key := s.binds[b].key;
      Taken(s.(binds := Moved(s, b, Over)), key.worker, Some(key.run))
    case Send(b) => s.(queued := s.queued - {b}, sent := s.sent + [b])
  }

  /** A run, from the empty registry, one event after another. */
  predicate IsRun(states: seq<State>, events: seq<Event>) {
    && |states| == |events| + 1 && states[0] == Empty
    && forall i :: 0 <= i < |events| ==> Possible(states[i], events[i]) && states[i + 1] == Next(states[i], events[i])
  }

  // ---------------------------------------------------------------------------
  // Every grant is in exactly one place
  // ---------------------------------------------------------------------------

  function One(holds: bool): nat {
    if holds then 1 else 0
  }

  predicate InTable(s: State, b: nat) {
    b < |s.binds| && s.binds[b].key in s.active && s.active[s.binds[b].key] == b
  }

  /** How often a grant is found in the places a grant can be: counted, so that two places or two sends show. */
  function Places(s: State, b: nat): nat {
    One(In(s, b, Answered)) + One(InTable(s, b)) + One(b in s.queued) + multiset(s.sent)[b]
    + One(b in s.rejected) + One(b in s.conflicts)
  }

  ghost predicate Holds(s: State) {
    && (forall k :: k in s.active ==> s.active[k] < |s.binds| && s.binds[s.active[k]].key == k)
    && (forall b :: b in s.granted ==> b < |s.binds| && s.binds[b].phase != Asking)
    && (forall b: nat :: Places(s, b) == One(b in s.granted))
  }

  lemma EnterKeeps(s: State, key: Key)
    requires Holds(s)
    ensures Holds(Next(s, Enter(key)))
  {
    var t := Next(s, Enter(key));
    forall b: nat ensures Places(t, b) == One(b in t.granted) {
      assert Places(s, b) == One(b in s.granted);
      assert InTable(t, b) ==> InTable(s, b);
    }
  }

  lemma AnswerKeeps(s: State, b: nat, granted: bool)
    requires Holds(s) && In(s, b, Asking)
    ensures Holds(Next(s, Answer(b, granted)))
  {
    var t := Next(s, Answer(b, granted));
    assert b !in s.granted;
    forall x: nat ensures Places(t, x) == One(x in t.granted) {
      assert Places(s, x) == One(x in s.granted);
    }
  }

  lemma SettleKeeps(s: State, b: nat, e: Event)
    requires Holds(s) && In(s, b, Answered) && (e == Reject(b) || e == Store(b))
    ensures Holds(Next(s, e))
  {
    var t := Next(s, e);
    assert Places(s, b) == One(b in s.granted);
    assert !InTable(s, b);
    forall x: nat ensures Places(t, x) == One(x in t.granted) {
      assert Places(s, x) == One(x in s.granted);
    }
  }

  lemma TakenKeeps(s: State, worker: string, run: Option<string>)
    requires Holds(s)
    ensures Holds(Taken(s, worker, run))
  {
    var t := Taken(s, worker, run);
    forall b: nat ensures Places(t, b) == One(b in t.granted) {
      assert Places(s, b) == One(b in s.granted);
      if InTable(s, b) && !InTable(t, b) {
        assert Matches(s.binds[b].key, worker, run) && b in t.queued;
      }
      if b in t.queued && b !in s.queued {
        var k :| k in s.active && Matches(k, worker, run) && s.active[k] == b;
        assert InTable(s, b) && !InTable(t, b);
      }
    }
  }

  lemma OverKeeps(s: State, b: nat)
    requires Holds(s) && In(s, b, Inside)
    ensures Holds(s.(binds := Moved(s, b, Over)))
  {
    var t := s.(binds := Moved(s, b, Over));
    forall x: nat ensures Places(t, x) == One(x in t.granted) {
      assert Places(s, x) == One(x in s.granted);
    }
  }

  lemma SendKeeps(s: State, b: nat)
    requires Holds(s) && b in s.queued
    ensures Holds(Next(s, Send(b)))
  {
    var t := Next(s, Send(b));
    forall x: nat ensures Places(t, x) == One(x in t.granted) {
      assert Places(s, x) == One(x in s.granted);
      assert multiset(t.sent)[x] == multiset(s.sent)[x] + One(x == b);
    }
  }

  lemma NextKeeps(s: State, e: Event)
    requires Holds(s) && Possible(s, e)
    ensures Holds(Next(s, e))
  {
    match e
    case Enter(key) => EnterKeeps(s, key);
    case Answer(b, granted) => AnswerKeeps(s, b, granted);
    case Reject(b) => SettleKeeps(s, b, e);
    case Store(b) => SettleKeeps(s, b, e);
    case Take(worker, run) => TakenKeeps(s, worker, run);
    case Leave(b) =>
      OverKeeps(s, b);
      TakenKeeps(s.(binds := Moved(s, b, Over)), s.binds[b].key.worker, Some(s.binds[b].key.run));
    case Send(b) => SendKeeps(s, b);
  }

  lemma {:induction false} RunHolds(states: seq<State>, events: seq<Event>)
    requires IsRun(states, events)
    ensures Holds(states[|events|])
    decreases |events|
  {
    if events == [] {
      forall b: nat ensures Places(Empty, b) == 0 {}
    } else {
      var n := |events| - 1;
      RunHolds(states[..n + 1], events[..n]);
      NextKeeps(states[n], events[n]);
    }
  }

  // ---------------------------------------------------------------------------
  // Accepted grants are revoked exactly once
  // ---------------------------------------------------------------------------

  /** The grant was entered in the table, now or earlier. */
  predicate Accepted(s: State, b: nat) {
    InTable(s, b) || b in s.queued || b in s.sent
  }

  /**
   * Whatever the interleaving: an accepted grant stays accepted, and at the end it is in the table, or waiting with
   * the thread that took it, or has been sent for revocation once; exactly one of these.
   */
  lemma {:induction false} AcceptedOnce(states: seq<State>, events: seq<Event>, i: nat, b: nat)
    requires IsRun(states, events) && i <= |events| && Accepted(states[i], b)
    ensures var t := states[|events|];
            && Accepted(t, b)
            && One(InTable(t, b)) + One(b in t.queued) + multiset(t.sent)[b] == 1
            && b !in t.rejected && b !in t.conflicts
    decreases |events|
  {
    RunHolds(states, events);
    var t := states[|events|];
    assert Places(t, b) == One(b in t.granted);
    if i < |events| {
      var n := |events| - 1;
      AcceptedOnce(states[..n + 1], events[..n], i, b);
      StaysAccepted(states[n], events[n], b);
    }
    assert b in t.sent ==> multiset(t.sent)[b] > 0;
  }

  lemma StaysAccepted(s: State, e: Event, b: nat)
    requires Possible(s, e) && Accepted(s, b)
    ensures Accepted(Next(s, e), b)
  {
    if InTable(s, b) {
      var k := s.binds[b].key;
      assert e.Take? && Matches(k, e.worker, e.run) ==> b in Next(s, e).queued;
    }
    if e.Send? && e.bind == b {
      var t := Next(s, e);
      assert t.sent[|s.sent|] == b;
    }
  }

  // ---------------------------------------------------------------------------
  // Binds that do not overlap leave nothing behind
  // ---------------------------------------------------------------------------

  /** A bind starts only when every earlier bind of its key is over. */
  predicate Alone(s: State, e: Event) {
    e.Enter? ==> forall b :: 0 <= b < |s.binds| && s.binds[b].key == e.key ==> s.binds[b].phase == Over
  }

  predicate NoOverlap(states: seq<State>, events: seq<Event>)
    requires |states| == |events| + 1
  {
    forall i :: 0 <= i < |events| ==> Alone(states[i], events[i])
  }

  ghost predicate Single(s: State) {
    && (forall a, b :: 0 <= a < b < |s.binds| && s.binds[a].key == s.binds[b].key ==> s.binds[a].phase == Over)
    && (forall k :: k in s.active ==> In(s, s.active[k], Inside) && s.binds[s.active[k]].key == k)
    && s.conflicts == {}
  }

  lemma SingleKept(s: State, e: Event)
    requires Single(s) && Possible(s, e) && Alone(s, e)
    ensures Single(Next(s, e))
  {
    var t := Next(s, e);
    match e
    case Enter(key) =>
    case Answer(b, granted) => StillOver(s, b, if granted then Answered else Inside);
    case Reject(b) => StillOver(s, b, Over);
    case Store(b) =>
      StillOver(s, b, Inside);
      var key := s.binds[b].key;
      if key in s.active { OnlyOneOpen(s, b, s.active[key]); }
    case Take(worker, run) =>
    case Leave(b) =>
      StillOver(s, b, Over);
      var key := s.binds[b].key;
      forall k | k in t.active ensures In(t, t.active[k], Inside) {
        assert k != key;
        assert s.active[k] != b;
      }
    case Send(b) =>
  }

  lemma StillOver(s: State, b: nat, phase: Phase)
    requires Single(s) && b < |s.binds| && s.binds[b].phase != Over
    ensures forall x, y :: 0 <= x < y < |s.binds| && s.binds[x].key == s.binds[y].key ==>
      Moved(s, b, phase)[x].phase == Over
  {
  }

  lemma OnlyOneOpen(s: State, a: nat, b: nat)
    requires Single(s) && a < |s.binds| && b < |s.binds| && s.binds[a].key == s.binds[b].key
    requires s.binds[a].phase != Over && s.binds[b].phase != Over
    ensures a == b
  {
  }

  lemma {:induction false} RunSingle(states: seq<State>, events: seq<Event>)
    requires IsRun(states, events) && NoOverlap(states, events)
    ensures Single(states[|events|])
    decreases |events|
  {
    if events != [] {
      var n := |events| - 1;
      RunSingle(states[..n + 1], events[..n]);
      SingleKept(states[n], events[n]);
    }
  }

  /** A grant is stored while the table holds another of its key. */
  predicate Clashes(s: State, e: Event) {
    e.Store? && In(s, e.bind, Answered) && s.binds[e.bind].key in s.active
  }

  lemma ConflictsGrow(s: State, e: Event)
    requires Possible(s, e)
    ensures Next(s, e).conflicts == s.conflicts + if Clashes(s, e) then {e.bind} else {}
  {
  }

  /** Grants are turned away in a run exactly when one is stored while the table holds another of its key. */
  lemma {:induction false} NoConflictIff(states: seq<State>, events: seq<Event>)
    requires IsRun(states, events)
    ensures states[|events|].conflicts == {} <==> forall i :: 0 <= i < |events| ==> !Clashes(states[i], events[i])
    decreases |events|
  {
    if events != [] {
      var n := |events| - 1;
      NoConflictIff(states[..n + 1], events[..n]);
      ConflictsGrow(states[n], events[n]);
      assert forall i :: 0 <= i < n ==> states[..n + 1][i] == states[i] && events[..n][i] == events[i];
    }
  }

  /** Everything is over and nothing waits to be sent. */
  predicate Quiet(s: State) {
    (forall b :: 0 <= b < |s.binds| ==> s.binds[b].phase == Over) && s.queued == {}
  }

  /**
   * When the binds of one key never overlap, no grant is turned away because of another; once all binds are over
   * and all revocations sent, the table is empty and every grant handed out, save those whose answer failed the
   * checks, has been sent for revocation exactly once.
   */
  lemma NothingLeftBehind(states: seq<State>, events: seq<Event>)
    requires IsRun(states, events) && NoOverlap(states, events)
    ensures var t := states[|events|];
            && t.conflicts == {}
            && (Quiet(t) ==> t.active == map[] && forall b :: b in t.granted ==>
              multiset(t.sent)[b] == (if b in t.rejected then 0 else 1))
  {
    RunHolds(states, events);
    RunSingle(states, events);
    var t := states[|events|];
    if Quiet(t) {
      assert t.active.Keys == {};
      forall b | b in t.granted ensures multiset(t.sent)[b] == (if b in t.rejected then 0 else 1) {
        assert Places(t, b) == 1;
      }
    }
  }

  /** The condition matters: of two overlapping binds of a key one is turned away, and its grant is never revoked. */
  lemma OverlapLosesGrant(key: Key)
    ensures var t :=
      Next(Next(Next(Next(Next(Next(Empty, Enter(key)), Enter(key)), Answer(0, true)), Answer(1, true)), Store(0)),
        Store(1));
            1 in t.granted && 1 in t.conflicts && !Accepted(t, 1)
  {
  }

  // ---------------------------------------------------------------------------
  // The registry as it runs
  // ---------------------------------------------------------------------------

  datatype GrantRef = GrantRef(id: string, tenant: string, user: string, worker: string, run: string, mode: string,
                               expiresAt: int, renewableUntil: int)

  datatype Scope = Scope(tenant: string, user: string, worker: string, run: string, mode: string)

  /** The answer is for this run, and still good. */
  predicate InScope(ref: GrantRef, scope: Scope, now: int) {
    && ref.tenant == scope.tenant && ref.user == scope.user && ref.worker == scope.worker && ref.run == scope.run
    && ref.mode == scope.mode && ref.expiresAt > now && ref.renewableUntil >= ref.expiresAt
  }

  datatype Issued = NoGrant | Accept(ref: GrantRef) | OutOfScope | Conflict

  type Table = map<Key, GrantRef>

  /** What `issue` makes of the broker's answer. */
  function IssueReply(active: Table, answer: Option<GrantRef>, scope: Scope, now: int): Issued {
    match answer
    case None => NoGrant
    case Some(ref) =>
      if !InScope(ref, scope, now) then OutOfScope
      else if Key(scope.worker, scope.run) in active then Conflict
      else Accept(ref)
  }

  function Entered(active: Table, r: Issued): Table {
    if r.Accept? then active[Key(r.ref.worker, r.ref.run) := r.ref] else active
  }

  function Remaining(active: Table, worker: string, run: Option<string>): Table {
    map k | k in active && !Matches(k, worker, run) :: active[k]
  }

  /** The table holds, under the same keys, the grants of the binds in the state's table. */
  predicate Mirrors(active: Table, s: State, grant: nat -> GrantRef) {
    active.Keys == s.active.Keys && forall k :: k in active ==> active[k] == grant(s.active[k])
  }

  /** Settling an answered bind in the registry is the event `Reject` or `Store`, and turned away means in conflict. */
  lemma IssueIsEvent(active: Table, s: State, grant: nat -> GrantRef, b: nat, scope: Scope, now: int)
    requires Mirrors(active, s, grant) && In(s, b, Answered) && s.binds[b].key == Key(scope.worker, scope.run)
    ensures var r := IssueReply(active, Some(grant(b)), scope, now);
            var t := Next(s, if r.OutOfScope? then Reject(b) else Store(b));
            && Mirrors(Entered(active, r), t, grant)
            && (r.OutOfScope? <==> !InScope(grant(b), scope, now))
            && (r.Conflict? ==> b in t.conflicts) && (r.Accept? ==> InTable(t, b))
  {
  }

  /**
   * An answer is entered exactly when it is a grant of this very tenant, user, worker, run and mode that has not
   * expired and is renewable no shorter than it lasts, and nothing is entered for the run yet; else nothing changes.
   */
  lemma AcceptedIff(active: Table, answer: Option<GrantRef>, scope: Scope, now: int)
    ensures var r := IssueReply(active, answer, scope, now); var key := Key(scope.worker, scope.run);
            && (r.Accept? <==>
                  && answer.Some?
                  && Scope(answer.value.tenant, answer.value.user, answer.value.worker, answer.value.run,
                           answer.value.mode) == scope
                  && now < answer.value.expiresAt <= answer.value.renewableUntil
                  && key !in active)
            && Entered(active, r).Keys == active.Keys + (if r.Accept? then {key} else {})
            && (forall k :: k in active ==> Entered(active, r)[k] == active[k])
            && (r.Accept? ==> Entered(active, r)[key] == answer.value)
            && (r.NoGrant? <==> answer.None?)
  {
  }

  /** Taking by run leaves every other run's grant, taking by worker every other worker's. */
  lemma RemainingIff(active: Table, worker: string, run: Option<string>)
    ensures forall k :: k in Remaining(active, worker, run) <==>
              k in active && (k.worker != worker || (run.Some? && k.run != run.value))
    ensures forall k :: k in Remaining(active, worker, run) ==> Remaining(active, worker, run)[k] == active[k]
  {
  }

  /** Taking matching grants out of the registry is the event `Take`, and what it takes is what the event queues. */
  lemma TakeIsEvent(active: Table, s: State, grant: nat -> GrantRef, worker: string, run: Option<string>)
    requires Mirrors(active, s, grant) && Holds(s)
    ensures var t := Next(s, Take(worker, run));
            && Mirrors(Remaining(active, worker, run), t, grant)
            && forall k :: k in active && Matches(k, worker, run) ==>
                 exists b :: b in t.queued && InTable(s, b) && s.binds[b].key == k && grant(b) == active[k]
  {
    var t := Next(s, Take(worker, run));
    forall k | k in active && Matches(k, worker, run)
      ensures exists b :: b in t.queued && InTable(s, b) && s.binds[b].key == k && grant(b) == active[k]
    {
      var b := s.active[k];
      assert b in t.queued && InTable(s, b);
    }
  }

  /** Every entry stands under the worker and run it was granted to. */
  predicate Keyed(active: Table) {
    forall k :: k in active ==> k == Key(active[k].worker, active[k].run)
  }

  /** Of the matching entries, those no longer in the table are in `refs`, each once; nothing else has moved. */
  ghost predicate PartlyTaken(before: Table, active: Table, refs: seq<GrantRef>, worker: string, run: Option<string>) {
    && (forall k :: k in active ==> k in before && active[k] == before[k])
    && (forall k :: k in before && !Matches(k, worker, run) ==> k in active)
    && (forall k :: k in before && Matches(k, worker, run) ==>
      multiset(refs)[before[k]] == if k in active then 0 else 1)
    && (forall ref :: ref in refs ==> Sent(before, ref, worker, run))
  }

  /** The grant was in the table, and matches. */
  predicate Sent(before: Table, ref: GrantRef, worker: string, run: Option<string>) {
    var key := Key(ref.worker, ref.run);
    key in before && before[key] == ref && Matches(key, worker, run)
  }

  lemma TakenNext(before: Table, active: Table, refs: seq<GrantRef>, worker: string, run: Option<string>, key: Key)
    requires Keyed(before) && PartlyTaken(before, active, refs, worker, run)
    requires key in active && Matches(key, worker, run)
    ensures PartlyTaken(before, active - {key}, refs + [active[key]], worker, run)
  {
    var next := refs + [active[key]];
    forall k | k in before && Matches(k, worker, run)
      ensures multiset(next)[before[k]] == if k in active - {key} then 0 else 1
    {
      assert multiset(next)[before[k]] == multiset(refs)[before[k]] + if k == key then 1 else 0;
    }
  }

  lemma AllTaken(before: Table, active: Table, refs: seq<GrantRef>, worker: string, run: Option<string>)
    requires Keyed(before) && PartlyTaken(before, active, refs, worker, run)
    requires forall k :: k in active ==> !Matches(k, worker, run)
    ensures active == Remaining(before, worker, run) && Keyed(active)
  {
  }

  class GrantRegistry {
    var active: map<Key, GrantRef>

    ghost predicate Valid()
      reads this
    {
      Keyed(active)
    }

    constructor ()
      ensures Valid() && active == map[]
    {
      active := map[];
    }

    /** `issue`, once the broker has answered. */
    method Issue(answer: Option<GrantRef>, scope: Scope, now: int) returns (r: Issued)
      requires Valid()
      modifies this
      ensures Valid()
      ensures r == IssueReply(old(active), answer, scope, now) && active == Entered(old(active), r)
    {
      if answer.None? { return NoGrant; }
      var ref := answer.value;
      if !InScope(ref, scope, now) { return OutOfScope; }
      var key := Key(scope.worker, scope.run);
      if key in active { return Conflict; }
      active := active[key := ref];
      return Accept(ref);
    }

    /** The locked part of `revoke_active`: each matching grant leaves the table, once. */
    method TakeMatching(worker: string, run: Option<string>) returns (refs: seq<GrantRef>)
      requires Valid()
      modifies this
      ensures Valid() && active == Remaining(old(active), worker, run)
      ensures PartlyTaken(old(active), active, refs, worker, run)
    {
      ghost var before := active;
      var keys := set k | k in active && Matches(k, worker, run);
      refs := [];
      while keys != {}
        invariant PartlyTaken(before, active, refs, worker, run)
        invariant forall k :: k in keys <==> k in active && Matches(k, worker, run)
        decreases |keys|
      {
        var key :| key in keys;
        TakenNext(before, active, refs, worker, run, key);
        refs := refs + [active[key]];
        active := active - {key};
        keys := keys - {key};
      }
      AllTaken(before, active, refs, worker, run);
    }

    /** `revoke_active`: every taken grant is sent, also after one that the broker did not confirm. */
    method RevokeActive(worker: string, run: Option<string>, confirms: GrantRef -> bool)
        returns (sent: seq<GrantRef>, confirmed: bool)
      requires Valid()
      modifies this
      ensures Valid()
      ensures active == Remaining(old(active), worker, run)
      ensures forall k :: k in old(active) && Matches(k, worker, run) ==> multiset(sent)[old(active)[k]] == 1
      ensures forall ref :: ref in sent ==> Sent(old(active), ref, worker, run)
      ensures confirmed <==> forall ref :: ref in sent ==> confirms(ref)
    {
      var refs := TakeMatching(worker, run);
      sent, confirmed := [], true;
      for i := 0 to |refs|
        invariant sent == refs[..i]
        invariant confirmed <==> forall ref :: ref in refs[..i] ==> confirms(ref)
      {
        sent := sent + [refs[i]];
        if !confirms(refs[i]) { confirmed := false; }
        assert refs[..i + 1] == refs[..i] + [refs[i]];
      }
      assert refs[..|refs|] == refs;
    }
  }
}
