/** Provider accounts and their exclusive leases: expiry, heartbeat, release, disconnect and forget. */
module ProviderLeases {
  import opened Prelude

  datatype Principal = Principal(tenant: string, owner: string)

  datatype Status = Disconnected | Connecting | Ready | ActionRequired | Unavailable | Failed

  datatype Account = Account(who: Principal, provider: string, isDefault: bool, status: Status, recovery: string)

  datatype Lease = Lease(
    account: nat,
    who: Principal,
    lane: string,
    worker: string,
    run: string,
    acquiredAt: nat,
    heartbeatAt: nat,
    expiresAt: nat,
    releasedAt: Option<nat>)

  /** Row ids are drawn from `nextId`, which only grows: an id is never used twice. */
  datatype State = State(accounts: map<nat, Account>, leases: map<nat, Lease>, nextId: nat, clock: nat)

  datatype Refusal =
    | NoSuchAccount | LimitReached | StillConnected | InUse | WorkRunning | NotReady | RecoveryChanged | InvalidRequest
    | NotActive | NoSuchLease

  const Empty := State(map[], map[], 0, 0)

  const INTERACTIVE := ":interactive"
  const RECOVERY_CODES: set<string> := {"", "credential_cleanup_failed"}

  function Ttl(seconds: int): (r: nat)
    ensures 15 <= r <= 86400
  {
    if seconds < 15 then 15 else if seconds > 86400 then 86400 else seconds
  }

  predicate Owned(s: State, account: nat, who: Principal) {
    account in s.accounts && s.accounts[account].who == who
  }

  /** `released_at IS NULL AND expires_at > t`. */
  predicate ActiveAt(l: Lease, t: nat) {
    l.releasedAt.None? && l.expiresAt > t
  }

  predicate InUseAt(s: State, account: nat, t: nat) {
    exists l :: l in s.leases && s.leases[l].account == account && ActiveAt(s.leases[l], t)
  }

  predicate EndsWith(s: string, suffix: string) {
    |suffix| <= |s| && s[|s| - |suffix|..] == suffix
  }

  /** The lane as stored: a blank one is "default", a long one is cut. */
  function Lane(lane: string): string {
    var named := if lane == "" then "default" else lane;
    if |named| > 80 then named[..80] else named
  }

  function Connected(s: State, who: Principal): set<nat> {
    set a | a in s.accounts && s.accounts[a].who == who && s.accounts[a].status != Disconnected
  }

  predicate HasDefault(s: State, who: Principal, provider: string) {
    exists a :: a in s.accounts && s.accounts[a].who == who && s.accounts[a].provider == provider &&
      s.accounts[a].isDefault
  }

  /** The accounts, none of them the user's default for the provider. */
  function WithoutDefault(accounts: map<nat, Account>, who: Principal, provider: string): map<nat, Account> {
    map a | a in accounts ::
      if accounts[a].who == who && accounts[a].provider == provider then accounts[a].(isDefault := false)
        else accounts[a]
  }

  /** `create_provider_account`; a first account of a provider becomes the default, and there is only one. */
  function Create(s: State, who: Principal, provider: string, status: Status, makeDefault: bool,
      limit: nat): Result<State, Refusal> {
    if |Connected(s, who)| >= limit then Err(LimitReached)
    else
      var isDefault := makeDefault || !HasDefault(s, who, provider);
      var others := if isDefault then WithoutDefault(s.accounts, who, provider) else s.accounts;
      Ok(s.(accounts := others[s.nextId := Account(who, provider, isDefault, status, "")], nextId := s.nextId + 1))
  }

  function SetStatus(s: State, account: nat, who: Principal, status: Status, recovery: Option<string>)
    : Result<State, Refusal>
  {
    if recovery.Some? && recovery.value !in RECOVERY_CODES then Err(InvalidRequest)
    else if !Owned(s, account, who) then Err(NoSuchAccount)
    else
      var row := s.accounts[account];
      Ok(s.(accounts :=
        s.accounts[account :=
          row.(status := status, recovery := if recovery.Some? then recovery.value else row.recovery)]))
  }

  /** `disconnect_provider_account`: every open lease of the account is released with it. */
  function Disconnect(s: State, account: nat, who: Principal): Result<State, Refusal> {
    if !Owned(s, account, who) then Err(NoSuchAccount)
    else
      var released := map l | l in s.leases ::
        if s.leases[l].account == account && s.leases[l].who == who && s.leases[l].releasedAt.None?
        then s.leases[l].(releasedAt := Some(s.clock)) else s.leases[l];
      Ok(s.(leases := released,
            accounts := s.accounts[account :=
              s.accounts[account].(status := Disconnected, recovery := "", isDefault := false)]))
  }

  /** `forget_provider_account`: lease rows go with the account row. */
  function Forget(s: State, account: nat, who: Principal): Result<State, Refusal> {
    if !Owned(s, account, who) then Err(NoSuchAccount)
    else if s.accounts[account].status != Disconnected then Err(StillConnected)
    else if InUseAt(s, account, s.clock) then Err(InUse)
    else
      Ok(s.(accounts := s.accounts - {account},
            leases := map l | l in s.leases && s.leases[l].account != account :: s.leases[l]))
  }

  /** `acquire_provider_lease`; `workRunning` stands for the run tables' fence on interactive lanes. */
  function Acquire(s: State, account: nat, who: Principal, lane: string, worker: string, run: string, ttl: int,
                   allowed: set<Status>, recovery: Option<string>, workRunning: bool): Result<State, Refusal>
  {
    if allowed == {} || (recovery.Some? && recovery.value !in RECOVERY_CODES) then Err(InvalidRequest)
    else if !Owned(s, account, who) then Err(NoSuchAccount)
    else if EndsWith(Lane(lane), INTERACTIVE) && workRunning then Err(WorkRunning)
    else if InUseAt(s, account, s.clock) then Err(InUse)
    else if s.accounts[account].status !in allowed then Err(NotReady)
    else if recovery.Some? && s.accounts[account].recovery != recovery.value then Err(RecoveryChanged)
    else
      var lease := Lease(account, who, Lane(lane), worker, run, s.clock, s.clock, s.clock + Ttl(ttl), None);
      Ok(s.(leases := s.leases[s.nextId := lease], nextId := s.nextId + 1))
  }

  /** `heartbeat_provider_lease`. */
  function Heartbeat(s: State, lease: nat, who: Principal, ttl: int): Result<State, Refusal> {
    if lease !in s.leases || s.leases[lease].who != who || !ActiveAt(s.leases[lease], s.clock) then Err(NotActive)
    else Ok(s.(leases := s.leases[lease := s.leases[lease].(heartbeatAt := s.clock, expiresAt := s.clock + Ttl(ttl))]))
  }

  /** `release_provider_lease`; an expired lease can still be released. */
  function Release(s: State, lease: nat, who: Principal): Result<State, Refusal> {
    if lease !in s.leases || s.leases[lease].who != who || s.leases[lease].releasedAt.Some? then Err(NoSuchLease)
    else Ok(s.(leases := s.leases[lease := s.leases[lease].(releasedAt := Some(s.clock))]))
  }

  datatype Op =
    | DoCreate(who: Principal, provider: string, status: Status, makeDefault: bool, limit: nat)
    | DoSetStatus(account: nat, who: Principal, newStatus: Status, recovery: Option<string>)
    | DoDisconnect(account: nat, who: Principal)
    | DoForget(account: nat, who: Principal)
    | DoAcquire(account: nat, who: Principal, lane: string, worker: string, run: string, ttl: int, allowed: set<Status>,
      recovery: Option<string>, workRunning: bool)
    | DoHeartbeat(lease: nat, who: Principal, ttl: int)
    | DoRelease(lease: nat, who: Principal)

  function Outcome(s: State, op: Op): Result<State, Refusal> {
    match op
    case DoCreate(who, provider, status, makeDefault, limit) => Create(s, who, provider, status, makeDefault, limit)
    case DoSetStatus(account, who, status, recovery) => SetStatus(s, account, who, status, recovery)
    case DoDisconnect(account, who) => Disconnect(s, account, who)
    case DoForget(account, who) => Forget(s, account, who)
    case DoAcquire(account, who, lane, worker, run, ttl, allowed, recovery, workRunning) =>
      Acquire(s, account, who, lane, worker, run, ttl, allowed, recovery, workRunning)
    case DoHeartbeat(lease, who, ttl) => Heartbeat(s, lease, who, ttl)
    case DoRelease(lease, who) => Release(s, lease, who)
  }

  datatype Event = Event(op: Op, elapsed: nat)

  function Tick(s: State, e: Event): State {
    s.(clock := s.clock + e.elapsed)
  }

  function Next(s: State, e: Event): State {
    var r := Outcome(Tick(s, e), e.op);
    if r.Ok? then r.value else Tick(s, e)
  }

  // ---------------------------------------------------------------------------
  // Exclusion
  // ---------------------------------------------------------------------------

  /** When a lease stops or stopped holding the account. */
  function End(l: Lease): nat {
    if l.releasedAt.Some? && l.releasedAt.value < l.expiresAt then l.releasedAt.value else l.expiresAt
  }

  /** One lease is over before the other begins. */
  predicate Disjoint(l: Lease, m: Lease) {
    End(l) <= m.acquiredAt || End(m) <= l.acquiredAt
  }

  ghost predicate LeaseHolds(s: State, l: nat)
    requires l in s.leases
  {
    var lease := s.leases[l];
    && l < s.nextId
    && Owned(s, lease.account, lease.who)
    && lease.acquiredAt <= s.clock
    && (lease.releasedAt.Some? ==> lease.releasedAt.value <= s.clock)
  }

  predicate SameOwnerAndProvider(a: Account, b: Account) {
    a.who == b.who && a.provider == b.provider
  }

  predicate OneDefaultEach(accounts: map<nat, Account>) {
    forall a, b ::
      (a in accounts && b in accounts && a != b && accounts[a].isDefault && accounts[b].isDefault) ==>
        !SameOwnerAndProvider(accounts[a], accounts[b])
  }

  /** Leases of one account are disjoint in time; a user has one default account per provider. */
  ghost predicate Holds(s: State) {
    && (forall a :: a in s.accounts ==> a < s.nextId)
    && (forall l :: l in s.leases ==> LeaseHolds(s, l))
    && (forall l, m :: l in s.leases && m in s.leases && l != m && s.leases[l].account == s.leases[m].account ==>
          Disjoint(s.leases[l], s.leases[m]))
    && OneDefaultEach(s.accounts)
  }

  /** From now on, whatever happens to the clock, at most one lease of an account is active. */
  lemma AtMostOneActive(s: State, l: nat, m: nat, t: nat)
    requires Holds(s) && s.clock <= t
    requires l in s.leases && m in s.leases && s.leases[l].account == s.leases[m].account
    requires ActiveAt(s.leases[l], t) && ActiveAt(s.leases[m], t)
    ensures l == m
  {
    assert LeaseHolds(s, l) && LeaseHolds(s, m);
  }

  lemma AcquireKeeps(s: State, op: Op)
    requires Holds(s) && op.DoAcquire? && Outcome(s, op).Ok?
    ensures Holds(Outcome(s, op).value)
  {
    var t := Outcome(s, op).value;
    forall l | l in t.leases ensures LeaseHolds(t, l) {
      if l != s.nextId { assert LeaseHolds(s, l); }
    }
    forall l | l in s.leases && s.leases[l].account == op.account
      ensures End(s.leases[l]) <= s.clock
    {
      assert LeaseHolds(s, l) && !ActiveAt(s.leases[l], s.clock);
    }
    forall l, m | l in t.leases && m in t.leases && l != m && t.leases[l].account == t.leases[m].account
      ensures Disjoint(t.leases[l], t.leases[m])
    {
      if l != s.nextId { assert LeaseHolds(s, l); }
      if m != s.nextId { assert LeaseHolds(s, m); }
    }
  }

  lemma HeartbeatKeeps(s: State, op: Op)
    requires Holds(s) && op.DoHeartbeat? && Outcome(s, op).Ok?
    ensures Holds(Outcome(s, op).value)
  {
    var t := Outcome(s, op).value;
    forall l | l in t.leases ensures LeaseHolds(t, l) { assert LeaseHolds(s, l); }
    forall l, m | l in t.leases && m in t.leases && l != m && t.leases[l].account == t.leases[m].account
      ensures Disjoint(t.leases[l], t.leases[m])
    {
      assert Disjoint(s.leases[l], s.leases[m]);
      assert LeaseHolds(s, l) && LeaseHolds(s, m);
    }
  }

  /** Dropping leases, ending them sooner, and moving the clock keep them disjoint. */
  lemma ShorterLeasesKeep(s: State, t: State)
    requires Holds(s)
    requires forall l :: l in t.leases ==>
      && l in s.leases && LeaseHolds(t, l)
      && t.leases[l].account == s.leases[l].account
      && t.leases[l].acquiredAt == s.leases[l].acquiredAt
      && End(t.leases[l]) <= End(s.leases[l])
    requires forall a :: a in t.accounts ==> a < t.nextId
    requires OneDefaultEach(t.accounts)
    ensures Holds(t)
  {
    forall l, m | l in t.leases && m in t.leases && l != m && t.leases[l].account == t.leases[m].account
      ensures Disjoint(t.leases[l], t.leases[m])
    {
      assert Disjoint(s.leases[l], s.leases[m]);
    }
  }

  lemma AccountsKeep(s: State, op: Op)
    requires Holds(s) && (op.DoCreate? || op.DoSetStatus?) && Outcome(s, op).Ok?
    ensures Holds(Outcome(s, op).value)
  {
    var t := Outcome(s, op).value;
    forall l | l in t.leases ensures LeaseHolds(t, l) { assert LeaseHolds(s, l); }
    ShorterLeasesKeep(s, t);
  }

  lemma DisconnectKeeps(s: State, account: nat, who: Principal)
    requires Holds(s) && Disconnect(s, account, who).Ok?
    ensures Holds(Disconnect(s, account, who).value)
  {
    var t := Disconnect(s, account, who).value;
    forall l | l in t.leases ensures l in s.leases && LeaseHolds(t, l) { assert LeaseHolds(s, l); }
    ShorterLeasesKeep(s, t);
  }

  lemma ForgetKeeps(s: State, account: nat, who: Principal)
    requires Holds(s) && Forget(s, account, who).Ok?
    ensures Holds(Forget(s, account, who).value)
  {
    var t := Forget(s, account, who).value;
    forall l | l in t.leases ensures l in s.leases && LeaseHolds(t, l) { assert LeaseHolds(s, l); }
    ShorterLeasesKeep(s, t);
  }

  lemma ReleaseKeeps(s: State, lease: nat, who: Principal)
    requires Holds(s) && Release(s, lease, who).Ok?
    ensures Holds(Release(s, lease, who).value)
  {
    var t := Release(s, lease, who).value;
    forall l | l in t.leases ensures l in s.leases && LeaseHolds(t, l) { assert LeaseHolds(s, l); }
    ShorterLeasesKeep(s, t);
  }

  lemma OutcomeKeeps(s: State, op: Op)
    requires Holds(s) && Outcome(s, op).Ok?
    ensures Holds(Outcome(s, op).value)
  {
    if op.DoAcquire? { AcquireKeeps(s, op); }
    else if op.DoHeartbeat? { HeartbeatKeeps(s, op); }
    else if op.DoCreate? || op.DoSetStatus? { AccountsKeep(s, op); }
    else if op.DoDisconnect? { DisconnectKeeps(s, op.account, op.who); }
    else if op.DoForget? { ForgetKeeps(s, op.account, op.who); }
    else { ReleaseKeeps(s, op.lease, op.who); }
  }

  lemma TickKeeps(s: State, e: Event)
    requires Holds(s)
    ensures Holds(Tick(s, e))
  {
    var t := Tick(s, e);
    forall l | l in t.leases ensures LeaseHolds(t, l) { assert LeaseHolds(s, l); }
    ShorterLeasesKeep(s, t);
  }

  lemma NextKeeps(s: State, e: Event)
    requires Holds(s)
    ensures Holds(Next(s, e))
  {
    TickKeeps(s, e);
    if Outcome(Tick(s, e), e.op).Ok? { OutcomeKeeps(Tick(s, e), e.op); }
  }

  ghost predicate Step(s: State, e: Event, t: State) {
    t == Next(s, e)
  }

  ghost predicate IsRun(states: seq<State>, events: seq<Event>) {
    && |states| == |events| + 1 && states[0] == Empty
    && forall k :: 0 <= k < |events| ==> Step(states[k], events[k], states[k + 1])
  }

  lemma {:induction false} ReachableHolds(states: seq<State>, events: seq<Event>, n: nat)
    requires IsRun(states, events) && n < |states|
    ensures Holds(states[n])
  {
    if n != 0 {
      ReachableHolds(states, events, n - 1);
      assert Step(states[n - 1], events[n - 1], states[n]);
      NextKeeps(states[n - 1], events[n - 1]);
    }
  }

  /** In every reachable state, now and at any later time, an account has at most one active lease. */
  lemma ExclusiveAtAllTimes(states: seq<State>, events: seq<Event>, n: nat, l: nat, m: nat, t: nat)
    requires IsRun(states, events) && n < |states| && states[n].clock <= t
    requires l in states[n].leases && m in states[n].leases &&
      states[n].leases[l].account == states[n].leases[m].account
    requires ActiveAt(states[n].leases[l], t) && ActiveAt(states[n].leases[m], t)
    ensures l == m
  {
    ReachableHolds(states, events, n);
    AtMostOneActive(states[n], l, m, t);
  }

  /** Over the whole history of an account its leases never overlap. */
  lemma LeasesNeverOverlap(states: seq<State>, events: seq<Event>, n: nat, l: nat, m: nat)
    requires IsRun(states, events) && n < |states|
    requires l in states[n].leases && m in states[n].leases && l != m
    requires states[n].leases[l].account == states[n].leases[m].account
    ensures Disjoint(states[n].leases[l], states[n].leases[m])
  {
    ReachableHolds(states, events, n);
  }

  // ---------------------------------------------------------------------------
  // A lease that is over stays over
  // ---------------------------------------------------------------------------

  ghost predicate Over(s: State, l: nat) {
    l < s.nextId && (l in s.leases ==> !ActiveAt(s.leases[l], s.clock))
  }

  lemma OverStays(s: State, e: Event, l: nat)
    requires Over(s, l)
    ensures Over(Next(s, e), l)
    ensures l in s.leases && l in Next(s, e).leases ==>
      Next(s, e).leases[l].expiresAt == s.leases[l].expiresAt &&
        Next(s, e).leases[l].acquiredAt == s.leases[l].acquiredAt
  {
  }

  /** Neither a heartbeat nor anything else revives a released or expired lease, and its row id is never reused. */
  lemma {:induction false} NeverRevived(states: seq<State>, events: seq<Event>, m: nat, n: nat, l: nat)
    requires IsRun(states, events) && m <= n < |states|
    requires Over(states[m], l)
    ensures Over(states[n], l)
    decreases n
  {
    if m < n {
      NeverRevived(states, events, m, n - 1, l);
      assert Step(states[n - 1], events[n - 1], states[n]);
      OverStays(states[n - 1], events[n - 1], l);
    }
  }

  // ---------------------------------------------------------------------------
  // The store as written
  // ---------------------------------------------------------------------------

  /** The request was carried out as specified, or refused with nothing but the clock moved. */
  ghost predicate Served(before: State, after: State, op: Op, now: nat, failure: Option<Refusal>) {
    match Outcome(before.(clock := now), op)
    case Ok(t) => failure == None && after == t
    case Err(e) => failure == Some(e) && after == before.(clock := now)
  }

  class ProviderAccountStore {
    var accounts: map<nat, Account>
    var leases: map<nat, Lease>
    var nextId: nat
    var clock: nat

    constructor ()
      ensures Tables() == Empty
    {
      accounts, leases, nextId, clock := map[], map[], 0, 0;
    }

    ghost function Tables(): State
      reads this
    {
      State(accounts, leases, nextId, clock)
    }

    /** The query for a lease that blocks new use of an account. */
    method ActiveLease(account: nat, t: nat) returns (found: Option<nat>)
      ensures found.Some? <==> InUseAt(Tables(), account, t)
      ensures found.Some? ==>
        found.value in leases && leases[found.value].account == account && ActiveAt(leases[found.value], t)
    {
      var todo := leases.Keys;
      while todo != {}
        invariant todo <= leases.Keys
        invariant forall l :: l in leases && l !in todo ==> !(leases[l].account == account && ActiveAt(leases[l], t))
      {
        var l :| l in todo;
        if leases[l].account == account && ActiveAt(leases[l], t) { return Some(l); }
        todo := todo - {l};
      }
      return None;
    }

    method CreateAccount(who: Principal, provider: string, status: Status, makeDefault: bool, limit: nat, now: nat)
        returns (failure: Option<Refusal>)
      requires clock <= now
      modifies this
      ensures Served(old(Tables()), Tables(), DoCreate(who, provider, status, makeDefault, limit), now, failure)
    {
      clock := now;
      var rows := State(accounts, leases, nextId, clock);
      if |Connected(rows, who)| >= limit { return Some(LimitReached); }
      var isDefault := makeDefault || !HasDefault(rows, who, provider);
      if isDefault {
        accounts := WithoutDefault(accounts, who, provider);
      }
      accounts := accounts[nextId := Account(who, provider, isDefault, status, "")];
      nextId := nextId + 1;
      return None;
    }

    method DisconnectAccount(account: nat, who: Principal, now: nat) returns (failure: Option<Refusal>)
      requires clock <= now
      modifies this
      ensures Served(old(Tables()), Tables(), DoDisconnect(account, who), now, failure)
    {
      clock := now;
      if account !in accounts || accounts[account].who != who { return Some(NoSuchAccount); }
      leases := map l | l in leases ::
        if leases[l].account == account && leases[l].who == who && leases[l].releasedAt.None?
        then leases[l].(releasedAt := Some(now)) else leases[l];
      accounts := accounts[account := accounts[account].(status := Disconnected, recovery := "", isDefault := false)];
      return None;
    }

    method ForgetAccount(account: nat, who: Principal, now: nat) returns (failure: Option<Refusal>)
      requires clock <= now
      modifies this
      ensures Served(old(Tables()), Tables(), DoForget(account, who), now, failure)
    {
      clock := now;
      if account !in accounts || accounts[account].who != who { return Some(NoSuchAccount); }
      if accounts[account].status != Disconnected { return Some(StillConnected); }
      var active := ActiveLease(account, now);
      if active.Some? { return Some(InUse); }
      accounts := accounts - {account};
      leases := map l | l in leases && leases[l].account != account :: leases[l];
      return None;
    }

    method AcquireLease(account: nat, who: Principal, lane: string, worker: string, run: string, ttl: int,
                        allowed: set<Status>, recovery: Option<string>, workRunning: bool, now: nat)
                          returns (failure: Option<Refusal>)
      requires clock <= now
      modifies this
      ensures Served(old(Tables()), Tables(),
        DoAcquire(account, who, lane, worker, run, ttl, allowed, recovery, workRunning), now, failure)
    {
      clock := now;
      if allowed == {} || (recovery.Some? && recovery.value !in RECOVERY_CODES) { return Some(InvalidRequest); }
      if account !in accounts || accounts[account].who != who { return Some(NoSuchAccount); }
      var named := Lane(lane);
      if EndsWith(named, INTERACTIVE) && workRunning { return Some(WorkRunning); }
      var active := ActiveLease(account, now);
      if active.Some? { return Some(InUse); }
      if accounts[account].status !in allowed { return Some(NotReady); }
      if recovery.Some? && accounts[account].recovery != recovery.value { return Some(RecoveryChanged); }
      leases := leases[nextId := Lease(account, who, named, worker, run, now, now, now + Ttl(ttl), None)];
      nextId := nextId + 1;
      return None;
    }

    method HeartbeatLease(lease: nat, who: Principal, ttl: int, now: nat) returns (failure: Option<Refusal>)
      requires clock <= now
      modifies this
      ensures Served(old(Tables()), Tables(), DoHeartbeat(lease, who, ttl), now, failure)
    {
      clock := now;
      if lease !in leases || leases[lease].who != who || !ActiveAt(leases[lease], now) { return Some(NotActive); }
      leases := leases[lease := leases[lease].(heartbeatAt := now, expiresAt := now + Ttl(ttl))];
      return None;
    }

    method ReleaseLease(lease: nat, who: Principal, now: nat) returns (failure: Option<Refusal>)
      requires clock <= now
      modifies this
      ensures Served(old(Tables()), Tables(), DoRelease(lease, who), now, failure)
    {
      clock := now;
      if lease !in leases || leases[lease].who != who || leases[lease].releasedAt.Some? { return Some(NoSuchLease); }
      leases := leases[lease := leases[lease].(releasedAt := Some(now))];
      return None;
    }
  }

  /** What the store serves is a step of a run. */
  lemma ServedIsStep(before: State, after: State, op: Op, now: nat, failure: Option<Refusal>)
    requires before.clock <= now && Served(before, after, op, now, failure)
    ensures Step(before, Event(op, now - before.clock), after)
  {
  }
}
