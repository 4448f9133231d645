/** When each operation on provider accounts and leases goes through, and exactly what it leaves. */
module LeaseOperations {
  import opened Prelude
  import opened ProviderLeases

  /** An unreleased lease of the account runs past `t`. */
  ghost predicate HeldAt(s: State, account: nat, t: nat) {
    exists l :: l in s.leases && HoldsAt(s.leases[l], account, t)
  }

  predicate HoldsAt(l: Lease, account: nat, t: nat) {
    l.account == account && l.releasedAt == None && t < l.expiresAt
  }

  lemma HeldIff(s: State, account: nat, t: nat)
    ensures HeldAt(s, account, t) <==> InUseAt(s, account, t)
  {
    if InUseAt(s, account, t) {
      var l :| l in s.leases && s.leases[l].account == account && ActiveAt(s.leases[l], t);
      assert HoldsAt(s.leases[l], account, t);
    }
    if HeldAt(s, account, t) {
      var l :| l in s.leases && HoldsAt(s.leases[l], account, t);
      assert ActiveAt(s.leases[l], t);
    }
  }

  predicate OwnedBy(s: State, account: nat, who: Principal) {
    account in s.accounts && s.accounts[account].who == who
  }

  /** The first eighty characters of the lane end in ":interactive". */
  predicate IsInteractive(lane: string) {
    var cut := if |lane| > 80 then lane[..80] else lane;
    |cut| >= 12 && cut[|cut| - 12..] == ":interactive"
  }

  function Named(lane: string): string {
    if lane == "" then "default" else lane
  }

  lemma InteractiveIff(lane: string)
    ensures EndsWith(Lane(lane), INTERACTIVE) <==> IsInteractive(lane)
  {
    if lane == "" { assert |"default"| < |INTERACTIVE|; }
  }

  /** Between fifteen seconds and a day. */
  function Seconds(ttl: int): nat {
    if ttl < 15 then 15 else if ttl > 86400 then 86400 else ttl
  }

  /** A recovery code the table allows. */
  predicate KnownRecovery(recovery: Option<string>) {
    recovery.Some? ==> recovery.value == "" || recovery.value == "credential_cleanup_failed"
  }

  // ---------------------------------------------------------------------------
  // Leases
  // ---------------------------------------------------------------------------

  /** The request names its own account, in a status and recovery it accepts, and no run stands in the way. */
  predicate MayAcquire(s: State, op: Op)
    requires op.DoAcquire?
  {
    && op.allowed != {} && KnownRecovery(op.recovery)
    && OwnedBy(s, op.account, op.who)
    && s.accounts[op.account].status in op.allowed
    && (op.recovery.Some? ==> s.accounts[op.account].recovery == op.recovery.value)
    && !(IsInteractive(op.lane) && op.workRunning)
  }

  lemma FreshLease(s: State)
    requires Holds(s)
    ensures s.nextId !in s.leases
  {
    assert forall l :: l in s.leases ==> LeaseHolds(s, l);
  }

  /** An account is leased exactly when such a request finds it free; it is then held for the time asked. */
  lemma AcquireIff(s: State, op: Op)
    requires Holds(s) && op.DoAcquire?
    ensures var r := Outcome(s, op);
            && (r.Ok? <==> MayAcquire(s, op) && !HeldAt(s, op.account, s.clock))
            && (r.Ok? ==>
                  && r.value.accounts == s.accounts && r.value.clock == s.clock && s.nextId < r.value.nextId
                  && s.nextId !in s.leases && r.value.leases.Keys == s.leases.Keys + {s.nextId}
                  && (forall l :: l in s.leases ==> r.value.leases[l] == s.leases[l])
                  && (forall t :: s.clock <= t ==>
                        (HeldAt(r.value, op.account, t) <==> t < s.clock + Seconds(op.ttl)))
                  && var lease := r.value.leases[s.nextId];
                     && lease.account == op.account && lease.who == op.who
                     && lease.worker == op.worker && lease.run == op.run
                     && lease.lane <= Named(op.lane)
                     && |lease.lane| == if |Named(op.lane)| > 80 then 80 else |Named(op.lane)|)
  {
    HeldIff(s, op.account, s.clock);
    InteractiveIff(op.lane);
    FreshLease(s);
    if Outcome(s, op).Ok? {
      AcquiredHolds(s, op);
    }
  }

  lemma AcquiredHolds(s: State, op: Op)
    requires op.DoAcquire? && Outcome(s, op).Ok? && s.nextId !in s.leases
    ensures forall t :: s.clock <= t ==>
              (HeldAt(Outcome(s, op).value, op.account, t) <==> t < s.clock + Seconds(op.ttl))
  {
    var after := Outcome(s, op).value;
    forall t | s.clock <= t ensures HeldAt(after, op.account, t) <==> t < s.clock + Seconds(op.ttl) {
      var lease := after.leases[s.nextId];
      assert HoldsAt(lease, op.account, t) <==> t < s.clock + Seconds(op.ttl);
      if HeldAt(after, op.account, t) {
        var l :| l in after.leases && HoldsAt(after.leases[l], op.account, t);
        if l != s.nextId { assert ActiveAt(s.leases[l], s.clock); }
      }
    }
  }

  /** A lease is prolonged exactly when its holder still has it, and then to the time asked from now. */
  lemma HeartbeatIff(s: State, lease: nat, who: Principal, ttl: int)
    ensures var r := Outcome(s, DoHeartbeat(lease, who, ttl));
            && (r.Ok? <==>
                  && lease in s.leases && s.leases[lease].who == who
                  && s.leases[lease].releasedAt == None && s.clock < s.leases[lease].expiresAt)
            && (r.Ok? ==>
                  r.value == s.(leases := s.leases[lease := s.leases[lease].(
                    heartbeatAt := s.clock, expiresAt := s.clock + Seconds(ttl))]))
  {
  }

  /** A lease is released exactly when its holder has not released it, expired or not; the time is all that changes. */
  lemma ReleaseIff(s: State, lease: nat, who: Principal)
    ensures var r := Outcome(s, DoRelease(lease, who));
            && (r.Ok? <==> lease in s.leases && s.leases[lease].who == who && s.leases[lease].releasedAt == None)
            && (r.Ok? ==>
                  r.value == s.(leases := s.leases[lease := s.leases[lease].(releasedAt := Some(s.clock))]))
  {
  }

  /** Releasing the lease that holds an account frees it at once: whoever may lease it then can. */
  lemma ReleaseFrees(s: State, lease: nat, who: Principal, op: Op)
    requires Holds(s) && Outcome(s, DoRelease(lease, who)).Ok? && s.clock < s.leases[lease].expiresAt
    requires op.DoAcquire? && op.account == s.leases[lease].account
    ensures var t := Outcome(s, DoRelease(lease, who)).value;
            && (forall now :: s.clock <= now ==> !HeldAt(t, op.account, now))
            && (MayAcquire(s, op) ==> Outcome(t, op).Ok?)
  {
    ReleaseIff(s, lease, who);
    var t := Outcome(s, DoRelease(lease, who)).value;
    ReleaseKeeps(s, lease, who);
    forall now | s.clock <= now ensures !HeldAt(t, op.account, now) {
      if HeldAt(t, op.account, now) {
        var l :| l in t.leases && HoldsAt(t.leases[l], op.account, now);
        assert HoldsAt(s.leases[l], op.account, s.clock) && HoldsAt(s.leases[lease], op.account, s.clock);
        AtMostOneActive(s, l, lease, s.clock);
      }
    }
    AcquireIff(t, op);
  }

  // ---------------------------------------------------------------------------
  // Accounts
  // ---------------------------------------------------------------------------

  /** A disconnect ends every lease of the account, and it can then be forgotten with all of them. */
  lemma DisconnectThenForget(s: State, account: nat, who: Principal)
    requires Holds(s)
    ensures Outcome(s, DoDisconnect(account, who)).Ok? <==> OwnedBy(s, account, who)
    ensures Outcome(s, DoDisconnect(account, who)).Ok? ==>
              var t := Outcome(s, DoDisconnect(account, who)).value;
              && t.accounts == s.accounts[account :=
                    Account(who, s.accounts[account].provider, false, Disconnected, "")]
              && (forall now :: s.clock <= now ==> !HeldAt(t, account, now))
              && (forall l :: l in s.leases && (s.leases[l].account != account || s.leases[l].releasedAt.Some?) ==>
                    l in t.leases && t.leases[l] == s.leases[l])
              && Outcome(t, DoForget(account, who)).Ok?
  {
    if OwnedBy(s, account, who) {
      var t := Outcome(s, DoDisconnect(account, who)).value;
      DisconnectKeeps(s, account, who);
      forall l | l in t.leases && t.leases[l].account == account ensures t.leases[l].releasedAt.Some? {
        assert LeaseHolds(s, l);
      }
    }
  }

  /** An account is forgotten exactly when disconnected and free; its rows go, everyone else's stay. */
  lemma ForgetIff(s: State, account: nat, who: Principal)
    ensures var r := Outcome(s, DoForget(account, who));
            && (r.Ok? <==>
                  && OwnedBy(s, account, who) && s.accounts[account].status == Disconnected
                  && !HeldAt(s, account, s.clock))
            && (r.Ok? ==>
                  && r.value.nextId == s.nextId && r.value.clock == s.clock
                  && account !in r.value.accounts && r.value.accounts.Keys + {account} == s.accounts.Keys
                  && (forall a :: a in r.value.accounts ==> r.value.accounts[a] == s.accounts[a])
                  && (forall l :: l in r.value.leases <==> l in s.leases && s.leases[l].account != account)
                  && (forall l :: l in r.value.leases ==> r.value.leases[l] == s.leases[l]))
  {
    HeldIff(s, account, s.clock);
  }

  /** An owner's accounts that are not disconnected. */
  function InUseBy(s: State, who: Principal): set<nat> {
    set a | a in s.accounts && s.accounts[a].who == who && s.accounts[a].status != Disconnected
  }

  ghost predicate DefaultOf(s: State, a: nat, who: Principal, provider: string) {
    a in s.accounts && s.accounts[a].who == who && s.accounts[a].provider == provider && s.accounts[a].isDefault
  }

  /** An account is added exactly below the limit; of the other accounts at most who is default changes. */
  lemma CreateIff(s: State, op: Op)
    requires Holds(s) && op.DoCreate?
    ensures var r := Outcome(s, op);
            && (r.Ok? <==> |InUseBy(s, op.who)| < op.limit)
            && (r.Ok? ==>
                  && s.nextId !in s.accounts && r.value.accounts.Keys == s.accounts.Keys + {s.nextId}
                  && r.value.leases == s.leases && r.value.clock == s.clock
                  && r.value.accounts[s.nextId].(isDefault := false) ==
                     Account(op.who, op.provider, false, op.status, "")
                  && (forall a :: a in s.accounts ==>
                        r.value.accounts[a].(isDefault := s.accounts[a].isDefault) == s.accounts[a]))
  {
    if Outcome(s, op).Ok? {
      var t := Outcome(s, op).value;
      assert t.accounts.Keys == s.accounts.Keys + {s.nextId};
    }
  }

  lemma HasDefaultIff(s: State, who: Principal, provider: string)
    ensures HasDefault(s, who, provider) <==> exists a :: DefaultOf(s, a, who, provider)
  {
    if HasDefault(s, who, provider) {
      var a :| a in s.accounts && s.accounts[a].who == who && s.accounts[a].provider == provider &&
        s.accounts[a].isDefault;
      assert DefaultOf(s, a, who, provider);
    }
  }

  /**
   * The new account is its owner's default for the provider if asked or if there was none, and then the only one;
   * otherwise, and elsewhere, the defaults stay.
   */
  lemma DefaultAfterCreate(s: State, op: Op)
    requires Holds(s) && op.DoCreate? && Outcome(s, op).Ok?
    ensures var t, first := Outcome(s, op).value, forall a :: !DefaultOf(s, a, op.who, op.provider);
            && (DefaultOf(t, s.nextId, op.who, op.provider) <==> op.makeDefault || first)
            && (forall a :: a in s.accounts ==>
                  a in t.accounts &&
                  (t.accounts[a].isDefault <==>
                    && s.accounts[a].isDefault
                    && !(op.makeDefault && DefaultOf(s, a, op.who, op.provider))))
  {
    HasDefaultIff(s, op.who, op.provider);
  }

  /** A status is recorded for the owner's own account, with the recovery code if one the table knows is given. */
  lemma StatusIff(s: State, op: Op)
    requires op.DoSetStatus?
    ensures var r := Outcome(s, op);
            && (r.Ok? <==> KnownRecovery(op.recovery) && OwnedBy(s, op.account, op.who))
            && (r.Ok? ==>
                  && r.value.(accounts := s.accounts) == s
                  && r.value.accounts.Keys == s.accounts.Keys
                  && (forall a :: a in s.accounts && a != op.account ==> r.value.accounts[a] == s.accounts[a])
                  && r.value.accounts[op.account].status == op.newStatus
                  && r.value.accounts[op.account].recovery ==
                     (if op.recovery.Some? then op.recovery.value else s.accounts[op.account].recovery)
                  && r.value.accounts[op.account].isDefault == s.accounts[op.account].isDefault
                  && r.value.accounts[op.account].provider == s.accounts[op.account].provider
                  && r.value.accounts[op.account].who == op.who)
  {
  }
}
