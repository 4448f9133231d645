/** Duplications get done: an executor left alone completes its key, and one that died is recovered from. */
module DuplicationRecovery {
  import opened Prelude
  import opened Duplications
  import opened Executors = DuplicationExecutors

  // ---------------------------------------------------------------------------
  // An executor left alone
  // ---------------------------------------------------------------------------

  /** The key is new, and one executor has just reserved it. */
  lemma Reserves(w: World, e: nat, key: Key, request: Request)
    requires Executors.Holds(w) && e !in w.executors && key !in w.table
    ensures var t := Executors.Next(w, Start(e, key, request, false));
            && t.table == w.table[key := Row(request, Pending, Some(w.nextId), None, "", 0)]
            && t.executors == w.executors[e := Executor(key, w.nextId, HasReservation)]
            && t.projects == w.projects && t.nextId == w.nextId + 1 && t.copied == w.copied
  {
  }

  /** Its project made and recorded. */
  lemma Prepares(w: World, e: nat)
    requires e in w.executors && w.executors[e].phase.HasReservation?
    requires w.executors[e].project !in w.projects && IsPending(w.table, w.executors[e].key)
    requires w.table[w.executors[e].key].project == Some(w.executors[e].project)
    requires w.table[w.executors[e].key].updatedAt == 0
    ensures var x, t := w.executors[e],
                Executors.Next(Executors.Next(w, CreateProject(e)), RecordProject(e));
            && t.table == w.table && t.nextId == w.nextId && t.copied == w.copied
            && t.projects == w.projects[x.project := []]
            && t.executors == w.executors[e := x.(phase := HasRecorded)]
  {
    var x := w.executors[e];
    var made := Executors.Next(w, CreateProject(e));
    assert made == w.(projects := w.projects[x.project := []], executors := w.executors[e := x.(phase := HasProject)]);
    var t := Executors.Next(made, RecordProject(e));
    assert w.table[x.key := w.table[x.key].(project := Some(x.project), updatedAt := 0)] == w.table;
  }

  /** Its worker made, copied, and the row completed. */
  lemma Finishes(w: World, e: nat)
    requires e in w.executors && w.executors[e].phase.HasRecorded? && IsPending(w.table, w.executors[e].key)
    requires w.executors[e].project in w.projects && w.projects[w.executors[e].project] == []
    ensures var x := w.executors[e];
            var copied := Executors.Next(Executors.Next(w, CreateWorker(e)), FinishCopy(e));
            var t := Executors.Next(copied, CompleteRow(e));
            && t.table == w.table[x.key :=
                 Row(w.table[x.key].request, Completed, Some(x.project), Some(w.nextId), RESPONSE, 0)]
            && t.projects == w.projects[x.project := [w.nextId]] && w.nextId in t.copied
            && t.executors == w.executors - {e}
  {
    var x := w.executors[e];
    var working := Executors.Next(w, CreateWorker(e));
    assert [] + [w.nextId] == [w.nextId];
    assert working.projects == w.projects[x.project := [w.nextId]];
    assert working.executors == w.executors[e := x.(phase := HasWorker(w.nextId))];
    var copied := Executors.Next(working, FinishCopy(e));
    assert copied.executors == w.executors[e := x.(phase := HasCopied(w.nextId))];
    var t := Executors.Next(copied, CompleteRow(e));
    assert t.executors == w.executors - {e};
  }

  /** One executor's six calls, one after the other. */
  function Served(w: World, e: nat, key: Key, request: Request): World {
    var reserved := Executors.Next(w, Start(e, key, request, false));
    var recorded := Executors.Next(Executors.Next(reserved, CreateProject(e)), RecordProject(e));
    var copied := Executors.Next(Executors.Next(recorded, CreateWorker(e)), FinishCopy(e));
    Executors.Next(copied, CompleteRow(e))
  }

  lemma FreshProject(w: World)
    requires Executors.Holds(w)
    ensures w.nextId !in w.projects
  {
    assert forall p :: p in w.projects ==> ProjectHolds(w, p);
  }

  /** A new key served without interruption ends completed, naming a project with its one copied worker. */
  lemma ServedCompletes(w: World, e: nat, key: Key, request: Request, other: nat)
    requires Executors.Holds(w) && e !in w.executors && key !in w.table
    ensures var t := Served(w, e, key, request);
            && w.nextId in t.projects && t.projects[w.nextId] == [w.nextId + 1] && w.nextId + 1 in t.copied
            && key in t.table && t.table[key].project == Some(w.nextId) && t.table[key].worker == Some(w.nextId + 1)
            && ReserveReply(t.table, key, request, other) == Ok(Replay(RESPONSE))
            && e !in t.executors
  {
    Reserves(w, e, key, request);
    var reserved := Executors.Next(w, Start(e, key, request, false));
    FreshProject(w);
    Prepares(reserved, e);
    Finishes(Executors.Next(Executors.Next(reserved, CreateProject(e)), RecordProject(e)), e);
  }

  // ---------------------------------------------------------------------------
  // A dead executor's key taken over
  // ---------------------------------------------------------------------------

  /** The key is pending for the request and nobody alive works on it. */
  ghost predicate Abandoned(w: World, key: Key, request: Request) {
    && IsPending(w.table, key) && w.table[key].request == request && w.table[key].project.Some?
    && forall e :: e in w.executors ==> w.executors[e].key != key
  }

  /** A request finds it stale, looks at its project, and marks what it finds. */
  function Recovered(w: World, e: nat, key: Key, request: Request): World {
    var taken := Executors.Next(w, Start(e, key, request, true));
    Executors.Next(Executors.Next(taken, Reconcile(e)), MarkFailed(e))
  }

  lemma TakesOver(w: World, e: nat, key: Key, request: Request)
    requires Abandoned(w, key, request) && e !in w.executors
    ensures Executors.Next(w, Start(e, key, request, true)) ==
            w.(executors := w.executors[e := Executor(key, w.table[key].project.value, Reconciling)],
               nextId := w.nextId + 1)
  {
  }

  /** The project's one worker, if its copy finished. */
  predicate CopyStands(w: World, p: nat) {
    p in w.projects && |w.projects[p]| == 1 && w.projects[p][0] in w.copied
  }

  lemma MarksWhatItFinds(w: World, e: nat, key: Key, p: nat)
    requires e in w.executors && w.executors[e] == Executor(key, p, Reconciling) && IsPending(w.table, key)
    requires p in w.projects ==> |w.projects[p]| <= 1
    ensures var t := Executors.Next(Executors.Next(w, Reconcile(e)), MarkFailed(e));
            var left := p in w.projects && w.projects[p] != [];
            && t.executors == w.executors - {e}
            && t.table == w.table[key :=
                 if CopyStands(w, p) then
                   Row(w.table[key].request, Completed, Some(p), Some(w.projects[p][0]), RESPONSE, 0)
                 else
                   Row(w.table[key].request, Failed, if left then Some(p) else None,
                       if left then Some(w.projects[p][0]) else None, w.table[key].response, 0)]
            && t.projects == if left then w.projects else w.projects - {p}
  {
    var x := w.executors[e];
    var marked := Executors.Next(w, Reconcile(e));
    if CopyStands(w, p) {
      assert marked.executors == w.executors - {e};
    } else {
      assert marked.executors - {e} == w.executors - {e};
      assert p !in w.projects ==> w.projects - {p} == w.projects;
    }
  }

  /**
   * An abandoned key is recovered from wherever its executor died: completed if the copy had finished; otherwise
   * failed, and free to try again exactly if no worker was made. No other key is touched.
   */
  lemma AbandonedRecovers(w: World, e: nat, key: Key, request: Request, id: nat)
    requires Executors.Holds(w) && Abandoned(w, key, request) && e !in w.executors
    ensures var p, t := w.table[key].project.value, Recovered(w, e, key, request);
            var reply := ReserveReply(t.table, key, request, id);
            && (if CopyStands(w, p) then
                  reply == Ok(Replay(RESPONSE)) && t.table[key].worker == Some(w.projects[p][0])
                else if p in w.projects && w.projects[p] != [] then reply.Ok? && reply.value.FailedReplay?
                else reply == Ok(Reserved(id, true)) && p !in t.projects)
            && (forall k :: k in w.table && k != key ==> k in t.table && t.table[k] == w.table[k])
            && e !in t.executors
  {
    TakesOver(w, e, key, request);
    var p := w.table[key].project.value;
    var taken := Executors.Next(w, Start(e, key, request, true));
    if p in w.projects { assert ProjectHolds(w, p); }
    MarksWhatItFinds(taken, e, key, p);
  }
}
