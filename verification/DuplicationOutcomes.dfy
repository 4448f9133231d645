/** What a reservation answers in every state of its key, and what becomes of a key served step by step. */
module DuplicationOutcomes {
  import opened Prelude
  import opened Duplications

  /** Nothing is on record for the key, or a failure that left neither project nor worker behind. */
  predicate Free(table: Table, key: Key) {
    key in table ==> table[key].status == Failed && table[key].project == None && table[key].worker == None
  }

  /** The key is on record for the same request. */
  predicate Known(table: Table, key: Key, request: Request) {
    key in table && table[key].request == request
  }

  /** Each answer a reservation can get, and exactly when it does. */
  lemma ReserveIff(table: Table, key: Key, request: Request, id: nat)
    ensures var r := ReserveReply(table, key, request, id);
            && (r == Err(KeyReused) <==> key in table && !Known(table, key, request))
            && (r == Ok(Reserved(id, false)) <==> key !in table)
            && (r == Ok(Reserved(id, true)) <==> Known(table, key, request) && Free(table, key))
            && (r.Ok? && r.value.InProgress? <==> Known(table, key, request) && table[key].status == Pending)
            && (r.Ok? && r.value.Replay? <==>
                  Known(table, key, request) && table[key].status == Completed && table[key].response != "")
            && (r == Err(RecordInconsistent) <==>
                  Known(table, key, request) && table[key].status == Completed && table[key].response == "")
            && (r.Ok? && r.value.FailedReplay? <==>
                  Known(table, key, request) && table[key].status == Failed && !Free(table, key))
  {
  }

  /** What an answer shows is the row on record. */
  lemma AnswerShowsRow(table: Table, key: Key, request: Request, id: nat)
    requires ReserveReply(table, key, request, id).Ok?
    ensures match ReserveReply(table, key, request, id).value
            case Reserved(project, _) => project == id
            case InProgress(row) => key in table && row == table[key]
            case FailedReplay(row) => key in table && row == table[key]
            case Replay(response) => key in table && response == table[key].response
  {
  }

  /** A reservation writes its own key's row if it is free, as pending under the new project; else nothing. */
  lemma ReserveWrites(table: Table, key: Key, request: Request, id: nat, now: nat)
    ensures var after := ReserveTable(table, key, request, id, now);
            && (forall k :: k in table && k != key ==> k in after && after[k] == table[k])
            && after.Keys == table.Keys + {key}
            && if key !in table || (Known(table, key, request) && Free(table, key)) then
                 && after[key].request == request && after[key].status == Pending && after[key].project == Some(id)
                 && after[key].worker == None && after[key].updatedAt == now
               else after == table
  {
  }

  /** Recording, completing and failing take effect exactly while the row is pending, and on that row only. */
  lemma UpdatesIff(table: Table, e: Event)
    requires !e.op.DoReserve?
    ensures var pending, after := e.op.key in table && table[e.op.key].status == Pending, Next(table, e);
            if !pending then after == table
            else
              && after.Keys == table.Keys && (forall k :: k in table && k != e.op.key ==> after[k] == table[k])
              && var row, next := table[e.op.key], after[e.op.key];
                 && next.request == row.request && next.updatedAt == e.now
                 && match e.op
                    case DoRecord(_, project) =>
                      next.status == Pending && next.project == Some(project) && next.worker == row.worker
                      && next.response == row.response
                    case DoComplete(_, project, worker, response) =>
                      next.status == Completed && next.project == Some(project) && next.worker == Some(worker)
                      && next.response == response
                    case DoFail(_, project, worker) =>
                      next.status == Failed && next.response == row.response
                      && next.project == (if project == Keep then row.project else project.value)
                      && next.worker == (if worker == Keep then row.worker else worker.value)
  {
  }

  // ---------------------------------------------------------------------------
  // One request served
  // ---------------------------------------------------------------------------

  /** What the table holds after events one after the other. */
  function After(table: Table, events: seq<Event>): Table
    decreases |events|
  {
    if events == [] then table else Next(After(table, events[..|events| - 1]), events[|events| - 1])
  }

  lemma AfterTwo(table: Table, e: Event, f: Event)
    ensures After(table, [e, f]) == Next(Next(table, e), f)
  {
    assert [e, f][..1] == [e] && [e][..0] == [];
    assert After(table, []) == table;
    assert After(table, [e]) == Next(table, e);
  }

  /** A free key reserved and completed: from then on the request gets the response, and no other is served. */
  lemma ReservedThenCompleted(table: Table, key: Key, request: Request, id: nat, worker: nat, response: string,
      now: nat, later: nat, other: Request, next: nat)
    requires key !in table && response != ""
    ensures var done := After(table, [Event(DoReserve(key, request, id), now),
                                      Event(DoComplete(key, id, worker, response), later)]);
            ReserveReply(done, key, other, next) == if other == request then Ok(Replay(response)) else Err(KeyReused)
  {
    AfterTwo(table, Event(DoReserve(key, request, id), now), Event(DoComplete(key, id, worker, response), later));
  }

  /** A free key reserved and failed: the request may try again exactly if the failure left nothing behind. */
  lemma ReservedThenFailed(table: Table, key: Key, request: Request, id: nat, project: Arg, worker: Arg, now: nat,
      later: nat, next: nat)
    requires key !in table
    ensures var done := After(table, [Event(DoReserve(key, request, id), now),
                                      Event(DoFail(key, project, worker), later)]);
            && (ReserveReply(done, key, request, next) == Ok(Reserved(next, true)) <==>
                  project == Write(None) && (worker == Keep || worker == Write(None)))
            && ReserveReply(done, key, request, next).Ok?
  {
    AfterTwo(table, Event(DoReserve(key, request, id), now), Event(DoFail(key, project, worker), later));
  }
}
