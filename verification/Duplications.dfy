/** The idempotency-key table of workspace duplications: reserve, record, complete, fail. */
module Duplications {
  import opened Prelude

  datatype Key = Key(tenant: string, owner: string, idempotencyKey: string)

  /** What the request hash covers; hashes are compared, so equal hashes mean equal requests. */
  datatype Request = Request(source: string, name: string)

  datatype Status = Pending | Completed | Failed

  /** Blank and NULL ids are both `None`: the code only ever tests them for truth. */
  datatype Row = Row(request: Request, status: Status, project: Option<nat>, worker: Option<nat>, response: string,
    updatedAt: nat)

  type Table = map<Key, Row>

  /** The reply to a reservation. */
  datatype Reply =
    | Reserved(project: nat, safeRetry: bool)
    | InProgress(row: Row)
    | Replay(response: string)
    | FailedReplay(row: Row)

  datatype Refusal = KeyReused | RecordInconsistent | ReservationLost

  /** A `COALESCE(?, column)` argument: NULL keeps the column, anything else, blank included, is written. */
  datatype Arg = Keep | Write(value: Option<nat>)

  function Coalesce(arg: Arg, column: Option<nat>): Option<nat> {
    if arg.Keep? then column else arg.value
  }

  predicate Retryable(row: Row) {
    row.status == Failed && row.project.None? && row.worker.None?
  }

  /** The answer to `reserve_workspace_duplication`; `id` is the project id drawn for it. */
  function ReserveReply(table: Table, key: Key, request: Request, id: nat): Result<Reply, Refusal> {
    if key !in table then Ok(Reserved(id, false))
    else
      var row := table[key];
      if row.request != request then Err(KeyReused)
      else match row.status
        case Pending => Ok(InProgress(row))
        case Completed => if row.response == "" then Err(RecordInconsistent) else Ok(Replay(row.response))
        case Failed => if Retryable(row) then Ok(Reserved(id, true)) else Ok(FailedReplay(row))
  }

  /** The table after the reservation; a failed but empty one starts over under the new project id. */
  function ReserveTable(table: Table, key: Key, request: Request, id: nat, now: nat): Table {
    var reply := ReserveReply(table, key, request, id);
    if reply.Err? || !reply.value.Reserved? then table
    else if key !in table then table[key := Row(request, Pending, Some(id), None, "", now)]
    else table[key := table[key].(status := Pending, project := Some(id), updatedAt := now)]
  }

  /** Every other statement is an UPDATE that only a pending row matches. */
  predicate IsPending(table: Table, key: Key) {
    key in table && table[key].status == Pending
  }

  function Record(table: Table, key: Key, project: nat, now: nat): Result<Table, Refusal> {
    if !IsPending(table, key) then Err(ReservationLost)
    else Ok(table[key := table[key].(project := Some(project), updatedAt := now)])
  }

  function Complete(table: Table, key: Key, project: nat, worker: nat, response: string, now: nat)
    : Result<Table, Refusal>
  {
    if !IsPending(table, key) then Err(ReservationLost)
    else Ok(table[key :=
      table[key].(status := Completed, project := Some(project), worker := Some(worker), response := response,
        updatedAt := now)])
  }

  function Fail(table: Table, key: Key, project: Arg, worker: Arg, now: nat): Result<Table, Refusal> {
    if !IsPending(table, key) then Err(ReservationLost)
    else
      var row := table[key];
      Ok(table[key :=
        row.(status := Failed, project := Coalesce(project, row.project), worker := Coalesce(worker, row.worker),
          updatedAt := now)])
  }

  // ---------------------------------------------------------------------------
  // Any interleaving of statements
  // ---------------------------------------------------------------------------

  datatype Op =
    | DoReserve(key: Key, request: Request, id: nat)
    | DoRecord(key: Key, project: nat)
    | DoComplete(key: Key, project: nat, worker: nat, response: string)
    | DoFail(key: Key, projectArg: Arg, workerArg: Arg)

  datatype Event = Event(op: Op, now: nat)

  function Next(table: Table, e: Event): Table {
    match e.op
    case DoReserve(key, request, id) => ReserveTable(table, key, request, id, e.now)
    case DoRecord(key, project) => var r := Record(table, key, project, e.now); if r.Ok? then r.value else table
    case DoComplete(key, project, worker, response) =>
      var r := Complete(table, key, project, worker, response, e.now); if r.Ok? then r.value else table
    case DoFail(key, project, worker) =>
      var r := Fail(table, key, project, worker, e.now); if r.Ok? then r.value else table
  }

  ghost predicate Step(t: Table, e: Event, u: Table) {
    u == Next(t, e)
  }

  ghost predicate IsRun(tables: seq<Table>, events: seq<Event>) {
    && |tables| == |events| + 1
    && forall k :: 0 <= k < |events| ==> Step(tables[k], events[k], tables[k + 1])
  }

  predicate IsCompleted(table: Table, key: Key) {
    key in table && table[key].status == Completed
  }

  lemma CompletedStep(t: Table, e: Event, key: Key)
    requires IsCompleted(t, key)
    ensures IsCompleted(Next(t, e), key) && Next(t, e)[key] == t[key]
  {
  }

  /** A completed row is never written again. */
  lemma {:induction false} CompletedForever(tables: seq<Table>, events: seq<Event>, m: nat, n: nat, key: Key)
    requires IsRun(tables, events) && m <= n < |tables|
    requires IsCompleted(tables[m], key)
    ensures IsCompleted(tables[n], key) && tables[n][key] == tables[m][key]
    decreases n
  {
    if m < n {
      CompletedForever(tables, events, m, n - 1, key);
      assert Step(tables[n - 1], events[n - 1], tables[n]);
      CompletedStep(tables[n - 1], events[n - 1], key);
    }
  }

  /** Event `n` completes the key. */
  ghost predicate Completes(tables: seq<Table>, events: seq<Event>, n: nat, key: Key)
    requires IsRun(tables, events)
  {
    n < |events| && events[n].op.DoComplete? && events[n].op.key == key && IsPending(tables[n], key)
  }

  /** A key is completed at most once, under any interleaving. */
  lemma CompletedAtMostOnce(tables: seq<Table>, events: seq<Event>, m: nat, n: nat, key: Key)
    requires IsRun(tables, events)
    requires Completes(tables, events, m, key) && Completes(tables, events, n, key)
    ensures m == n
  {
    var i, j := if m < n then m else n, if m < n then n else m;
    if i < j {
      assert Step(tables[i], events[i], tables[i + 1]);
      CompletedForever(tables, events, i + 1, j, key);
    }
  }

  /** From then on the same request gets the stored response, any other is refused, and nothing else takes effect. */
  lemma CompletedAnswers(tables: seq<Table>, events: seq<Event>, m: nat, n: nat, key: Key, request: Request, id: nat)
    requires IsRun(tables, events)
    requires Completes(tables, events, m, key) && m < n < |tables|
    ensures ReserveReply(tables[n], key, request, id) ==
            if request != tables[m][key].request then Err(KeyReused)
            else if events[m].op.response == "" then Err(RecordInconsistent)
            else Ok(Replay(events[m].op.response))
    ensures ReserveTable(tables[n], key, request, id, 0) == tables[n]
    ensures tables[n][key].project == Some(events[m].op.project) && tables[n][key].worker == Some(events[m].op.worker)
  {
    assert Step(tables[m], events[m], tables[m + 1]);
    CompletedForever(tables, events, m + 1, n, key);
  }

  // ---------------------------------------------------------------------------
  // The table as written
  // ---------------------------------------------------------------------------

  class DuplicationTable {
    var rows: Table
    var nextProject: nat

    constructor ()
      ensures rows == map[] && nextProject == 0
    {
      rows, nextProject := map[], 0;
    }

    method Reserve(key: Key, request: Request, now: nat) returns (r: Result<Reply, Refusal>)
      modifies this
      ensures nextProject == old(nextProject) + 1
      ensures r == ReserveReply(old(rows), key, request, old(nextProject))
      ensures rows == ReserveTable(old(rows), key, request, old(nextProject), now)
    {
      var reserved := nextProject;
      nextProject := nextProject + 1;
      if key in rows {
        var existing := rows[key];
        if existing.request != request { return Err(KeyReused); }
        if existing.status == Pending { return Ok(InProgress(existing)); }
        if existing.status == Completed {
          if existing.response == "" { return Err(RecordInconsistent); }
          return Ok(Replay(existing.response));
        }
        if existing.project.None? && existing.worker.None? {
          rows := rows[key := existing.(status := Pending, project := Some(reserved), updatedAt := now)];
          return Ok(Reserved(reserved, true));
        }
        return Ok(FailedReplay(existing));
      }
      rows := rows[key := Row(request, Pending, Some(reserved), None, "", now)];
      return Ok(Reserved(reserved, false));
    }

    method RecordProject(key: Key, project: nat, now: nat) returns (failure: Option<Refusal>)
      modifies this`rows
      ensures match Record(old(rows), key, project, now)
              case Ok(t) => failure == None && rows == t
              case Err(e) => failure == Some(e) && rows == old(rows)
    {
      if key !in rows || rows[key].status != Pending { return Some(ReservationLost); }
      rows := rows[key := rows[key].(project := Some(project), updatedAt := now)];
      return None;
    }

    method CompleteRow(key: Key, project: nat, worker: nat, response: string, now: nat)
        returns (failure: Option<Refusal>)
      modifies this`rows
      ensures match Complete(old(rows), key, project, worker, response, now)
              case Ok(t) => failure == None && rows == t
              case Err(e) => failure == Some(e) && rows == old(rows)
    {
      if key !in rows || rows[key].status != Pending { return Some(ReservationLost); }
      rows := rows[key :=
        rows[key].(status := Completed, project := Some(project), worker := Some(worker), response := response,
          updatedAt := now)];
      return None;
    }

    method FailRow(key: Key, project: Arg, worker: Arg, now: nat) returns (failure: Option<Refusal>)
      modifies this`rows
      ensures match Fail(old(rows), key, project, worker, now)
              case Ok(t) => failure == None && rows == t
              case Err(e) => failure == Some(e) && rows == old(rows)
    {
      if key !in rows || rows[key].status != Pending { return Some(ReservationLost); }
      var row := rows[key];
      rows := rows[key :=
        row.(status := Failed, project := Coalesce(project, row.project), worker := Coalesce(worker, row.worker),
          updatedAt := now)];
      return None;
    }
  }
}
