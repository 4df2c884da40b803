/**
 The two repositories over one shared database.

 A call to the database is one statement. Since a statement shows nothing while it
 runs, the whole call is one method: the snapshot it took, some earlier state of the
 log, and what may go wrong on the way are its `Weather`.
 */
module Repositories {
  import opened Wrappers
  import opened Uuids
  import opened Json
  import opened Tables
  import opened Ledger
  import opened Queries
  import opened Errors
  import opened Protocol

  /** What the driver and PostgreSQL contribute: uuid texts, and the errors they return. */
  datatype Lib = Lib(uuids: UuidText, report: UniqueKey -> Error, badCast: Error)

  const UNIQUE_VIOLATION := "23505"

  // A failed cast is reported neither as an HTTP error nor as a unique violation.
  ghost predicate IsCastFailure(e: Error) {
    FirstHttp(e, None) && forall pg :: FirstPg(e, Some(pg)) ==> pg.sqlState != "23505"
  }

  // A violation is a *PgError somewhere in the error returned, with SQLSTATE and constraint.
  ghost predicate Reported(e: Error, key: UniqueKey) {
    FirstHttp(e, None) && exists pg :: FirstPg(e, Some(pg)) && pg.sqlState == "23505" && pg.constraint == KeyName(key)
  }

  ghost predicate Faithful(lib: Lib) {
    && Lawful(lib.uuids)
    && IsCastFailure(lib.badCast)
    && forall key :: Reported(lib.report(key), key)
  }

  lemma ReportedIsFound(e: Error, key: UniqueKey)
    requires Reported(e, key)
    ensures AsHttp(e).None?
    ensures AsPg(e).Some? && AsPg(e).value.sqlState == UNIQUE_VIOLATION && AsPg(e).value.constraint == KeyName(key)
  {
    SearchesAreExact(e, None);
    var pg :| FirstPg(e, Some(pg)) && pg.sqlState == "23505" && pg.constraint == KeyName(key);
    SearchesAreExact(e, Some(pg));
  }

  lemma CastFailureIsNone(e: Error)
    requires IsCastFailure(e)
    ensures AsHttp(e).None? && (AsPg(e).Some? ==> AsPg(e).value.sqlState != UNIQUE_VIOLATION)
  {
    SearchesAreExact(e, None);
    AsPgFindsFirst(e);
  }

  lemma PlainIsCastFailure(e: Error)
    requires e.Plain?
    ensures IsCastFailure(e)
  {
    assert Visited(e) == [e];
    SearchesAreExact(e, None);
  }

  /** A violation wrapped by fmt.Errorf with %w is still reported as what it is. */
  lemma WrappedViolationIsReported(prefix: string, key: UniqueKey, text: string)
    ensures Reported(Wrapped(prefix, Pg("23505", KeyName(key), text)), key)
  {
    var pg := Pg("23505", KeyName(key), text);
    var e := Wrapped(prefix, pg);
    assert Visited(pg) == [pg] && Visited(e) == [e, pg];
    assert FirstAt(Visited(e), PgTarget, 1);
    assert FirstPg(e, Some(pg));
  }

  /** The connection works, fails before the statement commits, or loses its answer after. */
  datatype Fault = Up | Down(error: Error) | AckLost(error: Error)

  datatype Weather = Weather(snapshot: Log, now: int, fault: Fault, choose: set<UniqueKey> -> UniqueKey)

  ghost predicate Picks(w: Weather) {
    forall keys :: keys != {} ==> w.choose(keys) in keys
  }

  /** One statement: the log it leaves and the affected-row count or error it returns. */
  function Execution(lib: Lib, log: Log, call: Option<Call>, w: Weather): (Log, Result<int>) {
    if w.fault.Down? then (log, Err(w.fault.error))
    else if call.None? then (log, Err(lib.badCast))
    else
      var a := Try(call.value, Rows(w.snapshot), Rows(log));
      var after := if a.Write? then log + [Entry(call.value, a.rows)] else log;
      var answer :=
        match a
        case NoRows => Ok(0)
        case Clash(keys) => Err(lib.report(w.choose(keys)))
        case Write(rows) => Ok(|rows.outbox|);
      (after, if w.fault.AckLost? then Err(w.fault.error) else answer)
  }

  /** Only a call that succeeds writes, and it writes one entry of its own; a lost answer decides nothing. */
  predicate OnlySuccessWrites<R>(before: Log, after: Log, call: Option<Call>, r: Result<R>, w: Weather) {
    && (r.Err? && !w.fault.AckLost? ==> after == before)
    && (r.Ok? ==> |after| == |before| + 1 && after[..|before|] == before && call == Some(after[|before|].call))
  }

  class DB {
    const lib: Lib
    var log: Log

    constructor (lib: Lib)
      ensures this.lib == lib && log == []
    {
      this.lib := lib;
      log := [];
    }

    method Execute(call: Option<Call>, w: Weather) returns (r: Result<int>)
      requires w.snapshot <= log
      modifies this
      ensures (log, r) == Execution(lib, old(log), call, w)
    {
      if w.fault.Down? {
        return Err(w.fault.error);
      }
      if call.None? {
        return Err(lib.badCast);
      }
      var rows := Evaluate(call.value, Rows(w.snapshot));
      var clashes := Violations(rows, Rows(log));
      if rows.outbox == [] {
        r := Ok(0);
      } else if clashes != {} {
        r := Err(lib.report(w.choose(clashes)));
      } else {
        log := log + [Entry(call.value, rows)];
        r := Ok(|rows.outbox|);
      }
      if w.fault.AckLost? {
        r := Err(w.fault.error);
      }
    }

    method QueryView(id: string, snapshot: Log, fault: Option<Error>) returns (r: Result<Option<OrderView>>)
      requires snapshot <= log
      ensures r == Viewed(lib, id, snapshot, fault)
    {
      if fault.Some? {
        return Err(fault.value);
      }
      var order := lib.uuids.cast(id);
      if order.None? {
        return Err(lib.badCast);
      }
      var rows := ViewRows(lib.uuids, Rows(snapshot), order.value);
      r := Ok(if rows == [] then None else Some(rows[0]));
    }
  }

  function Viewed(lib: Lib, id: string, snapshot: Log, fault: Option<Error>): Result<Option<OrderView>> {
    if fault.Some? then Err(fault.value)
    else
      match lib.uuids.cast(id)
      case None => Err(lib.badCast)
      case Some(order) =>
        var rows := ViewRows(lib.uuids, Rows(snapshot), order);
        Ok(if rows == [] then None else Some(rows[0]))
  }

  // ----- internal/orders/repository.go ---------------------------------------------

  datatype RequestedInput = RequestedInput(
    id: string, rider: string, trip: Trip, statusHistoryId: string, outboxId: string,
    payload: Value, eventType: string)

  // A payload field before the service fills it in.
  const NO_PAYLOAD := Null

  datatype Order = Order(id: string, rider: string, trip: Trip)

  // The ::uuid casts of requestedSQL; created_at is the column's default.
  function CreateCallOf(uuids: UuidText, input: RequestedInput, now: int): Option<Call> {
    var order, rider := uuids.cast(input.id), uuids.cast(input.rider);
    var history, outbox := uuids.cast(input.statusHistoryId), uuids.cast(input.outboxId);
    if order.None? || rider.None? || history.None? || outbox.None? then None
    else Some(Create(CreateCall(order.value, rider.value, input.trip, now,
                                history.value, outbox.value, input.payload, input.eventType)))
  }

  function RequestedResult(lib: Lib, log: Log, input: RequestedInput, w: Weather): (Log, Result<Order>) {
    var (after, rows) := Execution(lib, log, CreateCallOf(lib.uuids, input, w.now), w);
    (after, match rows
            case Err(e) => Err(e)
            case Ok(_) => Ok(Order(input.id, input.rider, input.trip)))
  }

  /** What a read found is the order's state in its snapshot; nothing found means no order there. */
  ghost predicate TrueOf(lib: Lib, snapshot: Log, id: string, found: Option<OrderView>) {
    var order, m := lib.uuids.cast(id), LedgerOf(snapshot);
    && order.Some?
    && if order.value in m
       then && found.Some? && Shows(lib.uuids, found.value, m[order.value].create)
            && found.value.status == (if m[order.value].Accepted? then "accepted" else "requested")
       else found.None?
  }

  class OrdersRepository {
    const db: DB

    constructor (db: DB)
      ensures this.db == db
    {
      this.db := db;
    }

    method Requested(input: RequestedInput, w: Weather) returns (r: Result<Order>)
      requires w.snapshot <= db.log
      modifies db
      ensures (db.log, r) == RequestedResult(db.lib, old(db.log), input, w)
      ensures OnlySuccessWrites(old(db.log), db.log, CreateCallOf(db.lib.uuids, input, w.now), r, w)
    {
      var rows := db.Execute(CreateCallOf(db.lib.uuids, input, w.now), w);
      if rows.Err? {
        return Err(rows.error);
      }
      return Ok(Order(input.id, input.rider, input.trip));
    }

    method Get(id: string, snapshot: Log, fault: Option<Error>) returns (r: Result<Option<OrderView>>)
      requires snapshot <= db.log
      ensures r == Viewed(db.lib, id, snapshot, fault)
      ensures Serialised(snapshot) && r.Ok? ==> TrueOf(db.lib, snapshot, id, r.value)
    {
      r := db.QueryView(id, snapshot, fault);
      if Serialised(snapshot) && r.Ok? {
        ViewOfOrder(db.lib.uuids, snapshot, db.lib.uuids.cast(id).value);
      }
    }
  }

  // ----- internal/drivers/repository.go ----------------------------------------------

  datatype AcceptedInput = AcceptedInput(
    orderId: string, driverId: string, acceptanceId: string, statusHistoryId: string, outboxId: string,
    payload: Value, eventType: string)

  // The ::uuid casts of acceptedSQL.
  function AcceptCallOf(uuids: UuidText, input: AcceptedInput): Option<Call> {
    var acceptance, order := uuids.cast(input.acceptanceId), uuids.cast(input.orderId);
    var driver := uuids.cast(input.driverId);
    var history, outbox := uuids.cast(input.statusHistoryId), uuids.cast(input.outboxId);
    if acceptance.None? || order.None? || driver.None? || history.None? || outbox.None? then None
    else Some(Accept(AcceptCall(acceptance.value, order.value, driver.value,
                                history.value, outbox.value, input.payload, input.eventType)))
  }

  function NotAcceptable(): Error {
    NewError(409, "ORDER_NOT_ACCEPTABLE", "order is not in the requested state")
  }

  function AcceptedResult(lib: Lib, log: Log, input: AcceptedInput, w: Weather): (Log, Result<string>) {
    var (after, rows) := Execution(lib, log, AcceptCallOf(lib.uuids, input), w);
    (after, match rows
            case Err(e) => Err(e)
            case Ok(n) => if n == 0 then Err(NotAcceptable()) else Ok(input.orderId))
  }

  class DriversRepository {
    const db: DB

    constructor (db: DB)
      ensures this.db == db
    {
      this.db := db;
    }

    method Accepted(input: AcceptedInput, w: Weather) returns (r: Result<string>)
      requires w.snapshot <= db.log
      modifies db
      ensures (db.log, r) == AcceptedResult(db.lib, old(db.log), input, w)
      ensures OnlySuccessWrites(old(db.log), db.log, AcceptCallOf(db.lib.uuids, input), r, w)
      ensures var call := AcceptCallOf(db.lib.uuids, input);
              w.fault.Up? && call.Some? && !Guard(Rows(w.snapshot), call.value.Order()) ==>
                r == Err(Http(409, "ORDER_NOT_ACCEPTABLE", "order is not in the requested state", None))
    {
      var rows := db.Execute(AcceptCallOf(db.lib.uuids, input), w);
      if rows.Err? {
        return Err(rows.error);
      }
      if rows.value == 0 {
        return Err(NotAcceptable());
      }
      return Ok(input.orderId);
    }
  }

  // ----- A database call is a statement of the protocol --------------------------------

  // The statement `stmt` of a run ends under weather w.
  ghost predicate Ends(s: State, stmt: nat, w: Weather) {
    InFlight(s, stmt) && w.snapshot == s.begun[stmt].snapshot && Picks(w)
  }

  function EventOf(s: State, stmt: nat, w: Weather): Event
    requires stmt in s.begun
  {
    if w.fault.Down? then Abort(stmt)
    else
      var a := AttemptOf(s, stmt);
      Finish(stmt, if a.Clash? then w.choose(a.keys) else OrdersPkey)
  }

  /** The log a call leaves and the answer it returns are those of the protocol's step. */
  lemma ExecutionIsAStep(lib: Lib, s: State, stmt: nat, w: Weather)
    requires Ends(s, stmt, w)
    ensures Enabled(s, EventOf(s, stmt, w))
    ensures var s' := Step(s, EventOf(s, stmt, w));
            var (after, answer) := Execution(lib, s.log, Some(s.begun[stmt].call), w);
            && after == s'.log
            && (w.fault.Up? ==>
                  match s'.done[stmt].outcome
                  case Applied => answer == Ok(1)
                  case ZeroRows => answer == Ok(0)
                  case Violated(key) => answer == Err(lib.report(key))
                  case Aborted => false)
            && (!w.fault.Up? ==> answer == Err(w.fault.error))
  {
    var a := AttemptOf(s, stmt);
    if a.Clash? {
      assert w.choose(a.keys) in a.keys;
    }
    if a.Write? {
      assert |a.rows.outbox| == 1;
    }
  }
}
