/** internal/drivers/service.go: accepting an order, with the early check through the cache. */
module Drivers {
  import opened Wrappers
  import opened Uuids
  import opened Json
  import opened Tables
  import opened Ledger
  import opened Queries
  import opened Errors
  import opened Repositories
  import opened StaleReads
  import opened TraceContext
  import opened Replay
  import opened Orders
  import Events
  import R = Rfc9562
  import T = Telemetry

  /** The surroundings of one accept: its span, the clock, the cached read and the database's weather. */
  datatype AcceptRequest = AcceptRequest(carrier: Carrier, now: int, reading: Reading, weather: Weather)

  function AcceptedAlready(): Error {
    NewError(409, "ORDER_ALREADY_ACCEPTED", "order has already been accepted")
  }

  /** The input as it reaches the repository. */
  function PreparedAccept(topic: string, input: AcceptedInput, rq: AcceptRequest): AcceptedInput {
    var event := Events.OrderAccepted(input.outboxId, 1, rq.now, input.orderId, input.driverId);
    input.(payload := PayloadOf(rq.carrier, event), eventType := topic)
  }

  // Type assertions, not errors.As: only the error itself is looked at.
  function ClassifyAccepted(e: Error): Error {
    if e.Http? && e.code == "ORDER_NOT_ACCEPTABLE" then NotAcceptable()
    else if e.Pg? && e.sqlState == UNIQUE_VIOLATION && e.constraint == "uq_order_acceptances_order" then
      AcceptedAlready()
    else e
  }

  /** `read` is what the cached reader returned, None when the service has no reader. */
  function AcceptReply(
    lib: Lib, log: Log, topic: string, input: AcceptedInput, read: Option<Result<OrderView>>, rq: AcceptRequest)
    : (Log, Result<string>)
  {
    if !lib.uuids.valid(input.orderId) then (log, Err(ValidationError("order_id", "must be a UUID")))
    else if !lib.uuids.valid(input.driverId) then (log, Err(ValidationError("driver_id", "must be a UUID")))
    else if read.Some? && read.value.Ok? && read.value.value.status != "requested" then (log, Err(NotAcceptable()))
    else
      var (after, r) := AcceptedResult(lib, log, PreparedAccept(topic, input, rq), rq.weather);
      (after, match r
              case Err(e) => Err(ClassifyAccepted(e))
              case Ok(id) => Ok(id))
  }

  class Service {
    const repository: DriversRepository
    const orders: Orders.Service?
    const tel: T.Telemetry?
    const topic: string

    constructor (tel: T.Telemetry?, repository: DriversRepository, reader: Orders.Service?, topic: string)
      ensures this.tel == tel && this.repository == repository && this.orders == reader && this.topic == topic
    {
      this.tel := tel;
      this.repository := repository;
      this.orders := reader;
      this.topic := topic;
    }

    // The reader and the repository share one database.
    ghost predicate Wired() {
      orders != null ==> orders.repository.db == repository.db
    }

    ghost predicate Ready(input: AcceptedInput, rq: AcceptRequest)
      reads repository.db, if orders == null || orders.cache == null then {} else {orders.cache}
    {
      && Wired()
      && rq.weather.snapshot <= repository.db.log
      && rq.reading.snapshot <= repository.db.log
      && (orders != null && orders.cache != null ==>
            orders.cache.CanServe(CacheKey(input.orderId), rq.reading.answer))
    }

    // What the reader answers, if there is one.
    function Read(input: AcceptedInput, rq: AcceptRequest): Option<Result<OrderView>> {
      if orders == null then None
      else Some(GetResult(orders.repository.db.lib, orders.cache != null, input.orderId, rq.reading))
    }

    method DoAccepted(input: AcceptedInput, rq: AcceptRequest) returns (r: Result<string>)
      requires Ready(input, rq)
      modifies repository.db, if orders == null || orders.cache == null then {} else {orders.cache}
      ensures (repository.db.log, r) ==
              AcceptReply(repository.db.lib, old(repository.db.log), topic, input, Read(input, rq), rq)
      ensures OnlySuccessWrites(old(repository.db.log), repository.db.log,
                                IssuedCall(repository.db.lib, topic, input, rq), r, rq.weather)
    {
      var uuids := repository.db.lib.uuids;
      var prepared := input;
      if !uuids.valid(prepared.orderId) {
        return Err(ValidationError("order_id", "must be a UUID"));
      }
      if !uuids.valid(prepared.driverId) {
        return Err(ValidationError("driver_id", "must be a UUID"));
      }
      if orders != null {
        var view := orders.Get(prepared.orderId, rq.reading);
        if view.Ok? && view.value.status != "requested" {
          return Err(NotAcceptable());
        }
      }
      var event := Events.OrderAccepted(prepared.outboxId, 1, rq.now, prepared.orderId, prepared.driverId);
      var payload := InjectTraceContext(rq.carrier, JsonText(Events.Marshal(event)));
      prepared := prepared.(payload := payload.value);
      prepared := prepared.(eventType := topic);
      assert prepared == PreparedAccept(topic, input, rq);
      var order := repository.Accepted(prepared, rq.weather);
      if order.Err? {
        var e := order.error;
        if e.Http? && e.code == "ORDER_NOT_ACCEPTABLE" {
          return Err(NotAcceptable());
        }
        if e.Pg? && e.sqlState == UNIQUE_VIOLATION && e.constraint == "uq_order_acceptances_order" {
          return Err(AcceptedAlready());
        }
        return Err(e);
      }
      r := order;
    }

    /** With or without telemetry the caller gets the same answer; a job fails iff the answer is an error
        that is not a 4xx. */
    method Accepted(input: AcceptedInput, rq: AcceptRequest) returns (r: Result<string>)
      requires Ready(input, rq)
      modifies repository.db, if orders == null || orders.cache == null then {} else {orders.cache}
      modifies if tel == null then {} else {tel}
      ensures (repository.db.log, r) ==
              AcceptReply(repository.db.lib, old(repository.db.log), topic, input, Read(input, rq), rq)
      ensures OnlySuccessWrites(old(repository.db.log), repository.db.log,
                                IssuedCall(repository.db.lib, topic, input, rq), r, rq.weather)
      ensures tel != null ==> tel.jobs == old(tel.jobs) + [JobOf("drivers.accepted", r)]
    {
      r := DoAccepted(input, rq);
      if tel != null {
        var err := if r.Err? then Some(r.error) else None;
        var workErr := tel.WorkerContext("drivers.accepted", T.JobError(err));
        if err.None? {
          err := workErr;
        }
        r := if err.Some? then Err(err.value) else r;
      }
    }
  }

  /** The two conflicts a driver can be answered, and that they are two. */
  lemma TwoConflicts()
    ensures NotAcceptable() == Http(409, "ORDER_NOT_ACCEPTABLE", "order is not in the requested state", None)
    ensures AcceptedAlready() == Http(409, "ORDER_ALREADY_ACCEPTED", "order has already been accepted", None)
    ensures NotAcceptable().code != AcceptedAlready().code
  {
    assert |NotAcceptable().code| != |AcceptedAlready().code|;
  }

  /** Which errors of the repository become which conflict: only the error itself is looked at, never its causes. */
  lemma ConflictsExactly(e: Error)
    ensures ClassifyAccepted(e) ==
            if e.Http? && e.code == "ORDER_NOT_ACCEPTABLE"
            then Http(409, "ORDER_NOT_ACCEPTABLE", "order is not in the requested state", None)
            else if e.Pg? && e.sqlState == "23505" && e.constraint == "uq_order_acceptances_order"
            then Http(409, "ORDER_ALREADY_ACCEPTED", "order has already been accepted", None)
            else e
  {
  }

  /** An accept that does not reach the database: bad ids, or a view that is no longer "requested". */
  lemma AnswersBeforeTheStatement(
    lib: Lib, log: Log, topic: string, input: AcceptedInput, read: Option<Result<OrderView>>, rq: AcceptRequest)
    ensures var (after, r) := AcceptReply(lib, log, topic, input, read, rq);
            if !lib.uuids.valid(input.orderId) || !lib.uuids.valid(input.driverId) then
              after == log && r.Err? && Says(r.error, 400, "VALIDATION_ERROR")
            else if read.Some? && read.value.Ok? && read.value.value.status != "requested" then
              after == log && r.Err? && Says(r.error, 409, "ORDER_NOT_ACCEPTABLE")
            else
              (after, r) == AcceptReply(lib, log, topic, input, None, rq)
  {
  }

  /** A failing connection: its error is classified like any other, and only a lost answer leaves a write behind. */
  lemma AcceptOverFailingConnection(lib: Lib, log: Log, topic: string, input: AcceptedInput, rq: AcceptRequest)
    requires !rq.weather.fault.Up? && lib.uuids.valid(input.orderId) && lib.uuids.valid(input.driverId)
    requires IssuedCall(lib, topic, input, rq).Some?
    ensures var (after, r) := AcceptReply(lib, log, topic, input, None, rq);
            var calm := AcceptReply(lib, log, topic, input, None, rq.(weather := rq.weather.(fault := Up)));
            && r == Err(ClassifyAccepted(rq.weather.fault.error))
            && after == (if rq.weather.fault.Down? then log else calm.0)
  {
  }

  // ----- What the answers mean -----------------------------------------------------------

  // The statement an accept issues, when all of its ids are uuids to PostgreSQL.
  function IssuedCall(lib: Lib, topic: string, input: AcceptedInput, rq: AcceptRequest): Option<Call> {
    AcceptCallOf(lib.uuids, PreparedAccept(topic, input, rq))
  }

  // What the reader returned stops the accept before the database.
  predicate Stops(read: Result<OrderView>) {
    read.Ok? && read.value.status != "requested"
  }

  // The same request with its statement, if any, taken at this moment over a working connection.
  function AtOnce(log: Log, rq: AcceptRequest): AcceptRequest {
    rq.(weather := rq.weather.(snapshot := log, fault := Up))
  }

  /**
   Whatever the reader answers, from the cache or not, old or new, a view or a failure: the
   reply is the one the service without a reader gives, either from the same statement or,
   when the request stopped early, from a statement that takes its snapshot now. It is so
   exactly for the requests that do not stop early, that name a driver uuid.Parse refuses,
   or whose ids PostgreSQL casts; the others are those of `ReaderHidesTheCast`.
   */
  lemma ReaderChangesNoAnswer(
    lib: Lib, log: Log, topic: string, input: AcceptedInput, cached: bool, rq: AcceptRequest)
    requires IsCastFailure(lib.badCast)
    requires Serialised(log) && Readable(lib, log, input.orderId, cached, rq.reading)
    ensures var read := GetResult(lib, cached, input.orderId, rq.reading);
            AcceptReply(lib, log, topic, input, Some(read), rq) ==
            AcceptReply(lib, log, topic, input, None, if Stops(read) then AtOnce(log, rq) else rq)
            <==>
            !Stops(read) || !lib.uuids.valid(input.driverId) || IssuedCall(lib, topic, input, rq).Some?
  {
    var read := GetResult(lib, cached, input.orderId, rq.reading);
    if Stops(read) && lib.uuids.valid(input.driverId) {
      if IssuedCall(lib, topic, input, rq).Some? {
        var n := ReadViewsWereTrue(lib, log, input.orderId, cached, rq.reading);
        OldViewAndNow(lib.uuids, log, n, input.orderId, read.value);
        RefusedByGuard(lib, log, topic, input, AtOnce(log, rq));
      } else {
        ReaderHidesTheCast(lib, log, topic, input, cached, rq);
      }
    }
  }

  /** A request that stops early never learns that a cast would have failed: 409 with the reader, 500 without. */
  lemma ReaderHidesTheCast(
    lib: Lib, log: Log, topic: string, input: AcceptedInput, cached: bool, rq: AcceptRequest)
    requires IsCastFailure(lib.badCast)
    requires lib.uuids.valid(input.driverId) && IssuedCall(lib, topic, input, rq).None?
    requires Stops(GetResult(lib, cached, input.orderId, rq.reading))
    ensures var read := GetResult(lib, cached, input.orderId, rq.reading);
            && AcceptReply(lib, log, topic, input, Some(read), rq) == (log, Err(NotAcceptable()))
            && AcceptReply(lib, log, topic, input, None, AtOnce(log, rq)) == (log, Err(lib.badCast))
            && AbortStatus(Some(lib.badCast)) == 500
            && Says(NotAcceptable(), 409, "ORDER_NOT_ACCEPTABLE")
  {
    CastFailureIsNone(lib.badCast);
  }

  /** In every run over the adversarial cache, at every point of it and for every accept. */
  lemma ReaderChangesNoAnswerInAnyRun(
    lib: Lib, moves: seq<Move>, topic: string, input: AcceptedInput, cached: bool, rq: AcceptRequest)
    requires IsCastFailure(lib.badCast) && Possible(lib.uuids, moves)
    requires ReadsDuring(lib, moves, input.orderId, cached, rq.reading)
    ensures var log := Reached(lib.uuids, moves).store.log;
            var read := GetResult(lib, cached, input.orderId, rq.reading);
            AcceptReply(lib, log, topic, input, Some(read), rq) ==
            AcceptReply(lib, log, topic, input, None, if Stops(read) then AtOnce(log, rq) else rq)
            <==>
            !Stops(read) || !lib.uuids.valid(input.driverId) || IssuedCall(lib, topic, input, rq).Some?
  {
    RunsAreReadable(lib, moves, input.orderId, cached, rq.reading);
    ReaderChangesNoAnswer(lib, Reached(lib.uuids, moves).store.log, topic, input, cached, rq);
  }

  // The cache serves the order as it was accepted.
  function AcceptedReading(lib: Lib, c: CreateCall, a: AcceptCall): Reading {
    Reading([], None, Hit(ViewOfState(lib.uuids, Accepted(c, a))))
  }

  lemma AcceptedViewIsReadable(lib: Lib, c: CreateCall, a: AcceptCall, id: string)
    requires a.order == c.order && lib.uuids.cast(id) == Some(c.order)
    ensures Serialised(AcceptedLog(c, a)) && Readable(lib, AcceptedLog(c, a), id, true, AcceptedReading(lib, c, a))
    ensures AcceptedReading(lib, c, a).answer.view.status != "requested"
  {
    var log, rd := AcceptedLog(c, a), AcceptedReading(lib, c, a);
    ShortLogs(c, a);
    ViewOfOrder(lib.uuids, log, c.order);
    assert log[..2] == log;
    assert WasTrue(lib.uuids, log, 2, id, rd.answer.view);
    assert |"accepted"| != |"requested"|;
  }

  // The accept `b`, its driver spelled as a URN.
  function UrnInput(b: AcceptCall): AcceptedInput {
    AcceptedInput(R.Text(b.order), R.Urn(b.driver), R.Text(b.acceptanceId), R.Text(b.historyId), R.Text(b.outboxId),
                  NO_PAYLOAD, "")
  }

  // On this log and reading the reader changes the answer.
  ghost predicate ReaderMatters(lib: Lib, log: Log, topic: string, input: AcceptedInput, rq: AcceptRequest) {
    var read := GetResult(lib, true, input.orderId, rq.reading);
    && Serialised(log) && Readable(lib, log, input.orderId, true, rq.reading)
    && AcceptReply(lib, log, topic, input, Some(read), rq) == (log, Err(NotAcceptable()))
    && AcceptReply(lib, log, topic, input, None, AtOnce(log, rq)) == (log, Err(lib.badCast))
    && Says(NotAcceptable(), 409, "ORDER_NOT_ACCEPTABLE") && AbortStatus(Some(lib.badCast)) == 500
  }

  lemma UncastDriverMatters(
    lib: Lib, topic: string, c: CreateCall, a: AcceptCall, input: AcceptedInput, rq: AcceptRequest)
    requires IsCastFailure(lib.badCast) && a.order == c.order
    requires lib.uuids.valid(input.orderId) && lib.uuids.cast(input.orderId) == Some(c.order)
    requires lib.uuids.valid(input.driverId) && lib.uuids.cast(input.driverId) == None
    ensures ReaderMatters(lib, AcceptedLog(c, a), topic, input, rq.(reading := AcceptedReading(lib, c, a)))
  {
    AcceptedViewIsReadable(lib, c, a, input.orderId);
    ReaderHidesTheCast(lib, AcceptedLog(c, a), topic, input, true, rq.(reading := AcceptedReading(lib, c, a)));
  }

  lemma UrnInputCasts(lib: Lib, b: AcceptCall)
    requires lib.uuids == R.LENIENT
    ensures lib.uuids.valid(UrnInput(b).orderId) && lib.uuids.cast(UrnInput(b).orderId) == Some(b.order)
    ensures lib.uuids.valid(UrnInput(b).driverId) && lib.uuids.cast(UrnInput(b).driverId) == None
  {
    R.CastOfText(b.order);
    R.UrnIsNoCast(b.driver);
  }

  /** A request the reader changes: a driver in URN form and a cached view of the order after its acceptance. */
  lemma UrnDriverIsAnsweredDifferently(
    lib: Lib, topic: string, c: CreateCall, a: AcceptCall, b: AcceptCall, rq: AcceptRequest)
    requires lib.uuids == R.LENIENT && lib.badCast.Plain?
    requires a.order == c.order && b.order == c.order
    ensures ReaderMatters(lib, AcceptedLog(c, a), topic, UrnInput(b), rq.(reading := AcceptedReading(lib, c, a)))
  {
    UrnInputCasts(lib, b);
    PlainIsCastFailure(lib.badCast);
    UncastDriverMatters(lib, topic, c, a, UrnInput(b), rq);
  }

  lemma RefusedByGuard(lib: Lib, log: Log, topic: string, input: AcceptedInput, rq: AcceptRequest)
    requires Serialised(log) && rq.weather.snapshot == log && rq.weather.fault.Up?
    requires lib.uuids.valid(input.orderId) && lib.uuids.valid(input.driverId)
    requires IssuedCall(lib, topic, input, rq).Some?
    requires !Decide(LedgerOf(log), IssuedCall(lib, topic, input, rq).value).Done?
    ensures AcceptReply(lib, log, topic, input, None, rq) == (log, Err(NotAcceptable()))
  {
    EvaluatedRows(log, IssuedCall(lib, topic, input, rq).value);
    ReplyByAttempt(lib, log, topic, input, rq);
  }

  /** An accept prepared by the service announces itself in its payload. */
  lemma AcceptAnnouncesItself(
    uuids: UuidText, topic: string, input: AcceptedInput, rq: AcceptRequest,
    acceptance: Uuid, history: Uuid, outbox: Uuid)
    requires Lawful(uuids) && input.acceptanceId == uuids.text(acceptance)
    requires input.statusHistoryId == uuids.text(history) && input.outboxId == uuids.text(outbox)
    ensures var call := AcceptCallOf(uuids, PreparedAccept(topic, input, rq));
            && (call.Some? <==> uuids.cast(input.orderId).Some? && uuids.cast(input.driverId).Some?)
            && (call.Some? ==>
                  && Announces(uuids, call.value)
                  && call.value.accept.acceptanceId == acceptance
                  && call.value.accept.historyId == history && call.value.accept.outboxId == outbox
                  && call.value.accept.eventType == topic
                  && Carries(call.value.accept.payload, rq.carrier,
                             map["eventId" := Str(uuids.text(outbox)), "eventVersion" := Num(1.0),
                                 "occurredAt" := Num(rq.now as real),
                                 "orderId" := Str(input.orderId), "driverId" := Str(input.driverId)]))
  {
    KeyIsReserved();
    var event := Events.OrderAccepted(input.outboxId, 1, rq.now, input.orderId, input.driverId);
    assert uuids.cast(uuids.text(acceptance)) == Some(acceptance);
    assert uuids.cast(uuids.text(history)) == Some(history);
    assert uuids.cast(uuids.text(outbox)) == Some(outbox);
    InjectionKeepsEvent(rq.carrier, event);
  }

  // An accept that reached the database without a fault, from an old snapshot of a serialised log.
  ghost predicate Reaches(lib: Lib, log: Log, topic: string, input: AcceptedInput, rq: AcceptRequest) {
    && Faithful(lib) && Picks(rq.weather) && rq.weather.fault.Up?
    && Serialised(log) && rq.weather.snapshot <= log
    && lib.uuids.valid(input.orderId) && lib.uuids.valid(input.driverId)
    && IssuedCall(lib, topic, input, rq).Some?
    && IssuedCall(lib, topic, input, rq).value.Generated() !! LogIds(log)
  }

  // The error PostgreSQL reports is not wrapped and names the acceptance key.
  predicate NamesAcceptanceKey(lib: Lib, key: UniqueKey) {
    lib.report(key).Pg? && key == AcceptancesOrderKey
  }

  function ReplyOf(lib: Lib, log: Log, id: string, call: Call, a: Attempt, w: Weather): (Log, Result<string>) {
    match a
    case NoRows => (log, Err(NotAcceptable()))
    case Clash(keys) => (log, Err(ClassifyAccepted(lib.report(w.choose(keys)))))
    case Write(rows) => (log + [Entry(call, rows)], Ok(id))
  }

  lemma ReplyByAttempt(lib: Lib, log: Log, topic: string, input: AcceptedInput, rq: AcceptRequest)
    requires lib.uuids.valid(input.orderId) && lib.uuids.valid(input.driverId)
    requires rq.weather.fault.Up? && IssuedCall(lib, topic, input, rq).Some?
    ensures var call := IssuedCall(lib, topic, input, rq).value;
            AcceptReply(lib, log, topic, input, None, rq) ==
            ReplyOf(lib, log, input.orderId, call, Try(call, Rows(rq.weather.snapshot), Rows(log)), rq.weather)
  {
  }

  lemma ReportedKey(lib: Lib, key: UniqueKey)
    requires Faithful(lib) && key in {AcceptancesOrderKey, HistoryOrderSequenceKey}
    ensures var e := lib.report(key);
            && ClassifyAccepted(e) == (if NamesAcceptanceKey(lib, key) then AcceptedAlready() else e)
            && AbortStatus(Some(e)) == 500
  {
    ReportedIsFound(lib.report(key), key);
    assert "uq_order_acceptances_order" != "order_status_history_order_id_sequence_key" by {
      assert |"uq_order_acceptances_order"| != |"order_status_history_order_id_sequence_key"|;
    }
  }

  // The violation a lost race reports.
  lemma LostRaceKey(lib: Lib, w: Weather)
    requires Faithful(lib) && Picks(w)
    ensures var key := w.choose({AcceptancesOrderKey, HistoryOrderSequenceKey});
            var answer := ClassifyAccepted(lib.report(key));
            && (Says(answer, 409, "ORDER_ALREADY_ACCEPTED") <==> NamesAcceptanceKey(lib, key))
            && (answer == AcceptedAlready() <==> NamesAcceptanceKey(lib, key))
            && (!NamesAcceptanceKey(lib, key) ==> AbortStatus(Some(answer)) == 500)
  {
    var keys := {AcceptancesOrderKey, HistoryOrderSequenceKey};
    assert AcceptancesOrderKey in keys;
    ReportedKey(lib, w.choose(keys));
    assert AbortStatus(Some(AcceptedAlready())) == 409;
  }

  /**
   Every answer of an accept that reached the database, by the order's state in the
   snapshot and now. A lost race is 409 ORDER_ALREADY_ACCEPTED exactly when the driver
   returns the violation unwrapped and it names the acceptance key; otherwise it is an
   internal error. Nothing is written unless the answer is success.
   */
  lemma AnswersOfAccept(lib: Lib, log: Log, topic: string, input: AcceptedInput, rq: AcceptRequest)
    requires Reaches(lib, log, topic, input, rq)
    ensures var call := IssuedCall(lib, topic, input, rq).value;
            var was, now := Decide(LedgerOf(rq.weather.snapshot), call), Decide(LedgerOf(log), call);
            var key := rq.weather.choose({AcceptancesOrderKey, HistoryOrderSequenceKey});
            var (after, r) := AcceptReply(lib, log, topic, input, None, rq);
            && (r.Ok? <==> was.Done? && now.Done?)
            && (r.Ok? ==> r.value == input.orderId && Serialised(after)
                          && after == log + [Entry(call, SerialRows(call))])
            && (r.Err? ==> after == log)
            && (!was.Done? ==> r.Err? && Says(r.error, 409, "ORDER_NOT_ACCEPTABLE"))
            && (was.Done? && !now.Done? ==>
                  && now.AlreadyAccepted?
                  && (Says(r.error, 409, "ORDER_ALREADY_ACCEPTED") <==> NamesAcceptanceKey(lib, key))
                  && (!NamesAcceptanceKey(lib, key) ==> AbortStatus(Some(r.error)) == 500))
  {
    var call := IssuedCall(lib, topic, input, rq).value;
    TryByLedger(log, rq.weather.snapshot, call);
    ReplyByAttempt(lib, log, topic, input, rq);
    RowsOfPush(log, Entry(call, SerialRows(call)));
    LostRaceKey(lib, rq.weather);
  }
}
