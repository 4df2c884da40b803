/** internal/orders/service.go: reading through the cache and requesting a ride. */
module Orders {
  import opened Wrappers
  import opened Uuids
  import opened Json
  import opened Tables
  import opened Ledger
  import opened Queries
  import opened Guarantees
  import opened Errors
  import opened Repositories
  import opened StaleReads
  import opened TraceContext
  import opened Replay
  import Events
  import P = Protocol
  import T = Telemetry

  // ----- Get -------------------------------------------------------------------

  function NotFound(): Error {
    NewError(404, "ORDER_NOT_FOUND", "order not found")
  }

  /** The cache hands a failed load on as it is, wrapped by fmt.Errorf with %w, or flattened to its string. */
  datatype Relay = Same | Prefixed(prefix: string) | Flattened

  function Relayed(relay: Relay, e: Error): Error {
    match relay
    case Same => e
    case Prefixed(prefix) => Wrapped(prefix, e)
    case Flattened => Plain(Text(e))
  }

  /**
   What the cache does with one read: serve a view, rest the answer on a load (its own
   or one already in flight for the key), or fail by itself.
   */
  datatype CacheAnswer = Hit(view: OrderView) | Miss(relay: Relay) | Broken(error: Error)

  // `snapshot` and `fault` are those of the load the answer rests on.
  datatype Reading = Reading(snapshot: Log, fault: Option<Error>, answer: CacheAnswer)

  function LoadResult(lib: Lib, id: string, rd: Reading): Result<OrderView> {
    match Viewed(lib, id, rd.snapshot, rd.fault)
    case Err(e) => Err(e)
    case Ok(found) => if found.None? then Err(NotFound()) else Ok(found.value)
  }

  function Restored(e: Error): Error {
    if HasCode(Some(e), "ORDER_NOT_FOUND") then NotFound() else e
  }

  function GetResult(lib: Lib, cached: bool, id: string, rd: Reading): Result<OrderView> {
    if !lib.uuids.valid(id) then Err(ValidationError("order_id", "must be a UUID"))
    else if !cached then LoadResult(lib, id, rd)
    else
      match rd.answer
      case Hit(view) => Ok(view)
      case Broken(e) => Err(Restored(e))
      case Miss(relay) =>
        match LoadResult(lib, id, rd)
        case Ok(view) => Ok(view)
        case Err(e) => Err(Restored(Relayed(relay, e)))
  }

  /** Every view ever loaded under each key; any of them may be served again. */
  class ViewCache {
    var loaded: Views

    constructor ()
      ensures loaded == map[]
    {
      loaded := map[];
    }

    ghost predicate CanServe(key: string, answer: CacheAnswer)
      reads this
    {
      answer.Hit? ==> key in loaded && answer.view in loaded[key]
    }
  }

  /** Only a load that found the order is remembered: a 404 is not cached. */
  function LoadedAfter(loaded: Views, id: string, answer: CacheAnswer, r: Result<OrderView>): Views
  {
    if answer.Miss? && r.Ok? then Remember(loaded, CacheKey(id), r.value) else loaded
  }

  // ----- Requested ----------------------------------------------------------------

  datatype OrderOutput = OrderOutput(id: string, rider: string, trip: Trip)

  /** The surroundings of one request: its span, the clock, uuid.New and the database's weather. */
  datatype Request = Request(carrier: Carrier, now: int, historyId: Uuid, outboxId: Uuid, weather: Weather)

  // unicode.IsSpace, for strings.TrimSpace
  predicate IsSpace(c: char) {
    c in "\t\n\U{0B}\U{0C}\r \U{85}\U{A0}\U{1680}\U{2028}\U{2029}\U{202F}\U{205F}\U{3000}"
    || '\U{2000}' <= c <= '\U{200A}'
  }

  predicate Blank(s: string) {
    forall c :: c in s ==> IsSpace(c)
  }

  // strings.TrimSpace
  function TrimSpace(s: string): (trimmed: string)
    ensures trimmed == "" <==> Blank(s)
  {
    if s == "" then s
    else if IsSpace(s[0]) then
      assert s == [s[0]] + s[1..];
      TrimSpace(s[1..])
    else if IsSpace(s[|s| - 1]) then
      assert s == s[..|s| - 1] + [s[|s| - 1]];
      TrimSpace(s[..|s| - 1])
    else s
  }

  /** The white space of Unicode, by code point. */
  lemma SpacesByCodePoint(c: char)
    ensures IsSpace(c) <==>
            c as int in {0x09, 0x0A, 0x0B, 0x0C, 0x0D, 0x20, 0x85, 0xA0, 0x1680, 0x2028, 0x2029, 0x202F, 0x205F, 0x3000}
            || 0x2000 <= c as int <= 0x200A
  {
    var spaces := "\t\n\U{0B}\U{0C}\r \U{85}\U{A0}\U{1680}\U{2028}\U{2029}\U{202F}\U{205F}\U{3000}";
    assert c in spaces <==> exists i :: 0 <= i < |spaces| && spaces[i] == c;
  }

  function DefaultId(id: string, generated: string): string {
    if id == "" then generated else id
  }

  /** The input as it reaches the repository. */
  function Prepared(uuids: UuidText, topic: string, input: RequestedInput, rq: Request): RequestedInput {
    var historyId := DefaultId(input.statusHistoryId, uuids.text(rq.historyId));
    var outboxId := DefaultId(input.outboxId, uuids.text(rq.outboxId));
    var event := Events.OrderRequested(outboxId, 1, rq.now, input.id, input.rider, input.trip);
    input.(statusHistoryId := historyId, outboxId := outboxId,
           payload := PayloadOf(rq.carrier, event), eventType := topic)
  }

  function AlreadyExists(): Error {
    NewError(409, "ORDER_ALREADY_EXISTS", "an order with this id already exists")
  }

  predicate IsDuplicateOrder(e: Error)
    requires e.Pg?
  {
    e.sqlState == UNIQUE_VIOLATION &&
    (e.constraint == "orders_pkey" || e.constraint == "order_status_history_order_id_sequence_key")
  }

  function ClassifyRequested(e: Error): Error {
    var pg := AsPg(e);
    if pg.Some? && IsDuplicateOrder(pg.value) then AlreadyExists() else e
  }

  function RequestedReply(lib: Lib, log: Log, topic: string, input: RequestedInput, rq: Request)
    : (Log, Result<OrderOutput>)
  {
    if TrimSpace(input.id) == "" || TrimSpace(input.rider) == "" then
      (log, Err(ValidationError("ride", "id and rider_id are required")))
    else
      var (after, r) := RequestedResult(lib, log, Prepared(lib.uuids, topic, input, rq), rq.weather);
      (after, match r
              case Err(e) => Err(ClassifyRequested(e))
              case Ok(order) => Ok(OrderOutput(order.id, order.rider, order.trip)))
  }

  // A job fails when the caller's answer is an error that is not a 4xx.
  function JobOf<R>(name: string, r: Result<R>): T.Job {
    T.Job(name, r.Err? && !Is4xx(AbortStatus(Some(r.error))))
  }

  class Service {
    const repository: OrdersRepository
    const cache: ViewCache?
    const tel: T.Telemetry?
    const topic: string

    constructor (tel: T.Telemetry?, repository: OrdersRepository, cache: ViewCache?, topic: string)
      ensures this.tel == tel && this.repository == repository && this.cache == cache && this.topic == topic
    {
      this.tel := tel;
      this.repository := repository;
      this.cache := cache;
      this.topic := topic;
    }

    method Load(id: string, rd: Reading) returns (r: Result<OrderView>)
      requires rd.snapshot <= repository.db.log
      ensures r == LoadResult(repository.db.lib, id, rd)
    {
      var found := repository.Get(id, rd.snapshot, rd.fault);
      if found.Err? {
        return Err(found.error);
      }
      if found.value.None? {
        return Err(NotFound());
      }
      return Ok(found.value.value);
    }

    method Get(id: string, rd: Reading) returns (r: Result<OrderView>)
      requires rd.snapshot <= repository.db.log
      requires cache != null ==> cache.CanServe(CacheKey(id), rd.answer)
      modifies if cache == null then {} else {cache}
      ensures r == GetResult(repository.db.lib, cache != null, id, rd)
      ensures cache != null ==> cache.loaded == LoadedAfter(old(cache.loaded), id, rd.answer, r)
    {
      if !repository.db.lib.uuids.valid(id) {
        return Err(ValidationError("order_id", "must be a UUID"));
      }
      if cache == null {
        r := Load(id, rd);
        return;
      }
      match rd.answer {
        case Hit(view) =>
          return Ok(view);
        case Broken(e) =>
          r := Err(e);
        case Miss(relay) =>
          r := Load(id, rd);
          if r.Ok? {
            cache.loaded := Remember(cache.loaded, CacheKey(id), r.value);
            return;
          }
          r := Err(Relayed(relay, r.error));
      }
      if HasCode(Some(r.error), "ORDER_NOT_FOUND") {
        r := Err(NotFound());
      }
    }

    method DoRequested(input: RequestedInput, rq: Request) returns (r: Result<OrderOutput>)
      requires rq.weather.snapshot <= repository.db.log
      modifies repository.db
      ensures (repository.db.log, r) == RequestedReply(repository.db.lib, old(repository.db.log), topic, input, rq)
      ensures OnlySuccessWrites(old(repository.db.log), repository.db.log,
                                IssuedCreate(repository.db.lib, topic, input, rq), r, rq.weather)
    {
      var uuids := repository.db.lib.uuids;
      var prepared := input;
      if TrimSpace(prepared.id) == "" || TrimSpace(prepared.rider) == "" {
        return Err(ValidationError("ride", "id and rider_id are required"));
      }
      if prepared.statusHistoryId == "" {
        prepared := prepared.(statusHistoryId := uuids.text(rq.historyId));
      }
      if prepared.outboxId == "" {
        prepared := prepared.(outboxId := uuids.text(rq.outboxId));
      }
      var event := Events.OrderRequested(prepared.outboxId, 1, rq.now, prepared.id, prepared.rider, prepared.trip);
      var payload := InjectTraceContext(rq.carrier, JsonText(Events.Marshal(event)));
      prepared := prepared.(payload := payload.value);
      prepared := prepared.(eventType := topic);
      assert prepared == Prepared(uuids, topic, input, rq);
      var order := repository.Requested(prepared, rq.weather);
      if order.Err? {
        var pg := AsPg(order.error);
        if pg.Some? && IsDuplicateOrder(pg.value) {
          return Err(AlreadyExists());
        }
        return Err(order.error);
      }
      return Ok(OrderOutput(order.value.id, order.value.rider, order.value.trip));
    }

    /** With or without telemetry the caller gets the same answer; a job fails iff the answer is an error
        that is not a 4xx. */
    method Requested(input: RequestedInput, rq: Request) returns (r: Result<OrderOutput>)
      requires rq.weather.snapshot <= repository.db.log
      modifies repository.db, if tel == null then {} else {tel}
      ensures (repository.db.log, r) == RequestedReply(repository.db.lib, old(repository.db.log), topic, input, rq)
      ensures OnlySuccessWrites(old(repository.db.log), repository.db.log,
                                IssuedCreate(repository.db.lib, topic, input, rq), r, rq.weather)
      ensures tel != null ==> tel.jobs == old(tel.jobs) + [JobOf("orders.requested", r)]
    {
      r := DoRequested(input, rq);
      if tel != null {
        var err := if r.Err? then Some(r.error) else None;
        var workErr := tel.WorkerContext("orders.requested", T.JobError(err));
        if err.None? {
          err := workErr;
        }
        r := if err.Some? then Err(err.value) else r;
      }
    }
  }

  /** Reading through the cache keeps every view in it an old truth. */
  lemma GetKeepsHonesty(lib: Lib, log: Log, loaded: Views, id: string, rd: Reading)
    requires Serialised(log) && rd.snapshot <= log && HonestViews(lib.uuids, log, loaded)
    ensures HonestViews(lib.uuids, log, LoadedAfter(loaded, id, rd.answer, GetResult(lib, true, id, rd)))
  {
    var r, n := GetResult(lib, true, id, rd), |rd.snapshot|;
    if rd.answer.Miss? && r.Ok? {
      assert log[..n] == rd.snapshot;
      PrefixIsSerialised(log, n);
      ViewOfOrder(lib.uuids, rd.snapshot, lib.uuids.cast(id).value);
      LoadKeepsHonesty(lib.uuids, log, n, loaded, id, r.value);
    }
  }

  /** A job fails exactly when the answer is an error whose first *HTTPError, if any, is not a 4xx. */
  lemma JobFailsForServerErrors<R>(name: string, r: Result<R>)
    ensures JobOf(name, r).name == name
    ensures JobOf(name, r).failed <==>
            r.Err? && !exists first :: FirstHttp(r.error, Some(first)) && 400 <= first.status < 500
  {
    if r.Err? {
      ClientErrorsAreThe4xxAnswers(Some(r.error));
    }
  }

  /** A view is stored exactly when its own load found it; a 404 or a failure stores nothing. */
  lemma FoundViewsAreStored(
    lib: Lib, loaded: Views, id: string, rd: Reading, other: string, v: OrderView)
    ensures var r := GetResult(lib, true, id, rd);
            ServableFrom(LoadedAfter(loaded, id, rd.answer, r), other, v) <==>
            ServableFrom(loaded, other, v) || (rd.answer.Miss? && r == Ok(v) && other == id)
  {
    var r := GetResult(lib, true, id, rd);
    if rd.answer.Miss? && r.Ok? {
      RememberedIsServable(loaded, id, r.value, other, v);
    }
  }

  // ----- What the answers mean -------------------------------------------------------

  // A view the reader may return for this id: once true, or read from an earlier state now.
  ghost predicate Readable(lib: Lib, log: Log, id: string, cached: bool, rd: Reading) {
    && rd.snapshot <= log
    && (cached && rd.answer.Hit? ==> exists n: nat :: WasTrue(lib.uuids, log, n, id, rd.answer.view))
  }

  lemma ReadViewsWereTrue(lib: Lib, log: Log, id: string, cached: bool, rd: Reading) returns (n: nat)
    requires Serialised(log) && Readable(lib, log, id, cached, rd) && GetResult(lib, cached, id, rd).Ok?
    ensures WasTrue(lib.uuids, log, n, id, GetResult(lib, cached, id, rd).value)
  {
    if cached && rd.answer.Hit? {
      n :| WasTrue(lib.uuids, log, n, id, rd.answer.view);
    } else {
      n := |rd.snapshot|;
      assert log[..n] == rd.snapshot;
      PrefixIsSerialised(log, n);
      ViewOfOrder(lib.uuids, rd.snapshot, lib.uuids.cast(id).value);
    }
  }

  ghost predicate Unrelated(rd: Reading, e: Error) {
    && !HasCode(Some(e), "ORDER_NOT_FOUND")
    && (rd.answer.Miss? ==> !HasCode(Some(Relayed(rd.answer.relay, e)), "ORDER_NOT_FOUND"))
  }

  // Failures of the connection, of a cast or of the cache do not pose as a missing order.
  ghost predicate FailuresAreUnrelated(lib: Lib, rd: Reading) {
    && Unrelated(rd, lib.badCast)
    && (rd.fault.Some? ==> Unrelated(rd, rd.fault.value))
    && (rd.answer.Broken? ==> Unrelated(rd, rd.answer.error))
  }

  lemma NotFoundSurvivesRelay(relay: Relay)
    ensures Restored(Relayed(relay, NotFound())) == NotFound()
  {
    match relay
    case Same =>
    case Prefixed(prefix) =>
      assert AsHttp(Wrapped(prefix, NotFound())) == AsHttp(NotFound());
    case Flattened =>
      assert forall c :: c in "ORDER_NOT_FOUND" ==> c != ':';
      FlattenedCode(NotFound(), "ORDER_NOT_FOUND");
  }

  /**
   ORDER_NOT_FOUND is the answer exactly when it rests on a load that read a state
   without the order, however the cache passed the failure on.
   */
  lemma NotFoundMeansAbsent(lib: Lib, cached: bool, id: string, rd: Reading)
    requires Serialised(rd.snapshot) && FailuresAreUnrelated(lib, rd)
    ensures GetResult(lib, cached, id, rd) == Err(Http(404, "ORDER_NOT_FOUND", "order not found", None)) <==>
            && lib.uuids.valid(id)
            && (cached ==> rd.answer.Miss?)
            && rd.fault.None?
            && lib.uuids.cast(id).Some?
            && !HasOrder(Rows(rd.snapshot), lib.uuids.cast(id).value)
  {
    if rd.answer.Miss? {
      NotFoundSurvivesRelay(rd.answer.relay);
    }
    if lib.uuids.cast(id).Some? {
      var order := lib.uuids.cast(id).value;
      ViewOfOrder(lib.uuids, rd.snapshot, order);
      HasOrderMeansInLedger(rd.snapshot, order);
    }
  }

  // What the caller is told of a failed read: a missing order, typed or flattened, or the error itself.
  ghost predicate ToldOf(r: Result<OrderView>, e: Error) {
    if (exists h :: FirstHttp(e, Some(h)) && h.code == "ORDER_NOT_FOUND")
       || (FirstHttp(e, None) && "ORDER_NOT_FOUND:" <= Text(e))
    then r == Err(Http(404, "ORDER_NOT_FOUND", "order not found", None))
    else r == Err(e)
  }

  lemma RestoredTells(e: Error)
    ensures ToldOf(Err(Restored(e)), e)
  {
    AsHttpFindsFirst(e);
    forall found | FirstHttp(e, found)
      ensures AsHttp(e) == found
    {
      SearchesAreExact(e, found);
    }
    assert "ORDER_NOT_FOUND" + ":" == "ORDER_NOT_FOUND:";
  }

  // The failure of a load as the service sees it: through the cache it is relayed and restored.
  ghost predicate FailsWith(r: Result<OrderView>, cached: bool, rd: Reading, e: Error) {
    if !cached then r == Err(e)
    else
      && rd.answer.Miss?
      && match rd.answer.relay
         case Same => ToldOf(r, e)
         case Prefixed(prefix) => ToldOf(r, Wrapped(prefix, e))
         case Flattened => ToldOf(r, Plain(Text(e)))
  }

  lemma AnswersOfLoad(lib: Lib, id: string, rd: Reading)
    requires Serialised(rd.snapshot)
    ensures var r, order, m := LoadResult(lib, id, rd), lib.uuids.cast(id), LedgerOf(rd.snapshot);
            if rd.fault.Some? then r == Err(rd.fault.value)
            else if order.None? then r == Err(lib.badCast)
            else if order.value !in m then r == Err(NotFound())
            else r.Ok? && Shows(lib.uuids, r.value, m[order.value].create)
                 && r.value.status == (if m[order.value].Accepted? then "accepted" else "requested")
  {
    if lib.uuids.cast(id).Some? {
      ViewOfOrder(lib.uuids, rd.snapshot, lib.uuids.cast(id).value);
    }
  }

  lemma RelayedFailure(lib: Lib, id: string, rd: Reading)
    requires lib.uuids.valid(id) && rd.answer.Miss? && LoadResult(lib, id, rd).Err?
    ensures ToldOf(GetResult(lib, true, id, rd), Relayed(rd.answer.relay, LoadResult(lib, id, rd).error))
    ensures LoadResult(lib, id, rd) == Err(NotFound()) ==> GetResult(lib, true, id, rd) == Err(NotFound())
  {
    RestoredTells(Relayed(rd.answer.relay, LoadResult(lib, id, rd).error));
    NotFoundSurvivesRelay(rd.answer.relay);
  }

  /** Every answer of a read, by what the cache does and what its load meets. */
  lemma AnswersOfGet(lib: Lib, cached: bool, id: string, rd: Reading)
    requires Serialised(rd.snapshot)
    ensures var r, order, m := GetResult(lib, cached, id, rd), lib.uuids.cast(id), LedgerOf(rd.snapshot);
            if !lib.uuids.valid(id) then r.Err? && Says(r.error, 400, "VALIDATION_ERROR")
            else if cached && rd.answer.Hit? then r == Ok(rd.answer.view)
            else if cached && rd.answer.Broken? then ToldOf(r, rd.answer.error)
            else if rd.fault.Some? then FailsWith(r, cached, rd, rd.fault.value)
            else if order.None? then FailsWith(r, cached, rd, lib.badCast)
            else if order.value !in m then r == Err(Http(404, "ORDER_NOT_FOUND", "order not found", None))
            else r.Ok? && Shows(lib.uuids, r.value, m[order.value].create)
                 && r.value.status == (if m[order.value].Accepted? then "accepted" else "requested")
  {
    AnswersOfLoad(lib, id, rd);
    if rd.answer.Broken? {
      RestoredTells(rd.answer.error);
    } else if rd.answer.Miss? && lib.uuids.valid(id) && LoadResult(lib, id, rd).Err? {
      RelayedFailure(lib, id, rd);
    }
  }

  // In a run over the cached reader: the answer rests on a view the cache can serve or on an earlier state.
  ghost predicate ReadsDuring(lib: Lib, moves: seq<Move>, id: string, cached: bool, rd: Reading)
    requires Possible(lib.uuids, moves)
  {
    var b := Reached(lib.uuids, moves);
    rd.snapshot <= b.store.log && (cached && rd.answer.Hit? ==> Servable(b, id, rd.answer.view))
  }

  lemma RunsAreReadable(lib: Lib, moves: seq<Move>, id: string, cached: bool, rd: Reading)
    requires Possible(lib.uuids, moves) && ReadsDuring(lib, moves, id, cached, rd)
    ensures Serialised(Reached(lib.uuids, moves).store.log)
    ensures Readable(lib, Reached(lib.uuids, moves).store.log, id, cached, rd)
  {
    EarlyCheckIsOptimisation(lib.uuids, moves);
    P.RunKeepsInv(Erase(moves));
  }

  lemma LoadFinds(lib: Lib, id: string, rd: Reading)
    requires Serialised(rd.snapshot) && lib.uuids.cast(id).Some?
    requires lib.uuids.cast(id).value in LedgerOf(rd.snapshot)
    ensures rd.fault.None? ==> LoadResult(lib, id, rd).Ok?
  {
    ViewOfOrder(lib.uuids, rd.snapshot, lib.uuids.cast(id).value);
  }

  /**
   Once an order is committed, no answer that rests on a load begun after that, whoever
   began it and however the cache relays it, is ORDER_NOT_FOUND; if nothing fails on the
   way, the answer is a view.
   */
  lemma NeverNotFoundAfterCommit(lib: Lib, moves: seq<Move>, n: nat, cached: bool, id: string, rd: Reading)
    requires Possible(lib.uuids, moves) && n <= |moves| && lib.uuids.cast(id).Some?
    requires HasOrder(Rows(LogAfter(lib.uuids, moves, n)), lib.uuids.cast(id).value)
    requires LogAfter(lib.uuids, moves, n) <= rd.snapshot && ReadsDuring(lib, moves, id, cached, rd)
    requires FailuresAreUnrelated(lib, rd)
    ensures GetResult(lib, cached, id, rd).Err? ==>
            !HasCode(Some(GetResult(lib, cached, id, rd).error), "ORDER_NOT_FOUND")
    ensures lib.uuids.valid(id) && rd.fault.None? && !(cached && rd.answer.Broken?) ==>
            GetResult(lib, cached, id, rd).Ok?
  {
    RunsAreReadable(lib, moves, id, cached, rd);
    OrderStays(LogAfter(lib.uuids, moves, n), rd.snapshot, Reached(lib.uuids, moves).store.log,
               lib.uuids.cast(id).value);
    NotFoundMeansAbsent(lib, cached, id, rd);
    LoadFinds(lib, id, rd);
  }

  /** A request that was prepared by the service announces itself in its payload, with the JSON consumers read. */
  lemma RequestAnnouncesItself(uuids: UuidText, topic: string, input: RequestedInput, rq: Request, now: int)
    requires Lawful(uuids) && input.statusHistoryId == "" && input.outboxId == ""
    ensures var call := CreateCallOf(uuids, Prepared(uuids, topic, input, rq), now);
            && (call.Some? <==> uuids.cast(input.id).Some? && uuids.cast(input.rider).Some?)
            && (call.Some? ==>
                  && Announces(uuids, call.value)
                  && call.value.create.historyId == rq.historyId && call.value.create.outboxId == rq.outboxId
                  && call.value.create.createdAt == now
                  && call.value.create.eventType == topic
                  && Carries(call.value.create.payload, rq.carrier,
                             map["eventId" := Str(uuids.text(rq.outboxId)), "eventVersion" := Num(1.0),
                                 "occurredAt" := Num(rq.now as real),
                                 "orderId" := Str(input.id), "riderId" := Str(input.rider),
                                 "pickupLatitude" := Num(input.trip.pickupLatitude),
                                 "pickupLongitude" := Num(input.trip.pickupLongitude),
                                 "destinationLatitude" := Num(input.trip.destinationLatitude),
                                 "destinationLongitude" := Num(input.trip.destinationLongitude)]))
  {
    KeyIsReserved();
    var outboxId := uuids.text(rq.outboxId);
    var event := Events.OrderRequested(outboxId, 1, rq.now, input.id, input.rider, input.trip);
    assert uuids.cast(uuids.text(rq.historyId)) == Some(rq.historyId);
    assert uuids.cast(uuids.text(rq.outboxId)) == Some(rq.outboxId);
    InjectionKeepsEvent(rq.carrier, event);
  }

  /** Row ids that were given are kept; only missing ones are generated. */
  lemma GivenIdsAreKept(uuids: UuidText, topic: string, input: RequestedInput, rq: Request, now: int)
    requires Lawful(uuids)
    ensures var call := CreateCallOf(uuids, Prepared(uuids, topic, input, rq), now);
            call.Some? ==>
              var c := call.value.create;
              && Some(c.historyId) == (if input.statusHistoryId == "" then Some(rq.historyId)
                                       else uuids.cast(input.statusHistoryId))
              && Some(c.outboxId) == (if input.outboxId == "" then Some(rq.outboxId) else uuids.cast(input.outboxId))
  {
    assert uuids.cast(uuids.text(rq.historyId)) == Some(rq.historyId);
    assert uuids.cast(uuids.text(rq.outboxId)) == Some(rq.outboxId);
  }

  // The statement a request issues, when its ids are uuids to PostgreSQL.
  function IssuedCreate(lib: Lib, topic: string, input: RequestedInput, rq: Request): Option<Call> {
    CreateCallOf(lib.uuids, Prepared(lib.uuids, topic, input, rq), rq.weather.now)
  }

  function ReplyOfCreate(lib: Lib, log: Log, input: RequestedInput, call: Call, a: Attempt, w: Weather)
    : (Log, Result<OrderOutput>)
  {
    match a
    case NoRows => (log, Ok(OrderOutput(input.id, input.rider, input.trip)))
    case Clash(keys) => (log, Err(ClassifyRequested(lib.report(w.choose(keys)))))
    case Write(rows) => (log + [Entry(call, rows)], Ok(OrderOutput(input.id, input.rider, input.trip)))
  }

  lemma ReplyByAttempt(lib: Lib, log: Log, topic: string, input: RequestedInput, rq: Request)
    requires !Blank(input.id) && !Blank(input.rider)
    requires rq.weather.fault.Up? && IssuedCreate(lib, topic, input, rq).Some?
    ensures var call := IssuedCreate(lib, topic, input, rq).value;
            RequestedReply(lib, log, topic, input, rq) ==
            ReplyOfCreate(lib, log, input, call, Try(call, Rows(rq.weather.snapshot), Rows(log)), rq.weather)
  {
  }

  lemma DuplicateKey(lib: Lib, key: UniqueKey)
    requires Faithful(lib) && key in {OrdersPkey, HistoryOrderSequenceKey}
    ensures ClassifyRequested(lib.report(key)) == AlreadyExists()
  {
    ReportedIsFound(lib.report(key), key);
  }

  /** Which errors of the repository are a duplicate: those whose first *PgError names one of the two keys. */
  lemma DuplicatesExactly(e: Error)
    ensures ClassifyRequested(e) ==
            if exists pg :: FirstPg(e, Some(pg)) && NamesDuplicate(pg)
            then Http(409, "ORDER_ALREADY_EXISTS", "an order with this id already exists", None) else e
  {
    AsPgFindsFirst(e);
    forall pg | FirstPg(e, Some(pg))
      ensures AsPg(e) == Some(pg)
    {
      SearchesAreExact(e, Some(pg));
    }
  }

  predicate NamesDuplicate(pg: Error) {
    && pg.Pg? && pg.sqlState == "23505"
    && (pg.constraint == "orders_pkey" || pg.constraint == "order_status_history_order_id_sequence_key")
  }

  /** A failing connection: its error is classified like any other, and only a lost answer leaves a write behind. */
  lemma RequestOverFailingConnection(lib: Lib, log: Log, topic: string, input: RequestedInput, rq: Request)
    requires !rq.weather.fault.Up? && !Blank(input.id) && !Blank(input.rider)
    requires IssuedCreate(lib, topic, input, rq).Some?
    ensures var (after, r) := RequestedReply(lib, log, topic, input, rq);
            var calm := RequestedReply(lib, log, topic, input, rq.(weather := rq.weather.(fault := Up)));
            && r == Err(ClassifyRequested(rq.weather.fault.error))
            && after == (if rq.weather.fault.Down? then log else calm.0)
  {
  }

  // One new order, requested, under the id, for the rider and with the trip of the input.
  ghost predicate CommitsRequest(lib: Lib, log: Log, after: Log, input: RequestedInput, now: int) {
    var order, m := lib.uuids.cast(input.id), LedgerOf(after);
    && order.Some? && order.value !in LedgerOf(log)
    && Serialised(after) && |after| == |log| + 1 && after[..|log|] == log
    && order.value in m && m[order.value].Requested?
    && m[order.value].create.trip == input.trip && m[order.value].create.createdAt == now
    && lib.uuids.cast(input.rider) == Some(m[order.value].create.rider)
  }

  // A request whose casts succeed, with new row ids, over a working connection.
  ghost predicate Inserts(lib: Lib, log: Log, topic: string, input: RequestedInput, rq: Request) {
    && Faithful(lib) && Picks(rq.weather) && rq.weather.fault.Up? && Serialised(log)
    && !Blank(input.id) && !Blank(input.rider)
    && IssuedCreate(lib, topic, input, rq).Some?
    && IssuedCreate(lib, topic, input, rq).value.Generated() !! LogIds(log)
  }

  lemma DuplicateIsRefused(lib: Lib, log: Log, topic: string, input: RequestedInput, rq: Request)
    requires Inserts(lib, log, topic, input, rq)
    requires IssuedCreate(lib, topic, input, rq).value.Order() in LedgerOf(log)
    ensures RequestedReply(lib, log, topic, input, rq) == (log, Err(AlreadyExists()))
  {
    var call, keys := IssuedCreate(lib, topic, input, rq).value, {OrdersPkey, HistoryOrderSequenceKey};
    ReplyByAttempt(lib, log, topic, input, rq);
    ClashingKeys(log, call);
    assert OrdersPkey in keys;
    DuplicateKey(lib, rq.weather.choose(keys));
  }

  lemma NewRequestIsWritten(lib: Lib, log: Log, topic: string, input: RequestedInput, rq: Request)
    requires Inserts(lib, log, topic, input, rq)
    requires IssuedCreate(lib, topic, input, rq).value.Order() !in LedgerOf(log)
    ensures var call := IssuedCreate(lib, topic, input, rq).value;
            var after := log + [Entry(call, SerialRows(call))];
            && RequestedReply(lib, log, topic, input, rq) ==
               (after, Ok(OrderOutput(input.id, input.rider, input.trip)))
            && CommitsRequest(lib, log, after, input, rq.weather.now)
  {
    var call := IssuedCreate(lib, topic, input, rq).value;
    ReplyByAttempt(lib, log, topic, input, rq);
    ClashingKeys(log, call);
    RowsOfPush(log, Entry(call, SerialRows(call)));
  }

  /**
   Every answer of a request over a working connection. A blank id is the caller's fault; an
   id that uuid.Parse took and the cast refuses is an internal error. A duplicate is the
   caller's conflict, whichever violated key PostgreSQL reports and however the driver
   wraps it. Any other request creates its order with the rider and the trip it names,
   and only that one writes.
   */
  lemma DuplicateIsConflict(lib: Lib, log: Log, topic: string, input: RequestedInput, rq: Request)
    requires Faithful(lib) && Picks(rq.weather) && rq.weather.fault.Up? && Serialised(log)
    requires var call := IssuedCreate(lib, topic, input, rq);
             call.Some? ==> call.value.Generated() !! LogIds(log)
    ensures var call := IssuedCreate(lib, topic, input, rq);
            var (after, r) := RequestedReply(lib, log, topic, input, rq);
            if Blank(input.id) || Blank(input.rider) then
              r.Err? && Says(r.error, 400, "VALIDATION_ERROR") && after == log
            else if call.None? then
              r == Err(lib.badCast) && AbortStatus(Some(r.error)) == 500 && after == log
            else if HasOrder(Rows(log), call.value.Order()) then
              r == Err(Http(409, "ORDER_ALREADY_EXISTS", "an order with this id already exists", None)) && after == log
            else
              && r == Ok(OrderOutput(input.id, input.rider, input.trip))
              && after == log + [Entry(call.value, SerialRows(call.value))]
              && CommitsRequest(lib, log, after, input, rq.weather.now)
  {
    CastFailureIsNone(lib.badCast);
    var call := IssuedCreate(lib, topic, input, rq);
    if !Blank(input.id) && !Blank(input.rider) && call.Some? {
      HasOrderMeansInLedger(log, call.value.Order());
      if HasOrder(Rows(log), call.value.Order()) {
        DuplicateIsRefused(lib, log, topic, input, rq);
      } else {
        NewRequestIsWritten(lib, log, topic, input, rq);
      }
    }
  }

  /** With a driver that wraps its errors the answer to a duplicate is the same 409. */
  lemma WrappedDuplicateIsConflict(
    lib: Lib, log: Log, topic: string, input: RequestedInput, rq: Request, prefix: string, text: string)
    requires Lawful(lib.uuids) && IsCastFailure(lib.badCast)
    requires forall key :: lib.report(key) == Wrapped(prefix, Pg("23505", KeyName(key), text))
    requires Picks(rq.weather) && rq.weather.fault.Up? && Serialised(log)
    requires !Blank(input.id) && !Blank(input.rider) && IssuedCreate(lib, topic, input, rq).Some?
    requires IssuedCreate(lib, topic, input, rq).value.Generated() !! LogIds(log)
    requires HasOrder(Rows(log), IssuedCreate(lib, topic, input, rq).value.Order())
    ensures RequestedReply(lib, log, topic, input, rq) ==
            (log, Err(Http(409, "ORDER_ALREADY_EXISTS", "an order with this id already exists", None)))
  {
    forall key
      ensures Reported(lib.report(key), key)
    {
      WrappedViolationIsReported(prefix, key, text);
    }
    DuplicateIsConflict(lib, log, topic, input, rq);
  }

  // The request's own entry, the last of the log, and what it says.
  ghost predicate CommittedBy(lib: Lib, log: Log, after: Log, input: RequestedInput) {
    && Serialised(after) && |after| == |log| + 1 && after[..|log|] == log
    && after[|log|].call.Create?
    && var c := after[|log|].call.create;
       && c.order !in LedgerOf(log)
       && c.order in LedgerOf(after) && LedgerOf(after)[c.order] == Requested(c)
       && lib.uuids.cast(input.id) == Some(c.order)
       && lib.uuids.cast(input.rider) == Some(c.rider)
       && c.trip == input.trip
  }

  /** A request that succeeds has committed its order, over whatever connection. */
  lemma RequestCommits(lib: Lib, log: Log, topic: string, input: RequestedInput, rq: Request)
    requires Faithful(lib) && Picks(rq.weather) && Serialised(log)
    requires input.statusHistoryId == "" && input.outboxId == ""
    requires {rq.historyId, rq.outboxId} !! LogIds(log)
    requires RequestedReply(lib, log, topic, input, rq).1.Ok?
    ensures CommittedBy(lib, log, RequestedReply(lib, log, topic, input, rq).0, input)
    ensures RequestedReply(lib, log, topic, input, rq).1 == Ok(OrderOutput(input.id, input.rider, input.trip))
  {
    RequestAnnouncesItself(lib.uuids, topic, input, rq, rq.weather.now);
    DuplicateIsConflict(lib, log, topic, input, rq);
    var call := IssuedCreate(lib, topic, input, rq).value;
    RowsOfPush(log, Entry(call, SerialRows(call)));
  }
}
