/** internal/orders/handler.go: creating an order and reading one's own order. */
module Handlers {
  import opened Wrappers
  import opened Uuids
  import opened Tables
  import opened Ledger
  import opened Queries
  import opened Guarantees
  import opened Errors
  import opened Repositories
  import opened StaleReads
  import opened Orders
  import R = Rfc9562

  datatype Response =
    | Created(output: OrderOutput)
    | Shown(view: OrderView)
    | Failed(status: int, code: string, message: string)

  // AbortError
  function Abort(err: Error): Response {
    var mapped := MapError(Some(err)).value;
    Failed(mapped.status, mapped.code, mapped.message)
  }

  /** The bound JSON body, or the reason it did not bind. */
  datatype Body = Malformed(reason: string) | Bound(id: string, rider: string, trip: Trip)

  // The rider: header, then body, then a new one.
  function RiderOf(uuids: UuidText, header: string, body: string, newRider: Uuid): string {
    DefaultId(DefaultId(header, body), uuids.text(newRider))
  }

  function RequestResponse(
    lib: Lib, log: Log, topic: string, body: Body, header: string, newId: Uuid, newRider: Uuid, rq: Orders.Request)
    : (Log, Response)
  {
    if body.Malformed? then (log, Abort(ValidationError("body", body.reason)))
    else
      var id := DefaultId(body.id, lib.uuids.text(newId));
      var rider := RiderOf(lib.uuids, header, body.rider, newRider);
      if !lib.uuids.valid(id) then (log, Abort(ValidationError("id", "must be a UUID")))
      else if !lib.uuids.valid(rider) then (log, Abort(ValidationError("rider_id", "must be a UUID")))
      else
        var input := RequestedInput(id, rider, body.trip, "", "", NO_PAYLOAD, "");
        var (after, r) := RequestedReply(lib, log, topic, input, rq);
        (after, match r
                case Err(e) => Abort(e)
                case Ok(output) => Created(output))
  }

  function GetResponse(lib: Lib, header: string, found: Result<OrderView>): Response {
    if !lib.uuids.valid(header) then Abort(ValidationError("rider_id", "must be a UUID"))
    else
      match found
      case Err(e) => Abort(e)
      case Ok(view) => if view.rider != header then Abort(NotFound()) else Shown(view)
  }

  class Handler {
    const service: Orders.Service

    constructor (service: Orders.Service)
      ensures this.service == service
    {
      this.service := service;
    }

    method Request(body: Body, header: string, newId: Uuid, newRider: Uuid, rq: Orders.Request) returns (resp: Response)
      requires rq.weather.snapshot <= service.repository.db.log
      modifies service.repository.db, if service.tel == null then {} else {service.tel}
      ensures (service.repository.db.log, resp) ==
              RequestResponse(service.repository.db.lib, old(service.repository.db.log), service.topic,
                              body, header, newId, newRider, rq)
      ensures resp.Failed? && !rq.weather.fault.AckLost? ==>
        service.repository.db.log == old(service.repository.db.log)
    {
      var uuids := service.repository.db.lib.uuids;
      if body.Malformed? {
        return Abort(ValidationError("body", body.reason));
      }
      var id := body.id;
      if id == "" {
        id := uuids.text(newId);
      }
      var riderId := header;
      if riderId == "" {
        riderId := body.rider;
      }
      if riderId == "" {
        riderId := uuids.text(newRider);
      }
      if !uuids.valid(id) {
        return Abort(ValidationError("id", "must be a UUID"));
      }
      if !uuids.valid(riderId) {
        return Abort(ValidationError("rider_id", "must be a UUID"));
      }
      var order := service.Requested(RequestedInput(id, riderId, body.trip, "", "", NO_PAYLOAD, ""), rq);
      if order.Err? {
        return Abort(order.error);
      }
      return Created(order.value);
    }

    method Get(orderId: string, header: string, rd: Reading) returns (resp: Response)
      requires rd.snapshot <= service.repository.db.log
      requires service.cache != null ==> service.cache.CanServe(CacheKey(orderId), rd.answer)
      modifies if service.cache == null then {} else {service.cache}
      ensures resp == GetResponse(service.repository.db.lib, header,
                                  GetResult(service.repository.db.lib, service.cache != null, orderId, rd))
      ensures resp.Shown? ==> resp.view.rider == header
    {
      if !service.repository.db.lib.uuids.valid(header) {
        return Abort(ValidationError("rider_id", "must be a UUID"));
      }
      var view := service.Get(orderId, rd);
      if view.Err? {
        return Abort(view.error);
      }
      if view.value.rider != header {
        return Abort(NotFound());
      }
      return Shown(view.value);
    }
  }

  // ----- The envelope of an error -------------------------------------------------------

  // The response of an error, whatever its tree: its first *HTTPError, or a 500 that hides it.
  ghost predicate Envelope(resp: Response, e: Error) {
    && (forall h :: FirstHttp(e, Some(h)) ==> resp == Failed(h.status, h.code, h.message))
    && (FirstHttp(e, None) ==> resp == Failed(500, "INTERNAL_ERROR", "internal server error"))
  }

  lemma AbortAnswers(e: Error)
    ensures Envelope(Abort(e), e)
    ensures Abort(e).status == AbortStatus(Some(e))
    ensures e.Http? ==> Abort(e) == Failed(e.status, e.code, e.message)
  {
    MapErrorAnswers(e);
  }

  // A 400 for a field that is missing or no uuid.
  predicate BadRequest(resp: Response) {
    resp.Failed? && resp.status == 400 && resp.code == "VALIDATION_ERROR"
  }

  // ----- Who sees an order ------------------------------------------------------------

  /**
   However stale the view, an order is shown exactly when the header is the text of the
   rider recorded with it; a header naming another rider never sees it, and a header that
   names the owner in another spelling is turned away.
   */
  lemma ShownExactlyToItsRider(lib: Lib, log: Log, id: string, cached: bool, rd: Reading, header: string)
    requires Lawful(lib.uuids) && Serialised(log) && Readable(lib, log, id, cached, rd)
    requires GetResult(lib, cached, id, rd).Ok?
    ensures lib.uuids.cast(id).Some? && lib.uuids.cast(id).value in LedgerOf(log)
    ensures var rider := LedgerOf(log)[lib.uuids.cast(id).value].create.rider;
            var resp := GetResponse(lib, header, GetResult(lib, cached, id, rd));
            && (resp.Shown? <==> header == lib.uuids.text(rider))
            && (resp.Shown? ==> lib.uuids.cast(header) == Some(rider))
            && (resp.Shown? ==> Reflects(lib.uuids, resp.view, LedgerOf(log)[lib.uuids.cast(id).value]))
            && (!resp.Shown? ==>
                  if lib.uuids.valid(header) then resp == Failed(404, "ORDER_NOT_FOUND", "order not found")
                  else BadRequest(resp))
  {
    var n := ReadViewsWereTrue(lib, log, id, cached, rd);
    var view := GetResult(lib, cached, id, rd).value;
    OldViewAndNow(lib.uuids, log, n, id, view);
    var rider := LedgerOf(log)[lib.uuids.cast(id).value].create.rider;
    assert lib.uuids.cast(lib.uuids.text(rider)) == Some(rider);
  }

  /**
   So in every run, whatever the cache serves and under every spelling of the id: a read
   that succeeds is shown exactly under the text of the rider recorded with the order.
   */
  lemma OrdersAreShownToTheirRider(
    lib: Lib, moves: seq<Move>, id: string, cached: bool, rd: Reading, header: string)
    requires Lawful(lib.uuids) && Possible(lib.uuids, moves) && ReadsDuring(lib, moves, id, cached, rd)
    ensures var m, found := LedgerOf(Reached(lib.uuids, moves).store.log), GetResult(lib, cached, id, rd);
            var resp := GetResponse(lib, header, found);
            && (found.Ok? ==> lib.uuids.cast(id).Some? && lib.uuids.cast(id).value in m)
            && (resp.Shown? <==>
                  found.Ok? && header == lib.uuids.text(m[lib.uuids.cast(id).value].create.rider))
            && (resp.Shown? ==> lib.uuids.cast(header) == Some(m[lib.uuids.cast(id).value].create.rider))
            && (resp.Shown? ==> Reflects(lib.uuids, resp.view, m[lib.uuids.cast(id).value]))
  {
    RunsAreReadable(lib, moves, id, cached, rd);
    if GetResult(lib, cached, id, rd).Ok? {
      ShownExactlyToItsRider(lib, Reached(lib.uuids, moves).store.log, id, cached, rd, header);
    }
  }

  /** With RFC 9562 texts the owner of an order is turned away by an upper-case spelling of his own id. */
  lemma OwnerInUpperCaseIsTurnedAway(lib: Lib, log: Log, id: string, cached: bool, rd: Reading)
    requires lib.uuids == R.RFC && Serialised(log) && Readable(lib, log, id, cached, rd)
    requires GetResult(lib, cached, id, rd).Ok?
    requires lib.uuids.cast(id).Some? && lib.uuids.cast(id).value in LedgerOf(log)
    requires exists k :: 0 <= k < 32 && LedgerOf(log)[lib.uuids.cast(id).value].create.rider.digits[k] >= 10
    ensures var rider := LedgerOf(log)[lib.uuids.cast(id).value].create.rider;
            var header := R.Upper(lib.uuids.text(rider));
            && lib.uuids.cast(header) == Some(rider)
            && GetResponse(lib, header, GetResult(lib, cached, id, rd)) ==
               Failed(404, "ORDER_NOT_FOUND", "order not found")
  {
    var rider := LedgerOf(log)[lib.uuids.cast(id).value].create.rider;
    var header := R.Upper(lib.uuids.text(rider));
    R.RfcIsLawful();
    R.UpperSpellsTheSameId(rider);
    ShownExactlyToItsRider(lib, log, id, cached, rd, header);
  }

  /** A read that fails: bad ids are the caller's, a missing order is a 404, anything else is its envelope. */
  lemma AnswersOfFailedRead(lib: Lib, cached: bool, id: string, rd: Reading, header: string)
    requires Serialised(rd.snapshot) && GetResult(lib, cached, id, rd).Err?
    ensures var resp := GetResponse(lib, header, GetResult(lib, cached, id, rd));
            var order := lib.uuids.cast(id);
            && ((!lib.uuids.valid(header) || !lib.uuids.valid(id)) ==> BadRequest(resp))
            && (lib.uuids.valid(header) ==> Envelope(resp, GetResult(lib, cached, id, rd).error))
            && (lib.uuids.valid(header) && lib.uuids.valid(id) && (cached ==> rd.answer.Miss?)
                && rd.fault.None? && order.Some? && order.value !in LedgerOf(rd.snapshot) ==>
                  resp == Failed(404, "ORDER_NOT_FOUND", "order not found"))
  {
    AnswersOfGet(lib, cached, id, rd);
    AbortAnswers(GetResult(lib, cached, id, rd).error);
  }

  // The request's order id and rider, as the handler fills them in.
  ghost predicate Chosen(text: string, header: string, body: string, generated: string) {
    && (header != "" ==> text == header)
    && (header == "" && body != "" ==> text == body)
    && (header == "" && body == "" ==> text == generated)
  }

  lemma ChoiceOfRider(uuids: UuidText, header: string, body: string, newRider: Uuid)
    ensures Chosen(RiderOf(uuids, header, body, newRider), header, body, uuids.text(newRider))
  {
  }

  // The input a well-formed request reaches the service with.
  ghost predicate Asks(
    lib: Lib, body: Body, header: string, newId: Uuid, newRider: Uuid, input: RequestedInput) {
    && body.Bound?
    && input.id == (if body.id != "" then body.id else lib.uuids.text(newId))
    && Chosen(input.rider, header, body.rider, lib.uuids.text(newRider))
    && input.trip == body.trip
    && input.statusHistoryId == "" && input.outboxId == ""
  }

  /**
   Every answer to a POST: a body that does not bind, or an id that is no uuid, is a 400; otherwise
   the service is asked for the order named, and its order is the 201 or its error the envelope.
   */
  lemma AnswersOfPost(
    lib: Lib, log: Log, topic: string, body: Body, header: string, newId: Uuid, newRider: Uuid, rq: Orders.Request)
    returns (input: RequestedInput)
    ensures body.Bound? ==> Asks(lib, body, header, newId, newRider, input)
    ensures var (after, resp) := RequestResponse(lib, log, topic, body, header, newId, newRider, rq);
            if body.Malformed? || !lib.uuids.valid(input.id) || !lib.uuids.valid(input.rider) then
              after == log && BadRequest(resp)
            else
              var (written, r) := RequestedReply(lib, log, topic, input, rq);
              after == written && if r.Ok? then resp == Created(r.value) else Envelope(resp, r.error)
  {
    input := RequestedInput("", "", Trip(0.0, 0.0, 0.0, 0.0), "", "", NO_PAYLOAD, "");
    if body.Bound? {
      var id := DefaultId(body.id, lib.uuids.text(newId));
      var rider := RiderOf(lib.uuids, header, body.rider, newRider);
      ChoiceOfRider(lib.uuids, header, body.rider, newRider);
      input := RequestedInput(id, rider, body.trip, "", "", NO_PAYLOAD, "");
      var r := RequestedReply(lib, log, topic, input, rq).1;
      if r.Err? {
        AbortAnswers(r.error);
      }
    }
  }

  // The rider of a request with these three sources: header, then body, then a new one.
  ghost predicate ComesFrom(uuids: UuidText, rider: Uuid, header: string, body: string, newRider: Uuid) {
    && (header != "" ==> uuids.cast(header) == Some(rider))
    && (header == "" && body != "" ==> uuids.cast(body) == Some(rider))
    && (header == "" && body == "" ==> rider == newRider)
  }

  // One new entry: an order not seen before, under the id given or generated, for the rider the request came from.
  ghost predicate CommitsPost(
    lib: Lib, log: Log, after: Log, body: Body, header: string, newId: Uuid, newRider: Uuid, output: OrderOutput)
    requires body.Bound?
  {
    && Serialised(after) && |after| == |log| + 1 && after[..|log|] == log
    && after[|log|].call.Create?
    && var c := after[|log|].call.create;
       && c.order !in LedgerOf(log)
       && c.order in LedgerOf(after) && LedgerOf(after)[c.order] == Requested(c)
       && (body.id != "" ==> lib.uuids.cast(body.id) == Some(c.order) && output.id == body.id)
       && (body.id == "" ==> c.order == newId && output.id == lib.uuids.text(newId))
       && ComesFrom(lib.uuids, c.rider, header, body.rider, newRider)
       && Chosen(output.rider, header, body.rider, lib.uuids.text(newRider))
       && c.trip == body.trip && output.trip == body.trip
  }

  lemma CommittedForItsRider(
    lib: Lib, log: Log, after: Log, body: Body, header: string, newId: Uuid, newRider: Uuid, input: RequestedInput)
    requires Lawful(lib.uuids) && Asks(lib, body, header, newId, newRider, input)
    requires CommittedBy(lib, log, after, input)
    ensures CommitsPost(lib, log, after, body, header, newId, newRider, OrderOutput(input.id, input.rider, input.trip))
  {
    assert lib.uuids.cast(lib.uuids.text(newId)) == Some(newId);
    assert lib.uuids.cast(lib.uuids.text(newRider)) == Some(newRider);
  }

  /** A 201 means one new committed order, under the id given or generated, for the rider the request came from. */
  lemma CreatedOrderIsCommitted(
    lib: Lib, log: Log, topic: string, body: Body, header: string, newId: Uuid, newRider: Uuid, rq: Orders.Request)
    requires Faithful(lib) && Picks(rq.weather) && Serialised(log)
    requires {rq.historyId, rq.outboxId} !! LogIds(log)
    requires RequestResponse(lib, log, topic, body, header, newId, newRider, rq).1.Created?
    ensures body.Bound?
    ensures var (after, resp) := RequestResponse(lib, log, topic, body, header, newId, newRider, rq);
            CommitsPost(lib, log, after, body, header, newId, newRider, resp.output)
  {
    var input := AnswersOfPost(lib, log, topic, body, header, newId, newRider, rq);
    var (after, r) := RequestedReply(lib, log, topic, input, rq);
    RequestCommits(lib, log, topic, input, rq);
    CommittedForItsRider(lib, log, after, body, header, newId, newRider, input);
  }
}
