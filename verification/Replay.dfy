/**
 The outbox alone rebuilds the business state.

 Folding the payloads in commit order, by a reader that sees nothing but the JSON
 objects, gives the same orders, riders, trips, current statuses and drivers as the
 queries on the other three tables.
 */
module Replay {
  import opened Wrappers
  import opened Uuids
  import opened Json
  import opened Tables
  import opened Ledger
  import opened Queries
  import opened Protocol
  import opened Guarantees
  import opened TraceContext
  import Events

  // ----- What a payload says ----------------------------------------------------

  /** The payload of a write: the marshalled event with the caller's trace context injected. */
  function PayloadOf(carrier: Carrier, e: Events.Event): Value {
    Injected(carrier, JsonText(Events.Marshal(e))).value
  }

  lemma InjectionKeepsEvent(carrier: Carrier, e: Events.Event)
    ensures Events.Unmarshal(PayloadOf(carrier, e)) == Some(e)
  {
    var f := Events.Marshal(e).fields;
    Events.RoundTrip(e);
    Events.IgnoresOtherFields(f, KEY, Encode(carrier));
  }

  // The payload is this JSON object, apart from the reserved key of the trace context.
  ghost predicate Carries(payload: Value, carrier: Carrier, fields: map<string, Value>) {
    && payload.Obj?
    && KEY !in fields
    && payload.fields == if carrier == map[] then fields else fields[KEY := Encode(carrier)]
  }

  lemma KeyIsReserved()
    ensures !Events.Declared(KEY)
  {
    assert |KEY| == 13 && KEY[0] == 't';
  }

  /** The payload announces the call it is written with, under any spelling of the ids. */
  ghost predicate Announces(uuids: UuidText, call: Call) {
    match call
    case Create(c) =>
      var e := Events.Unmarshal(c.payload);
      && e.Some? && e.value.OrderRequested?
      && e.value.eventId == uuids.text(c.outboxId)
      && uuids.cast(e.value.orderId) == Some(c.order)
      && uuids.cast(e.value.riderId) == Some(c.rider)
      && e.value.trip == c.trip
    case Accept(a) =>
      var e := Events.Unmarshal(a.payload);
      && e.Some? && e.value.OrderAccepted?
      && e.value.eventId == uuids.text(a.outboxId)
      && uuids.cast(e.value.orderId) == Some(a.order)
      && uuids.cast(e.value.driverId) == Some(a.driver)
  }

  // ----- The fold ----------------------------------------------------------------

  datatype Projected = Projected(rider: Uuid, trip: Trip, status: string, driver: Option<Uuid>)

  type Projection = map<Uuid, Projected>

  function Observe(uuids: UuidText, p: Projection, payload: Value): Projection {
    match Events.Unmarshal(payload)
    case None => p
    case Some(OrderRequested(_, _, _, orderId, riderId, trip)) =>
      var order, rider := uuids.cast(orderId), uuids.cast(riderId);
      if order.None? || rider.None? then p
      else p[order.value := Projected(rider.value, trip, "requested", None)]
    case Some(OrderAccepted(_, _, _, orderId, driverId)) =>
      var order, driver := uuids.cast(orderId), uuids.cast(driverId);
      if order.None? || driver.None? || order.value !in p then p
      else p[order.value := p[order.value].(status := "accepted", driver := driver)]
  }

  function ReplayAll(uuids: UuidText, outbox: seq<OutboxRow>): Projection {
    if outbox == [] then map[]
    else Observe(uuids, ReplayAll(uuids, outbox[..|outbox| - 1]), outbox[|outbox| - 1].payload)
  }

  // ----- The same state, read from the other tables ------------------------------

  // The three tables say of order o what its projection says.
  ghost predicate Matches(uuids: UuidText, o: Uuid, p: Projected, t: Tables) {
    && (exists row :: OrdersWith(t.orders, o) == [row] && row.rider == p.rider && row.trip == p.trip)
    && (exists view :: ViewRows(uuids, t, o) == [view] && view.status == p.status)
    && match p.driver
       case None => AcceptancesOf(t.acceptances, o) == []
       case Some(d) => exists a :: AcceptancesOf(t.acceptances, o) == [a] && a.driver == d
  }

  ghost predicate Rebuilds(uuids: UuidText, p: Projection, t: Tables) {
    && (forall o :: o in p <==> HasOrder(t, o))
    && (forall o :: o in p ==> Matches(uuids, o, p[o], t))
  }

  // Every outbox row carries its own id and its own order.
  ghost predicate SelfDescribing(uuids: UuidText, e: OutboxRow) {
    var event := Events.Unmarshal(e.payload);
    event.Some? && event.value.eventId == uuids.text(e.id) && uuids.cast(event.value.orderId) == Some(e.aggregate)
  }

  function Project(state: OrderState): Projected {
    Projected(state.create.rider, state.create.trip, StatusOf(state),
              if state.Accepted? then Some(state.accept.driver) else None)
  }

  function ProjectAll(m: Ledger): Projection {
    map o | o in m :: Project(m[o])
  }

  ghost predicate AllAnnounce(uuids: UuidText, log: Log) {
    forall i :: 0 <= i < |log| ==> Announces(uuids, log[i].call)
  }

  lemma ObserveApplies(uuids: UuidText, m: Ledger, call: Call, payload: Value)
    requires Announces(uuids, call) && Decide(m, call).Done?
    requires payload == if call.Create? then call.create.payload else call.accept.payload
    ensures Observe(uuids, ProjectAll(m), payload) == ProjectAll(Apply(m, call))
  {
    var p, p' := ProjectAll(m), ProjectAll(Apply(m, call));
    match call
    case Create(c) =>
      assert p' == p[c.order := Project(Requested(c))];
    case Accept(a) =>
      assert p' == p[a.order := Project(Accepted(m[a.order].create, a))];
  }

  lemma {:induction false} ReplayIsLedger(uuids: UuidText, log: Log)
    requires Serialised(log) && AllAnnounce(uuids, log)
    ensures ReplayAll(uuids, Rows(log).outbox) == ProjectAll(LedgerOf(log))
    ensures forall e :: e in Rows(log).outbox ==> SelfDescribing(uuids, e)
  {
    if log == [] {
    } else {
      var before, last := log[..|log| - 1], log[|log| - 1];
      assert forall i :: 0 <= i < |before| ==> before[i] == log[i];
      ReplayIsLedger(uuids, before);
      var outbox, row := Rows(log).outbox, last.rows.outbox[0];
      assert outbox[..|outbox| - 1] == Rows(before).outbox && outbox[|outbox| - 1] == row;
      ObserveApplies(uuids, LedgerOf(before), last.call, row.payload);
      assert SelfDescribing(uuids, row);
    }
  }

  lemma LedgerRebuilds(uuids: UuidText, log: Log)
    requires Serialised(log)
    ensures Rebuilds(uuids, ProjectAll(LedgerOf(log)), Rows(log))
  {
    var p := ProjectAll(LedgerOf(log));
    forall o
      ensures o in p <==> HasOrder(Rows(log), o)
    {
      HasOrderMeansInLedger(log, o);
    }
    forall o | o in p
      ensures Matches(uuids, o, p[o], Rows(log))
    {
      OrderMatches(uuids, log, o);
    }
  }

  lemma OrderMatches(uuids: UuidText, log: Log, o: Uuid)
    requires Serialised(log) && o in LedgerOf(log)
    ensures Matches(uuids, o, Project(LedgerOf(log)[o]), Rows(log))
  {
    OrdersOfOrder(log, o);
    ViewOfOrder(uuids, log, o);
    AcceptancesOfOrder(log, o);
  }

  // ----- Over all runs -------------------------------------------------------------

  lemma {:induction false} LogAnnounces(uuids: UuidText, trace: seq<Event>)
    requires Valid(trace)
    requires forall stmt :: stmt in Run(trace).begun ==> Announces(uuids, Run(trace).begun[stmt].call)
    ensures AllAnnounce(uuids, Run(trace).log)
  {
    if trace == [] {
    } else {
      var before, e := trace[..|trace| - 1], trace[|trace| - 1];
      forall stmt | stmt in Run(before).begun
        ensures Announces(uuids, Run(before).begun[stmt].call)
      {
        assert Run(trace).begun[stmt] == Run(before).begun[stmt];
      }
      LogAnnounces(uuids, before);
    }
  }

  lemma OutboxRebuildsTheTables(uuids: UuidText, trace: seq<Event>)
    requires Valid(trace)
    requires forall stmt :: stmt in Run(trace).begun ==> Announces(uuids, Run(trace).begun[stmt].call)
    ensures var t := Rows(Run(trace).log);
            && Rebuilds(uuids, ReplayAll(uuids, t.outbox), t)
            && (forall e :: e in t.outbox ==> SelfDescribing(uuids, e))
  {
    RunKeepsInv(trace);
    LogAnnounces(uuids, trace);
    ReplayIsLedger(uuids, Run(trace).log);
    LedgerRebuilds(uuids, Run(trace).log);
  }
}
