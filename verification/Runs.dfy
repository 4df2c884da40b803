/**
 Runs of the services: what their answers and payloads are when any number of them share
 the database.

 Protocol and Guarantees know statements, Orders and Drivers know one call. Here a
 statement of a run is the one a service call issued, and the call's answer is the one
 its service gives when that statement ends.
 */
module Runs {
  import opened Wrappers
  import opened Uuids
  import opened Tables
  import opened Ledger
  import opened Queries
  import opened Protocol
  import opened Linearizability
  import opened Guarantees
  import opened Errors
  import opened Repositories
  import opened StaleReads
  import opened Replay
  import opened Orders
  import D = Drivers
  import Events

  // ----- The statements the services issue ---------------------------------------

  // The request handler leaves the row ids to the service, which generates them.
  ghost predicate IssuesCreate(lib: Lib, topic: string, input: RequestedInput, rq: Orders.Request, call: Call) {
    && input.statusHistoryId == "" && input.outboxId == ""
    && IssuedCreate(lib, topic, input, rq) == Some(call)
  }

  // The accept handler generates all three row ids.
  ghost predicate IssuesAccept(lib: Lib, topic: string, input: AcceptedInput, rq: D.AcceptRequest, call: Call) {
    && GeneratedIds(lib.uuids, input)
    && D.IssuedCall(lib, topic, input, rq) == Some(call)
  }

  ghost predicate GeneratedIds(uuids: UuidText, input: AcceptedInput) {
    exists acceptance, history, outbox ::
      Spells(uuids, input.acceptanceId, acceptance) && Spells(uuids, input.statusHistoryId, history)
      && Spells(uuids, input.outboxId, outbox)
  }

  predicate Spells(uuids: UuidText, text: string, id: Uuid) {
    text == uuids.text(id)
  }

  ghost predicate Issued(lib: Lib, call: Call) {
    || (exists topic, input, rq :: IssuesCreate(lib, topic, input, rq, call))
    || (exists topic, input, rq :: IssuesAccept(lib, topic, input, rq, call))
  }

  // Every statement of the run was issued by one of the two services.
  ghost predicate AllIssued(lib: Lib, s: State) {
    forall stmt :: stmt in s.begun ==> Issued(lib, s.begun[stmt].call)
  }

  lemma IssuedAnnounces(lib: Lib, call: Call)
    requires Lawful(lib.uuids) && Issued(lib, call)
    ensures Announces(lib.uuids, call)
  {
    if topic, input, rq :| IssuesCreate(lib, topic, input, rq, call) {
      RequestAnnouncesItself(lib.uuids, topic, input, rq, rq.weather.now);
    } else {
      var topic, input, rq :| IssuesAccept(lib, topic, input, rq, call);
      var acceptance, history, outbox :|
        Spells(lib.uuids, input.acceptanceId, acceptance) && Spells(lib.uuids, input.statusHistoryId, history)
        && Spells(lib.uuids, input.outboxId, outbox);
      D.AcceptAnnouncesItself(lib.uuids, topic, input, rq, acceptance, history, outbox);
    }
  }

  lemma RunAnnounces(lib: Lib, s: State)
    requires Lawful(lib.uuids) && AllIssued(lib, s)
    ensures forall stmt :: stmt in s.begun ==> Announces(lib.uuids, s.begun[stmt].call)
  {
    forall stmt | stmt in s.begun
      ensures Announces(lib.uuids, s.begun[stmt].call)
    {
      IssuedAnnounces(lib, s.begun[stmt].call);
    }
  }

  // ----- What the outbox tells -----------------------------------------------------

  /** In every run of the services the outbox alone rebuilds the other three tables. */
  lemma ServicesOutboxRebuilds(lib: Lib, trace: seq<Event>)
    requires Lawful(lib.uuids) && Valid(trace) && AllIssued(lib, Run(trace))
    ensures var t := Rows(Run(trace).log);
            && Rebuilds(lib.uuids, ReplayAll(lib.uuids, t.outbox), t)
            && (forall e :: e in t.outbox ==> SelfDescribing(lib.uuids, e))
  {
    RunAnnounces(lib, Run(trace));
    OutboxRebuildsTheTables(lib.uuids, trace);
  }

  // The order's accepted event decodes to this order, this row's id and this driver.
  ghost predicate EventNamesDriver(uuids: UuidText, row: OutboxRow, order: Uuid, driver: Uuid) {
    var e := Events.Unmarshal(row.payload);
    && e.Some? && e.value.OrderAccepted?
    && e.value.eventId == uuids.text(row.id)
    && uuids.cast(e.value.orderId) == Some(order)
    && uuids.cast(e.value.driverId) == Some(driver)
  }

  /** The acceptance and the accepted event of a won order name one driver: the winner's. */
  lemma WinnersEventNamesItsDriver(lib: Lib, trace: seq<Event>, stmt: nat, order: Uuid)
    requires Lawful(lib.uuids) && Valid(trace) && Won(Run(trace), stmt, order)
    requires Issued(lib, Run(trace).begun[stmt].call)
    ensures var s := Run(trace);
            var t, driver := ForOrder(Rows(s.log), order), s.begun[stmt].call.accept.driver;
            && |t.acceptances| == 1 && t.acceptances[0].driver == driver
            && |t.outbox| == 2 && EventNamesDriver(lib.uuids, t.outbox[1], order, driver)
  {
    WinnerOwnsTheRows(trace, order);
    IssuedAnnounces(lib, Run(trace).begun[stmt].call);
  }

  // ----- What the callers are told ---------------------------------------------------

  // The answer to an accept whose statement ended with this outcome.
  predicate AcceptAnswer(lib: Lib, id: string, outcome: Outcome, r: Result<string>) {
    match outcome
    case Applied => r == Ok(id)
    case ZeroRows => r.Err? && Says(r.error, 409, "ORDER_NOT_ACCEPTABLE")
    case Violated(key) =>
      r.Err? && if D.NamesAcceptanceKey(lib, key) then Says(r.error, 409, "ORDER_ALREADY_ACCEPTED")
                else AbortStatus(Some(r.error)) == 500
    case Aborted => false
  }

  // Statement `stmt` of the run is the one this accept issued, and ends under its weather.
  ghost predicate AcceptEnds(
    lib: Lib, trace: seq<Event>, stmt: nat, topic: string, input: AcceptedInput, rq: D.AcceptRequest) {
    && Faithful(lib) && Valid(trace) && Ends(Run(trace), stmt, rq.weather) && rq.weather.fault.Up?
    && lib.uuids.valid(input.orderId) && lib.uuids.valid(input.driverId)
    && D.IssuedCall(lib, topic, input, rq) == Some(Run(trace).begun[stmt].call)
  }

  lemma AcceptInFlightReaches(
    lib: Lib, trace: seq<Event>, stmt: nat, topic: string, input: AcceptedInput, rq: D.AcceptRequest)
    requires AcceptEnds(lib, trace, stmt, topic, input, rq)
    ensures D.Reaches(lib, Run(trace).log, topic, input, rq)
  {
    RunKeepsInv(trace);
  }

  lemma AcceptOutcomes(trace: seq<Event>, stmt: nat)
    requires Valid(trace) && InFlight(Run(trace), stmt) && Run(trace).begun[stmt].call.Accept?
    ensures var s := Run(trace);
            var a, order := AttemptOf(s, stmt), s.begun[stmt].call.Order();
            var guard := Guard(Rows(s.begun[stmt].snapshot), order);
            && (a.Clash? <==> guard && exists w :: Won(s, w, order))
            && (a.Clash? ==> a.keys == {AcceptancesOrderKey, HistoryOrderSequenceKey})
            && (a.NoRows? <==> !guard)
  {
    var s := Run(trace);
    RunKeepsInv(trace);
    AttemptByLedger(s, stmt);
    GuardOfSnapshot(s.log, s.begun[stmt].snapshot, s.begun[stmt].call);
    if Guard(Rows(s.begun[stmt].snapshot), s.begun[stmt].call.Order()) {
      LostAcceptRace(trace, stmt);
    }
  }

  lemma AnswerOfAttempt(lib: Lib, s: State, stmt: nat, id: string, w: Weather)
    requires Faithful(lib) && Ends(s, stmt, w) && w.fault.Up?
    requires var a := AttemptOf(s, stmt);
             a.Clash? ==> a.keys == {AcceptancesOrderKey, HistoryOrderSequenceKey}
    ensures Enabled(s, EventOf(s, stmt, w))
    ensures var s', reply := Step(s, EventOf(s, stmt, w)),
                             D.ReplyOf(lib, s.log, id, s.begun[stmt].call, AttemptOf(s, stmt), w);
            reply.0 == s'.log && AcceptAnswer(lib, id, s'.done[stmt].outcome, reply.1)
  {
    if AttemptOf(s, stmt).Clash? {
      assert AcceptancesOrderKey in AttemptOf(s, stmt).keys;
      D.ReportedKey(lib, w.choose(AttemptOf(s, stmt).keys));
    }
  }

  /**
   In every run an accept is answered by what its statement came to, and leaves the log the
   protocol leaves. It loses the race exactly when its guard passed and another statement
   has won its order by now.
   */
  lemma AcceptIsAnsweredByItsStatement(
    lib: Lib, trace: seq<Event>, stmt: nat, topic: string, input: AcceptedInput, rq: D.AcceptRequest)
    requires AcceptEnds(lib, trace, stmt, topic, input, rq)
    ensures Enabled(Run(trace), EventOf(Run(trace), stmt, rq.weather))
    ensures var s := Run(trace);
            var s', reply := Step(s, EventOf(s, stmt, rq.weather)), D.AcceptReply(lib, s.log, topic, input, None, rq);
            var outcome, order := s'.done[stmt].outcome, s.begun[stmt].call.Order();
            && reply.0 == s'.log
            && AcceptAnswer(lib, input.orderId, outcome, reply.1)
            && (outcome.Violated? <==> Guard(Rows(s.begun[stmt].snapshot), order) && exists w :: Won(s, w, order))
            && (outcome.ZeroRows? <==> !Guard(Rows(s.begun[stmt].snapshot), order))
  {
    var s := Run(trace);
    ExecutionIsAStep(lib, s, stmt, rq.weather);
    AcceptOutcomes(trace, stmt);
    D.ReplyByAttempt(lib, s.log, topic, input, rq);
    AnswerOfAttempt(lib, s, stmt, input.orderId, rq.weather);
  }

  /** In every run a request is answered by what its statement came to: created, or the conflict of a duplicate. */
  lemma RequestIsAnsweredByItsStatement(
    lib: Lib, trace: seq<Event>, stmt: nat, topic: string, input: RequestedInput, rq: Orders.Request)
    requires Faithful(lib) && Valid(trace) && Ends(Run(trace), stmt, rq.weather) && rq.weather.fault.Up?
    requires !Blank(input.id) && !Blank(input.rider)
    requires IssuedCreate(lib, topic, input, rq) == Some(Run(trace).begun[stmt].call)
    ensures Enabled(Run(trace), EventOf(Run(trace), stmt, rq.weather))
    ensures var s := Run(trace);
            var s', reply := Step(s, EventOf(s, stmt, rq.weather)), RequestedReply(lib, s.log, topic, input, rq);
            && reply.0 == s'.log
            && if HasOrder(Rows(s.log), s.begun[stmt].call.Order())
               then s'.done[stmt].outcome.Violated?
                    && reply.1.Err? && Says(reply.1.error, 409, "ORDER_ALREADY_EXISTS")
               else s'.done[stmt].outcome.Applied? && reply.1 == Ok(OrderOutput(input.id, input.rider, input.trip))
  {
    var s := Run(trace);
    RunKeepsInv(trace);
    ExecutionIsAStep(lib, s, stmt, rq.weather);
    DuplicateIsConflict(lib, s.log, topic, input, rq);
    DuplicateCreate(trace, stmt);
  }

  // ----- A race that is lost -----------------------------------------------------------

  // A create and two accepts of its order, with ids of their own.
  ghost predicate Rivals(c: CreateCall, a: AcceptCall, b: AcceptCall) {
    && a.order == c.order && b.order == c.order
    && Create(c).Generated() !! Accept(a).Generated()
    && Create(c).Generated() !! Accept(b).Generated()
    && Accept(a).Generated() !! Accept(b).Generated()
  }

  // The order is created, and both accepts take their snapshot before either ends.
  function BothBegun(c: CreateCall, a: AcceptCall, b: AcceptCall): seq<Event> {
    [Begin(0, Create(c)), Finish(0, OrdersPkey), Begin(1, Accept(a)), Begin(2, Accept(b))]
  }

  function FirstWins(c: CreateCall, a: AcceptCall, b: AcceptCall): seq<Event> {
    BothBegun(c, a, b) + [Finish(1, OrdersPkey)]
  }

  lemma CreateRuns(c: CreateCall)
    ensures var trace := [Begin(0, Create(c)), Finish(0, OrdersPkey)];
            && Valid(trace)
            && Run(trace) == State(RequestedLog(c), map[0 := Statement(Create(c), [], 0)],
                                   map[0 := Reply(Applied, 1)], 2)
  {
    var begin, finish := Begin(0, Create(c)), Finish(0, OrdersPkey);
    PushEvent([], begin);
    assert [] + [begin] == [begin];
    RunKeepsInv([begin]);
    AttemptByLedger(Run([begin]), 0);
    PushEvent([begin], finish);
    assert [begin] + [finish] == [begin, finish];
    assert [] + [Entry(Create(c), RequestedRows(c))] == RequestedLog(c);
  }

  lemma BothBegin(c: CreateCall, a: AcceptCall, b: AcceptCall)
    requires Rivals(c, a, b)
    ensures Valid(BothBegun(c, a, b))
    ensures Run(BothBegun(c, a, b)) ==
            State(RequestedLog(c),
                  map[0 := Statement(Create(c), [], 0), 1 := Statement(Accept(a), RequestedLog(c), 2),
                      2 := Statement(Accept(b), RequestedLog(c), 3)],
                  map[0 := Reply(Applied, 1)], 4)
  {
    var created := [Begin(0, Create(c)), Finish(0, OrdersPkey)];
    var begin1, begin2 := Begin(1, Accept(a)), Begin(2, Accept(b));
    CreateRuns(c);
    PushEvent(created, begin1);
    PushEvent(created + [begin1], begin2);
    assert BothBegun(c, a, b) == created + [begin1] + [begin2];
  }

  lemma FirstFinishes(c: CreateCall, a: AcceptCall, b: AcceptCall)
    requires Rivals(c, a, b)
    ensures Valid(FirstWins(c, a, b))
    ensures var s := Run(FirstWins(c, a, b));
            && s.log == AcceptedLog(c, a)
            && s.begun == Run(BothBegun(c, a, b)).begun
            && s.done == map[0 := Reply(Applied, 1), 1 := Reply(Applied, 4)]
  {
    var trace := BothBegun(c, a, b);
    BothBegin(c, a, b);
    ShortLogs(c, a);
    RunKeepsInv(trace);
    AttemptByLedger(Run(trace), 1);
    PushEvent(trace, Finish(1, OrdersPkey));
  }

  lemma SecondClashes(c: CreateCall, a: AcceptCall, b: AcceptCall)
    requires Rivals(c, a, b)
    ensures Valid(FirstWins(c, a, b))
    ensures var s := Run(FirstWins(c, a, b));
            && s.log == AcceptedLog(c, a)
            && 1 in s.done && s.done[1].outcome == Applied
            && InFlight(s, 2) && s.begun[2] == Statement(Accept(b), RequestedLog(c), 3)
            && AttemptOf(s, 2) == Clash({AcceptancesOrderKey, HistoryOrderSequenceKey})
  {
    BothBegin(c, a, b);
    FirstFinishes(c, a, b);
    ShortLogs(c, a);
    RunKeepsInv(FirstWins(c, a, b));
    AttemptByLedger(Run(FirstWins(c, a, b)), 2);
  }

  /** The race is lost in a run, with either key reported, for every create and two accepts of its order. */
  lemma RaceCanBeLost(c: CreateCall, a: AcceptCall, b: AcceptCall, key: UniqueKey)
    requires Rivals(c, a, b) && key in {AcceptancesOrderKey, HistoryOrderSequenceKey}
    ensures var trace := FirstWins(c, a, b) + [Finish(2, key)];
            && Valid(trace)
            && Run(trace).log == AcceptedLog(c, a)
            && 1 in Run(trace).done && Run(trace).done[1].outcome == Applied
            && 2 in Run(trace).done && Run(trace).done[2].outcome == Violated(key)
  {
    SecondClashes(c, a, b);
    PushEvent(FirstWins(c, a, b), Finish(2, key));
  }

  /**
   The answer documented for it, 409 ORDER_ALREADY_ACCEPTED, is then given exactly when the
   acceptance key is the one reported and the driver returns it unwrapped; otherwise the
   loser of this run gets a 500.
   */
  lemma LoserOfTheRace(
    lib: Lib, c: CreateCall, a: AcceptCall, b: AcceptCall, topic: string, input: AcceptedInput, rq: D.AcceptRequest)
    requires Faithful(lib) && Rivals(c, a, b)
    requires Picks(rq.weather) && rq.weather.fault.Up? && rq.weather.snapshot == RequestedLog(c)
    requires lib.uuids.valid(input.orderId) && lib.uuids.valid(input.driverId)
    requires D.IssuedCall(lib, topic, input, rq) == Some(Accept(b))
    ensures var key := rq.weather.choose({AcceptancesOrderKey, HistoryOrderSequenceKey});
            var (after, r) := D.AcceptReply(lib, AcceptedLog(c, a), topic, input, None, rq);
            && after == AcceptedLog(c, a)
            && r.Err?
            && if key == AcceptancesOrderKey && lib.report(key).Pg? then Says(r.error, 409, "ORDER_ALREADY_ACCEPTED")
               else AbortStatus(Some(r.error)) == 500
  {
    SecondClashes(c, a, b);
    AcceptIsAnsweredByItsStatement(lib, FirstWins(c, a, b), 2, topic, input, rq);
  }

  // ----- A run with an early refusal ------------------------------------------------------

  function DbMoves(trace: seq<Event>): seq<Move> {
    if trace == [] then [] else DbMoves(trace[..|trace| - 1]) + [Db(trace[|trace| - 1])]
  }

  lemma PushMove(uuids: UuidText, moves: seq<Move>, m: Move)
    requires Possible(uuids, moves) && CanMove(Reached(uuids, moves), m)
    ensures Possible(uuids, moves + [m]) && Reached(uuids, moves + [m]) == After(Reached(uuids, moves), m)
  {
    assert (moves + [m])[..|moves|] == moves;
  }

  /** Every run of the plain protocol is one of the system, with nothing cached and nothing refused early. */
  lemma {:induction false} PlainRunsArePossible(uuids: UuidText, trace: seq<Event>)
    requires Valid(trace)
    ensures Possible(uuids, DbMoves(trace))
    ensures Reached(uuids, DbMoves(trace)) == System(uuids, Run(trace), map[], map[])
  {
    if trace == [] {
    } else {
      PlainRunsArePossible(uuids, trace[..|trace| - 1]);
      PushMove(uuids, DbMoves(trace[..|trace| - 1]), Db(trace[|trace| - 1]));
    }
  }

  // A system that has seen this run and can serve the order as accepted under the text of its id.
  ghost predicate ServesAccepted(s: System, store: State, id: string) {
    && s.store == store && s.early == map[]
    && exists view :: Servable(s, id, view) && view.status == "accepted"
  }

  lemma AcceptedViewIsLoaded(uuids: UuidText, c: CreateCall, a: AcceptCall, b: AcceptCall)
    returns (moves: seq<Move>)
    requires Lawful(uuids) && Rivals(c, a, b)
    ensures Possible(uuids, moves) && Reached(uuids, moves).uuids == uuids
    ensures Valid(FirstWins(c, a, b))
    ensures ServesAccepted(Reached(uuids, moves), Run(FirstWins(c, a, b)), uuids.text(c.order))
  {
    var trace, id := FirstWins(c, a, b), uuids.text(c.order);
    FirstFinishes(c, a, b);
    ShortLogs(c, a);
    PlainRunsArePossible(uuids, trace);
    assert uuids.cast(id) == Some(c.order);
    LoadsAreStored(Reached(uuids, DbMoves(trace)), id);
    PushMove(uuids, DbMoves(trace), Load(id));
    moves := DbMoves(trace) + [Load(id)];
  }

  /**
   Early refusals happen: once an order is accepted and its view loaded, an accept by anyone
   else can be answered from the cache, with no statement of its own.
   */
  lemma EarlyRefusalHappens(uuids: UuidText, c: CreateCall, a: AcceptCall, b: AcceptCall, d: AcceptCall)
    returns (moves: seq<Move>)
    requires Lawful(uuids) && Rivals(c, a, b) && d.order == c.order
    requires Accept(d).Generated() !! Create(c).Generated()
    requires Accept(d).Generated() !! Accept(a).Generated() && Accept(d).Generated() !! Accept(b).Generated()
    ensures Possible(uuids, moves)
    ensures var s := Reached(uuids, moves);
            && s.store.log == AcceptedLog(c, a)
            && 3 in s.early && s.early[3].call == Accept(d) && 3 !in s.store.begun
  {
    var id := uuids.text(c.order);
    moves := AcceptedViewIsLoaded(uuids, c, a, b);
    BothBegin(c, a, b);
    FirstFinishes(c, a, b);
    var s := Reached(uuids, moves);
    var view :| Servable(s, id, view) && view.status == "accepted";
    var early := Early(3, Accept(d), id, view);
    assert CanMove(s, early) by {
      assert uuids.cast(id) == Some(c.order);
      assert |"accepted"| != |"requested"|;
    }
    PushMove(uuids, moves, early);
    moves := moves + [early];
  }
}
