/**
 What the SQL of Tables says about a serialised log: the guard, the next sequence
 number, the view and the violated unique keys, each decided by the order's state.
 */
module Queries {
  import opened Wrappers
  import opened Uuids
  import opened Tables
  import opened Ledger

  // ----- A query about one order reads only that order's rows ------------------

  lemma {:induction false} HistoryOfMembers(history: seq<HistoryRow>, order: Uuid, h: HistoryRow)
    ensures h in HistoryOf(history, order) <==> h in history && h.order == order
  {
    if history == [] {
    } else {
      HistoryOfMembers(history[..|history| - 1], order, h);
    }
  }

  lemma {:induction false} AcceptancesOfMembers(acceptances: seq<AcceptanceRow>, order: Uuid, a: AcceptanceRow)
    ensures a in AcceptancesOf(acceptances, order) <==> a in acceptances && a.order == order
  {
    if acceptances == [] {
    } else {
      AcceptancesOfMembers(acceptances[..|acceptances| - 1], order, a);
    }
  }

  lemma {:induction false} OutboxOfMembers(outbox: seq<OutboxRow>, order: Uuid, e: OutboxRow)
    ensures e in OutboxOf(outbox, order) <==> e in outbox && e.aggregate == order
  {
    if outbox == [] {
    } else {
      OutboxOfMembers(outbox[..|outbox| - 1], order, e);
    }
  }

  lemma {:induction false} AggregatesAreLocal(history: seq<HistoryRow>, order: Uuid)
    ensures MaxSequence(history, order) == MaxSequence(HistoryOf(history, order), order)
    ensures Latest(history, order) == Latest(HistoryOf(history, order), order)
  {
    if history == [] {
    } else {
      var before, last := history[..|history| - 1], history[|history| - 1];
      AggregatesAreLocal(before, order);
      if last.order == order {
        var h := HistoryOf(history, order);
        assert h[..|h| - 1] == HistoryOf(before, order);
      } else {
        assert HistoryOf(history, order) == HistoryOf(before, order);
      }
    }
  }

  /** The rows of one order in each of its states, spelled out. */
  lemma HistoryOfOrder(log: Log, order: Uuid)
    requires Serialised(log)
    ensures var m := LedgerOf(log);
            HistoryOf(Rows(log).history, order) ==
            if order !in m then []
            else
              var first := HistoryRow(m[order].create.historyId, order, 1, REQUESTED);
              if m[order].Requested? then [first]
              else [first, HistoryRow(m[order].accept.historyId, order, 2, ACCEPTED)]
  {
    RowsOfOrder(log, order);
    LedgerIsWellKeyed(log);
    assert ForOrder(Rows(log), order).history == Expected(LedgerOf(log), order).history;
  }

  lemma AcceptancesOfOrder(log: Log, order: Uuid)
    requires Serialised(log)
    ensures var m := LedgerOf(log);
            AcceptancesOf(Rows(log).acceptances, order) ==
            if order in m && m[order].Accepted?
            then [AcceptanceRow(m[order].accept.acceptanceId, order, m[order].accept.driver)]
            else []
  {
    RowsOfOrder(log, order);
    LedgerIsWellKeyed(log);
    assert ForOrder(Rows(log), order).acceptances == Expected(LedgerOf(log), order).acceptances;
  }

  // ----- Guard and sequence ----------------------------------------------------

  lemma StatusOfOrder(log: Log, order: Uuid)
    requires Serialised(log)
    ensures HasStatus(Rows(log).history, order, REQUESTED) <==> order in LedgerOf(log)
    ensures HasStatus(Rows(log).history, order, ACCEPTED) <==>
            order in LedgerOf(log) && LedgerOf(log)[order].Accepted?
  {
    var m, history := LedgerOf(log), Rows(log).history;
    HistoryOfOrder(log, order);
    forall h { HistoryOfMembers(history, order, h); }
    if order in m {
      var first := HistoryRow(m[order].create.historyId, order, 1, REQUESTED);
      assert first in HistoryOf(history, order);
      if m[order].Accepted? {
        var second := HistoryRow(m[order].accept.historyId, order, 2, ACCEPTED);
        assert second in HistoryOf(history, order);
      }
    }
  }

  lemma GuardMeansRequested(log: Log, order: Uuid)
    requires Serialised(log)
    ensures Guard(Rows(log), order) <==> order in LedgerOf(log) && LedgerOf(log)[order].Requested?
  {
    StatusOfOrder(log, order);
  }

  lemma GuardOfSnapshot(log: Log, snapshot: Log, call: Call)
    requires Serialised(log) && snapshot <= log && call.Accept?
    ensures Guard(Rows(snapshot), call.Order()) <==> Decide(LedgerOf(snapshot), call).Done?
  {
    assert snapshot == log[..|snapshot|];
    PrefixIsSerialised(log, |snapshot|);
    GuardMeansRequested(snapshot, call.Order());
  }

  function LatestRow(state: OrderState): HistoryRow {
    match state
    case Requested(c) => HistoryRow(c.historyId, c.order, 1, REQUESTED)
    case Accepted(c, a) => HistoryRow(a.historyId, a.order, 2, ACCEPTED)
  }

  lemma MaxOfOrder(log: Log, order: Uuid)
    requires Serialised(log)
    ensures MaxSequence(Rows(log).history, order) ==
            if order !in LedgerOf(log) then None
            else if LedgerOf(log)[order].Requested? then Some(1)
            else Some(2)
    ensures Latest(Rows(log).history, order) ==
            if order !in LedgerOf(log) then None
            else Some(LatestRow(LedgerOf(log)[order]))
  {
    var m, history := LedgerOf(log), Rows(log).history;
    AggregatesAreLocal(history, order);
    HistoryOfOrder(log, order);
    LedgerIsWellKeyed(log);
    if order in m {
      var first := HistoryRow(m[order].create.historyId, order, 1, REQUESTED);
      if m[order].Requested? {
        AggregatesOfOne(first);
      } else {
        AggregatesOfTwo(first, HistoryRow(m[order].accept.historyId, order, 2, ACCEPTED));
      }
    }
  }

  lemma AggregatesOfOne(h: HistoryRow)
    ensures MaxSequence([h], h.order) == Some(h.sequence) && Latest([h], h.order) == Some(h)
  {
    assert [h][..0] == [];
  }

  lemma AggregatesOfTwo(h1: HistoryRow, h2: HistoryRow)
    requires h1.order == h2.order && h1.sequence < h2.sequence
    ensures MaxSequence([h1, h2], h1.order) == Some(h2.sequence) && Latest([h1, h2], h1.order) == Some(h2)
  {
    AggregatesOfOne(h1);
    assert [h1, h2][..1] == [h1];
  }

  /** A guard that passes always computes the rows of the serial machine. */
  lemma EvaluatedRows(log: Log, call: Call)
    requires Serialised(log)
    ensures Evaluate(call, Rows(log)) ==
            if call.Create? || Decide(LedgerOf(log), call).Done? then SerialRows(call) else EMPTY
  {
    if call.Accept? {
      GuardMeansRequested(log, call.accept.order);
      MaxOfOrder(log, call.accept.order);
    }
  }

  // ----- The view --------------------------------------------------------------

  function StatusOf(state: OrderState): string {
    if state.Requested? then "requested" else "accepted"
  }

  function OrderOf(c: CreateCall): OrderRow {
    OrderRow(c.order, c.rider, c.trip, c.createdAt)
  }

  function ViewOfState(uuids: UuidText, state: OrderState): OrderView {
    ViewOf(uuids, OrderOf(state.create), StatusOf(state))
  }

  lemma OrdersOfOrder(log: Log, order: Uuid)
    requires Serialised(log)
    ensures OrdersWith(Rows(log).orders, order) ==
            if order in LedgerOf(log) then [OrderOf(LedgerOf(log)[order].create)] else []
  {
    RowsOfOrder(log, order);
    assert ForOrder(Rows(log), order).orders == Expected(LedgerOf(log), order).orders;
  }

  lemma JoinOne(uuids: UuidText, o: OrderRow, history: seq<HistoryRow>)
    ensures JoinAll(uuids, [o], history) == JoinStatus(uuids, o, history)
  {
    assert [o][..0] == [];
    assert JoinAll(uuids, [], history) == [];
  }

  lemma CurrentStatus(uuids: UuidText, log: Log, order: Uuid)
    requires Serialised(log) && order in LedgerOf(log)
    ensures var state := LedgerOf(log)[order];
            JoinStatus(uuids, OrderOf(state.create), Rows(log).history) == [ViewOfState(uuids, state)]
  {
    MaxOfOrder(log, order);
    LedgerIsWellKeyed(log);
    assert StatusCode(LatestRow(LedgerOf(log)[order]).status) == Some(StatusOf(LedgerOf(log)[order]));
  }

  // The view holds what this create recorded.
  predicate Shows(uuids: UuidText, v: OrderView, c: CreateCall) {
    && v.id == uuids.text(c.order)
    && v.rider == uuids.text(c.rider)
    && v.trip == c.trip
    && v.createdAt == c.createdAt
  }

  /**
   Reads are complete: one row for an order that exists, none otherwise. The row carries the
   id, rider, trip and time the order was created with, and its current status.
   */
  lemma ViewOfOrder(uuids: UuidText, log: Log, order: Uuid)
    requires Serialised(log)
    ensures ViewRows(uuids, Rows(log), order) ==
            if order in LedgerOf(log) then [ViewOfState(uuids, LedgerOf(log)[order])] else []
    ensures var rows, m := ViewRows(uuids, Rows(log), order), LedgerOf(log);
            order in m ==>
              && |rows| == 1
              && rows[0].id == uuids.text(order)
              && rows[0].rider == uuids.text(m[order].create.rider)
              && rows[0].trip == m[order].create.trip
              && rows[0].createdAt == m[order].create.createdAt
              && rows[0].status == (if m[order].Accepted? then "accepted" else "requested")
              && Shows(uuids, rows[0], m[order].create)
  {
    OrdersOfOrder(log, order);
    LedgerIsWellKeyed(log);
    if order in LedgerOf(log) {
      CurrentStatus(uuids, log, order);
      JoinOne(uuids, OrderOf(LedgerOf(log)[order].create), Rows(log).history);
    }
  }

  lemma GuardAgreesWithView(uuids: UuidText, log: Log, order: Uuid)
    requires Serialised(log)
    ensures Guard(Rows(log), order) <==>
            exists v :: v in ViewRows(uuids, Rows(log), order) && v.status == "requested"
  {
    GuardMeansRequested(log, order);
    ViewOfOrder(uuids, log, order);
    assert "requested" != "accepted" by { assert |"requested"| != |"accepted"|; }
    if Guard(Rows(log), order) {
      assert ViewOfState(uuids, LedgerOf(log)[order]) in ViewRows(uuids, Rows(log), order);
    }
  }

  /**
   The agreement rests on the reachable histories: with the two statuses written in
   the opposite order the view says "requested" and the guard refuses.
   */
  lemma GuardAndViewCanDisagree(uuids: UuidText, o: OrderRow, h1: Uuid, h2: Uuid)
    ensures var t := Tables([o], [HistoryRow(h1, o.id, 1, ACCEPTED), HistoryRow(h2, o.id, 2, REQUESTED)], [], []);
            !Guard(t, o.id) && ViewRows(uuids, t, o.id) == [ViewOf(uuids, o, "requested")]
  {
    var first, second := HistoryRow(h1, o.id, 1, ACCEPTED), HistoryRow(h2, o.id, 2, REQUESTED);
    assert first in [first, second];
    assert HasStatus([first, second], o.id, ACCEPTED);
    AggregatesOfTwo(first, second);
    OneOrder(o);
    JoinOne(uuids, o, [first, second]);
  }

  lemma OneOrder(o: OrderRow)
    ensures OrdersWith([o], o.id) == [o]
  {
    assert [o][..0] == [];
  }

  // ----- Unique keys -----------------------------------------------------------

  function LogIds(log: Log): set<Uuid> {
    if log == [] then {} else LogIds(log[..|log| - 1]) + log[|log| - 1].call.Generated()
  }

  lemma {:induction false} RowIdsAreLogIds(log: Log)
    requires Serialised(log)
    ensures forall h :: h in Rows(log).history ==> h.id in LogIds(log)
    ensures forall a :: a in Rows(log).acceptances ==> a.id in LogIds(log)
    ensures forall e :: e in Rows(log).outbox ==> e.id in LogIds(log)
  {
    if log == [] {
    } else {
      RowIdsAreLogIds(log[..|log| - 1]);
    }
  }

  lemma OnlyOrderKeysClash(log: Log, call: Call)
    requires Serialised(log)
    requires call.Generated() !! LogIds(log)
    ensures !Violates(HistoryPkey, SerialRows(call), Rows(log))
    ensures !Violates(AcceptancesPkey, SerialRows(call), Rows(log))
    ensures !Violates(OutboxPkey, SerialRows(call), Rows(log))
  {
    RowIdsAreLogIds(log);
  }

  lemma OrdersKeyClashes(log: Log, call: Call)
    requires Serialised(log)
    ensures Violates(OrdersPkey, SerialRows(call), Rows(log)) <==>
            call.Create? && call.Order() in LedgerOf(log)
  {
    if call.Create? {
      var row := SerialRows(call).orders[0];
      OrdersOfOrder(log, row.id);
      SomeOrderWith(Rows(log).orders, row.id);
    }
  }

  lemma {:induction false} SomeOrderWith(orders: seq<OrderRow>, id: Uuid)
    ensures OrdersWith(orders, id) != [] <==> exists o :: o in orders && o.id == id
  {
    if orders == [] {
    } else {
      var before, last := orders[..|orders| - 1], orders[|orders| - 1];
      SomeOrderWith(before, id);
      if last.id == id {
        assert last in orders;
      }
    }
  }

  lemma AcceptancesKeyClashes(log: Log, call: Call)
    requires Serialised(log)
    ensures Violates(AcceptancesOrderKey, SerialRows(call), Rows(log)) <==>
            call.Accept? && call.Order() in LedgerOf(log) && LedgerOf(log)[call.Order()].Accepted?
  {
    if call.Accept? {
      var row := SerialRows(call).acceptances[0];
      assert SerialRows(call).acceptances == [row];
      AcceptancesOfOrder(log, row.order);
      SomeAcceptanceOf(Rows(log).acceptances, row.order);
    }
  }

  lemma {:induction false} SomeAcceptanceOf(acceptances: seq<AcceptanceRow>, order: Uuid)
    ensures AcceptancesOf(acceptances, order) != [] <==> exists a :: a in acceptances && a.order == order
  {
    if acceptances == [] {
    } else {
      var before, last := acceptances[..|acceptances| - 1], acceptances[|acceptances| - 1];
      SomeAcceptanceOf(before, order);
      if last.order == order {
        assert last in acceptances;
      }
    }
  }

  lemma SequenceKeyClashes(log: Log, call: Call)
    requires Serialised(log)
    ensures Violates(HistoryOrderSequenceKey, SerialRows(call), Rows(log)) <==>
            && call.Order() in LedgerOf(log)
            && (call.Create? || LedgerOf(log)[call.Order()].Accepted?)
  {
    var row := SerialRows(call).history[0];
    assert SerialRows(call).history == [row];
    SequenceTaken(log, row.order, row.sequence);
  }

  ghost predicate Taken(history: seq<HistoryRow>, order: Uuid, n: int) {
    exists h :: h in history && h.order == order && h.sequence == n
  }

  lemma SequenceTaken(log: Log, order: Uuid, n: int)
    requires Serialised(log)
    ensures Taken(Rows(log).history, order, n) <==>
            order in LedgerOf(log) && (n == 1 || (n == 2 && LedgerOf(log)[order].Accepted?))
  {
    var m, h := LedgerOf(log), HistoryOf(Rows(log).history, order);
    SomeHistoryAt(Rows(log).history, order, n);
    HistoryOfOrder(log, order);
    if order !in m {
      assert h == [];
    } else if m[order].Requested? {
      assert |h| == 1 && h[0].sequence == 1 && h[0] in h;
    } else {
      assert |h| == 2 && h[0].sequence == 1 && h[1].sequence == 2 && h[0] in h && h[1] in h;
    }
  }

  lemma {:induction false} SomeHistoryAt(history: seq<HistoryRow>, order: Uuid, n: int)
    ensures (exists h :: h in HistoryOf(history, order) && h.sequence == n) <==>
            Taken(history, order, n)
  {
    if history == [] {
    } else {
      var before, last := history[..|history| - 1], history[|history| - 1];
      SomeHistoryAt(before, order, n);
      if last.order == order && last.sequence == n {
        assert last in history && last in HistoryOf(history, order);
      }
    }
  }

  /** The violated keys, exactly, of a call with fresh ids against a serialised log. */
  lemma ClashingKeys(log: Log, call: Call)
    requires Serialised(log)
    requires call.Generated() !! LogIds(log)
    ensures Violations(SerialRows(call), Rows(log)) ==
            match Decide(LedgerOf(log), call)
            case Exists => {OrdersPkey, HistoryOrderSequenceKey}
            case AlreadyAccepted => {AcceptancesOrderKey, HistoryOrderSequenceKey}
            case Absent => {}
            case Done => {}
  {
    OnlyOrderKeysClash(log, call);
    OrdersKeyClashes(log, call);
    AcceptancesKeyClashes(log, call);
    SequenceKeyClashes(log, call);
  }

  /**
   What a call comes to, from any old snapshot: only the order's state in the snapshot and
   its state now matter, and the sequence number is right however old the snapshot is.
   */
  lemma TryByLedger(log: Log, snapshot: Log, call: Call)
    requires Serialised(log) && snapshot <= log
    requires call.Generated() !! LogIds(log)
    ensures var was, now := Decide(LedgerOf(snapshot), call), Decide(LedgerOf(log), call);
            && Try(call, Rows(snapshot), Rows(log)) ==
               (if call.Accept? && !was.Done? then NoRows
                else if now.Done? then Write(SerialRows(call))
                else if call.Create? then Clash({OrdersPkey, HistoryOrderSequenceKey})
                else Clash({AcceptancesOrderKey, HistoryOrderSequenceKey}))
            && (call.Accept? && was.Done? ==> now.Done? || now.AlreadyAccepted?)
            && (call.Accept? && was.AlreadyAccepted? ==> now.AlreadyAccepted?)
  {
    var n := |snapshot|;
    assert snapshot == log[..n];
    PrefixIsSerialised(log, n);
    LedgerMovesForward(log, n);
    EvaluatedRows(snapshot, call);
    ClashingKeys(log, call);
    assert OrdersPkey in {OrdersPkey, HistoryOrderSequenceKey};
    assert AcceptancesOrderKey in {AcceptancesOrderKey, HistoryOrderSequenceKey};
  }
}
