/** What holds of the tables after any run, however the statements interleave. */
module Guarantees {
  import opened Uuids
  import opened Tables
  import opened Ledger
  import opened Queries
  import opened Protocol
  import opened Linearizability

  // ----- Histories -------------------------------------------------------------

  /** Whatever snapshots the sequence numbers came from, an order's history is one of these. */
  lemma HistoryIsRequestedThenAccepted(trace: seq<Event>, order: Uuid)
    requires Valid(trace)
    ensures var h := HistoryOf(Rows(Run(trace).log).history, order);
            && |h| <= 2 && (h != [] <==> HasOrder(Rows(Run(trace).log), order))
            && (|h| >= 1 ==> h[0].sequence == 1 && h[0].status == 1)
            && (|h| == 2 ==> h[1].sequence == 2 && h[1].status == 3)
  {
    RunKeepsInv(trace);
    HistoryOfOrder(Run(trace).log, order);
    HasOrderMeansInLedger(Run(trace).log, order);
  }

  /** In every snapshot of every run the guard of the write and the view of the readers agree. */
  lemma GuardAgreesInEverySnapshot(uuids: UuidText, trace: seq<Event>, n: nat, order: Uuid)
    requires Valid(trace) && n <= |Run(trace).log|
    ensures var t := Rows(Run(trace).log[..n]);
            Guard(t, order) <==> exists v :: v in ViewRows(uuids, t, order) && v.status == "requested"
  {
    RunKeepsInv(trace);
    PrefixIsSerialised(Run(trace).log, n);
    GuardAgreesWithView(uuids, Run(trace).log[..n], order);
  }

  ghost predicate SequencesInCommitOrder(history: seq<HistoryRow>) {
    forall i, j :: 0 <= i < j < |history| && history[i].order == history[j].order ==>
      history[i].sequence < history[j].sequence
  }

  lemma EarlierSequences(log: Log, call: Call, i: nat)
    requires Serialised(log) && Decide(LedgerOf(log), call).Done?
    requires i < |Rows(log).history| && Rows(log).history[i].order == call.Order()
    ensures Rows(log).history[i].sequence < SerialRows(call).history[0].sequence
  {
    var history := Rows(log).history;
    HistoryOfOrder(log, call.Order());
    HistoryOfMembers(history, call.Order(), history[i]);
  }

  lemma {:induction false} SequencesFollowLog(log: Log)
    requires Serialised(log)
    ensures SequencesInCommitOrder(Rows(log).history)
  {
    if log == [] {
    } else {
      var before, call := log[..|log| - 1], log[|log| - 1].call;
      var earlier, history := Rows(before).history, Rows(log).history;
      SequencesFollowLog(before);
      assert history == earlier + SerialRows(call).history;
      forall i, j | 0 <= i < j < |history| && history[i].order == history[j].order
        ensures history[i].sequence < history[j].sequence
      {
        assert history[i] == earlier[i];
        if j < |earlier| {
          assert history[j] == earlier[j];
        } else {
          EarlierSequences(before, call, i);
        }
      }
    }
  }

  lemma SequenceOrderIsCommitOrder(trace: seq<Event>)
    requires Valid(trace)
    ensures SequencesInCommitOrder(Rows(Run(trace).log).history)
  {
    RunKeepsInv(trace);
    SequencesFollowLog(Run(trace).log);
  }

  // ----- Conservation ----------------------------------------------------------

  ghost predicate Balanced(t: Tables) {
    |t.history| == |t.outbox| == |t.orders| + |t.acceptances|
  }

  ghost predicate HasOrder(t: Tables, order: Uuid) {
    exists o :: o in t.orders && o.id == order
  }

  ghost predicate NoOrphans(t: Tables) {
    && (forall h :: h in t.history ==> HasOrder(t, h.order))
    && (forall a :: a in t.acceptances ==> HasOrder(t, a.order))
    && (forall e :: e in t.outbox ==> HasOrder(t, e.aggregate))
  }

  // Events of one order: the request first, then the acceptance.
  ghost predicate EventsInOrder(log: Log) {
    var m, outbox := LedgerOf(log), Rows(log).outbox;
    forall i, j :: 0 <= i < j < |outbox| && outbox[i].aggregate == outbox[j].aggregate ==>
      && outbox[i].aggregate in m
      && m[outbox[i].aggregate].Accepted?
      && outbox[i].id == m[outbox[i].aggregate].create.outboxId
      && outbox[j].id == m[outbox[i].aggregate].accept.outboxId
  }

  lemma HasOrderMeansInLedger(log: Log, order: Uuid)
    requires Serialised(log)
    ensures HasOrder(Rows(log), order) <==> order in LedgerOf(log)
  {
    OrdersOfOrder(log, order);
    SomeOrderWith(Rows(log).orders, order);
  }

  lemma {:induction false} LogIsBalanced(log: Log)
    requires Serialised(log)
    ensures Balanced(Rows(log)) && NoOrphans(Rows(log))
  {
    if log == [] {
    } else {
      var before, call := log[..|log| - 1], log[|log| - 1].call;
      var t, t' := Rows(before), Rows(log);
      LogIsBalanced(before);
      forall order | HasOrder(t, order)
        ensures HasOrder(t', order)
      {
        var o :| o in t.orders && o.id == order;
        assert o in t'.orders;
      }
      HasOrderMeansInLedger(log, call.Order());
    }
  }

  lemma EarlierEvents(log: Log, call: Call, i: nat)
    requires Serialised(log) && Decide(LedgerOf(log), call).Done?
    requires i < |Rows(log).outbox| && Rows(log).outbox[i].aggregate == call.Order()
    ensures call.Accept? && call.Order() in LedgerOf(log)
    ensures Rows(log).outbox[i].id == LedgerOf(log)[call.Order()].create.outboxId
  {
    var outbox, order := Rows(log).outbox, call.Order();
    EventsOfOrder(log, order);
    OutboxOfMembers(outbox, order, outbox[i]);
  }

  lemma {:induction false} EventsFollowLog(log: Log)
    requires Serialised(log)
    ensures EventsInOrder(log)
  {
    if log == [] {
    } else {
      var before, call := log[..|log| - 1], log[|log| - 1].call;
      var m, m' := LedgerOf(before), LedgerOf(log);
      var earlier, outbox := Rows(before).outbox, Rows(log).outbox;
      EventsFollowLog(before);
      assert outbox[..|earlier|] == earlier && |outbox| == |earlier| + 1;
      forall i, j | 0 <= i < j < |outbox| && outbox[i].aggregate == outbox[j].aggregate
        ensures outbox[i].aggregate in m' && m'[outbox[i].aggregate].Accepted?
        ensures outbox[i].id == m'[outbox[i].aggregate].create.outboxId
        ensures outbox[j].id == m'[outbox[i].aggregate].accept.outboxId
      {
        assert outbox[i] == earlier[i];
        if j < |earlier| {
          assert outbox[j] == earlier[j];
        } else {
          EarlierEvents(before, call, i);
        }
      }
    }
  }

  lemma EventsOfOrder(log: Log, order: Uuid)
    requires Serialised(log)
    ensures var m := LedgerOf(log);
            OutboxOf(Rows(log).outbox, order) ==
            if order !in m then []
            else RequestedRows(m[order].create).outbox +
                 if m[order].Accepted? then AcceptedRowsAt(m[order].accept, 2).outbox else []
  {
    RowsOfOrder(log, order);
    assert ForOrder(Rows(log), order).outbox == Expected(LedgerOf(log), order).outbox;
  }

  /** Every order has its event and every event its order, over all runs. */
  lemma RowsAreConserved(trace: seq<Event>)
    requires Valid(trace)
    ensures Balanced(Rows(Run(trace).log)) && NoOrphans(Rows(Run(trace).log))
    ensures EventsInOrder(Run(trace).log)
  {
    RunKeepsInv(trace);
    LogIsBalanced(Run(trace).log);
    EventsFollowLog(Run(trace).log);
  }

  // ----- One winner per order --------------------------------------------------

  // Statement `stmt` accepted `order` and its rows were committed.
  ghost predicate Won(s: State, stmt: nat, order: Uuid) {
    && Completed(s, stmt)
    && s.done[stmt].outcome.Applied?
    && s.begun[stmt].call.Accept?
    && s.begun[stmt].call.accept.order == order
  }

  lemma {:induction false} AcceptedStays(ops: seq<Op>, i: nat)
    requires Legal(ops) && i < |ops| && ops[i].outcome.Applied? && ops[i].call.Accept?
    ensures ops[i].call.accept.order in SerialLedger(ops)
    ensures SerialLedger(ops)[ops[i].call.accept.order].Accepted?
    ensures SerialLedger(ops)[ops[i].call.accept.order].accept == ops[i].call.accept
    decreases |ops|
  {
    if i == |ops| - 1 {
    } else {
      AcceptedStays(ops[..|ops| - 1], i);
    }
  }

  lemma {:induction false} LegalPrefix(ops: seq<Op>, n: nat)
    requires Legal(ops) && n <= |ops|
    ensures Legal(ops[..n])
    decreases |ops|
  {
    if n < |ops| {
      assert ops[..|ops| - 1][..n] == ops[..n];
      LegalPrefix(ops[..|ops| - 1], n);
    } else {
      assert ops[..n] == ops;
    }
  }

  lemma OpsHaveOneWinner(ops: seq<Op>, i: nat, j: nat)
    requires Legal(ops) && i < j < |ops|
    requires ops[i].outcome.Applied? && ops[i].call.Accept?
    requires ops[j].outcome.Applied? && ops[j].call.Accept?
    ensures ops[i].call.accept.order != ops[j].call.accept.order
  {
    LegalPrefix(ops, j + 1);
    var upTo := ops[..j + 1];
    assert upTo[..|upTo| - 1] == ops[..j];
    AcceptedStays(ops[..j], i);
  }

  lemma {:induction false} AcceptedHasOp(ops: seq<Op>, order: Uuid)
    requires Legal(ops) && order in SerialLedger(ops) && SerialLedger(ops)[order].Accepted?
    ensures exists k :: 0 <= k < |ops| && ops[k].outcome.Applied?
                        && ops[k].call == Accept(SerialLedger(ops)[order].accept) && ops[k].call.Order() == order
  {
    var before, last := ops[..|ops| - 1], ops[|ops| - 1];
    if order in SerialLedger(before) && SerialLedger(before)[order].Accepted? {
      AcceptedHasOp(before, order);
      var k :| 0 <= k < |before| && before[k].outcome.Applied?
        && before[k].call == Accept(SerialLedger(before)[order].accept) && before[k].call.Order() == order;
      assert ops[k] == before[k];
    } else {
      assert ops[|ops| - 1].call == Accept(SerialLedger(ops)[order].accept);
    }
  }

  // Statement `stmt` created `order` and its rows were committed.
  ghost predicate Made(s: State, stmt: nat, order: Uuid) {
    && Completed(s, stmt)
    && s.done[stmt].outcome.Applied?
    && s.begun[stmt].call.Create?
    && s.begun[stmt].call.create.order == order
  }

  lemma {:induction false} RequestedStays(ops: seq<Op>, i: nat)
    requires Legal(ops) && i < |ops| && ops[i].outcome.Applied? && ops[i].call.Create?
    ensures ops[i].call.create.order in SerialLedger(ops)
    ensures SerialLedger(ops)[ops[i].call.create.order].create == ops[i].call.create
    decreases |ops|
  {
    if i == |ops| - 1 {
    } else {
      RequestedStays(ops[..|ops| - 1], i);
    }
  }

  lemma {:induction false} RequestedHasOp(ops: seq<Op>, order: Uuid)
    requires Legal(ops) && order in SerialLedger(ops)
    ensures exists k :: 0 <= k < |ops| && ops[k].outcome.Applied?
                        && ops[k].call == Create(SerialLedger(ops)[order].create) && ops[k].call.Order() == order
  {
    var before, last := ops[..|ops| - 1], ops[|ops| - 1];
    if order in SerialLedger(before) {
      RequestedHasOp(before, order);
      var k :| 0 <= k < |before| && before[k].outcome.Applied?
        && before[k].call == Create(SerialLedger(before)[order].create) && before[k].call.Order() == order;
      assert ops[k] == before[k];
    } else {
      assert ops[|ops| - 1].call == Create(SerialLedger(ops)[order].create);
    }
  }

  // The order, its first status and its requested event are all this call's own rows.
  ghost predicate RowsOfMaker(t: Tables, c: CreateCall) {
    && t.orders == [OrderRow(c.order, c.rider, c.trip, c.createdAt)]
    && |t.history| >= 1 && t.history[0] == HistoryRow(c.historyId, c.order, 1, REQUESTED)
    && |t.outbox| >= 1 && t.outbox[0] == OutboxRow(c.outboxId, "order", c.order, c.eventType, 1, c.payload)
  }

  lemma RequestedRowsOfOrder(log: Log, order: Uuid)
    requires Serialised(log)
    ensures var m, t := LedgerOf(log), ForOrder(Rows(log), order);
            if order in m then RowsOfMaker(t, m[order].create) else t == EMPTY
  {
    RowsOfOrder(log, order);
    LedgerIsWellKeyed(log);
  }

  lemma MakerIsInLedger(trace: seq<Event>, stmt: nat, order: Uuid)
    requires Valid(trace) && Made(Run(trace), stmt, order)
    ensures var s := Run(trace); var m := LedgerOf(s.log);
            order in m && m[order].create == s.begun[stmt].call.create
  {
    var s, ops := Run(trace), Linear(trace, Run(trace).done);
    EveryRunIsLinearizable(trace);
    assert Listed(ops, stmt);
    var k :| 0 <= k < |ops| && ops[k].stmt == stmt;
    RequestedStays(ops, k);
  }

  lemma RequestedHasMaker(trace: seq<Event>, order: Uuid)
    requires Valid(trace) && order in LedgerOf(Run(trace).log)
    ensures exists stmt :: Made(Run(trace), stmt, order)
  {
    var s, ops := Run(trace), Linear(trace, Run(trace).done);
    EveryRunIsLinearizable(trace);
    RequestedHasOp(ops, order);
    var k :| 0 <= k < |ops| && ops[k].outcome.Applied?
      && ops[k].call == Create(LedgerOf(s.log)[order].create) && ops[k].call.Order() == order;
    assert Made(s, ops[k].stmt, order);
  }

  /** An order has rows exactly when a create of it was committed, and they start with that call's rows. */
  lemma MakerOwnsTheRows(trace: seq<Event>, order: Uuid)
    requires Valid(trace)
    ensures var s := Run(trace); var t := ForOrder(Rows(s.log), order);
            if exists stmt :: Made(s, stmt, order) then
              forall stmt :: Made(s, stmt, order) ==> RowsOfMaker(t, s.begun[stmt].call.create)
            else t == EMPTY
  {
    var s := Run(trace);
    RunKeepsInv(trace);
    RequestedRowsOfOrder(s.log, order);
    forall stmt | Made(s, stmt, order)
      ensures RowsOfMaker(ForOrder(Rows(s.log), order), s.begun[stmt].call.create)
    {
      MakerIsInLedger(trace, stmt, order);
    }
    if order in LedgerOf(s.log) {
      RequestedHasMaker(trace, order);
    }
  }

  /** However many drivers race, at most one statement wins an order. */
  lemma AtMostOneWinner(trace: seq<Event>, a: nat, b: nat, order: Uuid)
    requires Valid(trace) && Won(Run(trace), a, order) && Won(Run(trace), b, order)
    ensures a == b
  {
    EveryRunIsLinearizable(trace);
    var s, ops := Run(trace), Linear(trace, Run(trace).done);
    assert Listed(ops, a) && Listed(ops, b);
    var i :| 0 <= i < |ops| && ops[i].stmt == a;
    var j :| 0 <= j < |ops| && ops[j].stmt == b;
    if i < j {
      OpsHaveOneWinner(ops, i, j);
    } else if j < i {
      OpsHaveOneWinner(ops, j, i);
    }
  }

  /** The acceptance, the status-3 row and the accepted event of an order are the winner's own rows. */
  ghost predicate RowsOfWinner(t: Tables, a: AcceptCall) {
    && t.acceptances == [AcceptanceRow(a.acceptanceId, a.order, a.driver)]
    && |t.history| == 2 && t.history[1] == HistoryRow(a.historyId, a.order, 2, ACCEPTED)
    && |t.outbox| == 2 && t.outbox[1] == OutboxRow(a.outboxId, "order", a.order, a.eventType, 1, a.payload)
  }

  lemma AcceptedRowsOfOrder(log: Log, order: Uuid)
    requires Serialised(log) && order in LedgerOf(log) && LedgerOf(log)[order].Accepted?
    ensures RowsOfWinner(ForOrder(Rows(log), order), LedgerOf(log)[order].accept)
  {
    var state, t := LedgerOf(log)[order], ForOrder(Rows(log), order);
    RowsOfOrder(log, order);
    LedgerIsWellKeyed(log);
    assert t == RequestedRows(state.create).Append(AcceptedRowsAt(state.accept, 2));
    assert t.acceptances == AcceptedRowsAt(state.accept, 2).acceptances;
  }

  lemma UnacceptedRowsOfOrder(log: Log, order: Uuid)
    requires Serialised(log) && !(order in LedgerOf(log) && LedgerOf(log)[order].Accepted?)
    ensures var t := ForOrder(Rows(log), order);
            t.acceptances == [] && |t.history| <= 1 && |t.outbox| <= 1
    ensures !HasStatus(Rows(log).history, order, ACCEPTED)
  {
    RowsOfOrder(log, order);
    StatusOfOrder(log, order);
  }

  lemma WinnerIsInLedger(trace: seq<Event>, stmt: nat, order: Uuid)
    requires Valid(trace) && Won(Run(trace), stmt, order)
    ensures var s := Run(trace); var m := LedgerOf(s.log);
            order in m && m[order].Accepted? && m[order].accept == s.begun[stmt].call.accept
  {
    var s, ops := Run(trace), Linear(trace, Run(trace).done);
    EveryRunIsLinearizable(trace);
    assert Listed(ops, stmt);
    var k :| 0 <= k < |ops| && ops[k].stmt == stmt;
    AcceptedStays(ops, k);
  }

  lemma AcceptedHasWinner(trace: seq<Event>, order: Uuid)
    requires Valid(trace)
    requires order in LedgerOf(Run(trace).log) && LedgerOf(Run(trace).log)[order].Accepted?
    ensures exists stmt :: Won(Run(trace), stmt, order)
  {
    var s, ops := Run(trace), Linear(trace, Run(trace).done);
    var m := LedgerOf(s.log);
    EveryRunIsLinearizable(trace);
    AcceptedHasOp(ops, order);
    var k :| 0 <= k < |ops| && ops[k].outcome.Applied?
      && ops[k].call == Accept(m[order].accept) && ops[k].call.Order() == order;
    assert Won(s, ops[k].stmt, order);
  }

  lemma WinnerOwnsTheRows(trace: seq<Event>, order: Uuid)
    requires Valid(trace)
    ensures var s := Run(trace); var t := ForOrder(Rows(s.log), order);
            if exists stmt :: Won(s, stmt, order) then
              forall stmt :: Won(s, stmt, order) ==> RowsOfWinner(t, s.begun[stmt].call.accept)
            else
              t.acceptances == [] && |t.history| <= 1 && |t.outbox| <= 1
              && !HasStatus(Rows(s.log).history, order, ACCEPTED)
  {
    var s := Run(trace);
    RunKeepsInv(trace);
    forall stmt | Won(s, stmt, order)
      ensures RowsOfWinner(ForOrder(Rows(s.log), order), s.begun[stmt].call.accept)
    {
      WinnerIsInLedger(trace, stmt, order);
      AcceptedRowsOfOrder(s.log, order);
    }
    if order in LedgerOf(s.log) && LedgerOf(s.log)[order].Accepted? {
      AcceptedHasWinner(trace, order);
    } else {
      UnacceptedRowsOfOrder(s.log, order);
    }
  }

  // ----- Unique violations -----------------------------------------------------

  /**
   A create in flight is refused for uniqueness exactly when its order is already
   committed; both keys are then violated and nothing is written.
   */
  lemma DuplicateCreate(trace: seq<Event>, stmt: nat)
    requires Valid(trace) && InFlight(Run(trace), stmt) && Run(trace).begun[stmt].call.Create?
    ensures var s := Run(trace); var a := AttemptOf(s, stmt);
            && (a.Clash? <==> HasOrder(Rows(s.log), s.begun[stmt].call.Order()))
            && (a.Clash? ==> a.keys == {OrdersPkey, HistoryOrderSequenceKey})
            && (!a.Clash? ==> a.Write?)
  {
    RunKeepsInv(trace);
    AttemptByLedger(Run(trace), stmt);
    HasOrderMeansInLedger(Run(trace).log, Run(trace).begun[stmt].call.Order());
  }

  /**
   An accept whose guard passed fails for uniqueness exactly when some other statement
   has won its order meanwhile; the acceptance key and the sequence key are both violated.
   */
  lemma LostAcceptRace(trace: seq<Event>, stmt: nat)
    requires Valid(trace) && InFlight(Run(trace), stmt) && Run(trace).begun[stmt].call.Accept?
    requires Guard(Rows(Run(trace).begun[stmt].snapshot), Run(trace).begun[stmt].call.Order())
    ensures var s := Run(trace); var a := AttemptOf(s, stmt);
            && (a.Clash? <==> exists w :: Won(s, w, s.begun[stmt].call.Order()))
            && (a.Clash? ==> a.keys == {AcceptancesOrderKey, HistoryOrderSequenceKey})
            && (!a.Clash? ==> a.Write?)
  {
    var s := Run(trace);
    var call := s.begun[stmt].call;
    RunKeepsInv(trace);
    GuardOfSnapshot(s.log, s.begun[stmt].snapshot, call);
    AttemptByLedger(s, stmt);
    if call.Order() in LedgerOf(s.log) && LedgerOf(s.log)[call.Order()].Accepted? {
      AcceptedHasWinner(trace, call.Order());
    }
    if w :| Won(s, w, call.Order()) {
      WinnerIsInLedger(trace, w, call.Order());
    }
  }
}
