/**
 The one-at-a-time machine: an order is absent, then requested, then accepted.

 A committed log is `Serialised` when running this machine over its calls accepts
 every one of them and the rows each appended are the ones the machine prescribes.
 For such a log all four tables, restricted to one order, are a function of that
 order's state (`RowsOfOrder`); guard, sequence, view and unique keys follow.
 */
module Ledger {
  import opened Uuids
  import opened Tables

  datatype OrderState =
    | Requested(create: CreateCall)
    | Accepted(create: CreateCall, accept: AcceptCall)

  type Ledger = map<Uuid, OrderState>

  datatype Verdict = Done | Exists | Absent | AlreadyAccepted

  function Decide(m: Ledger, call: Call): Verdict {
    match call
    case Create(c) => if c.order in m then Exists else Done
    case Accept(a) =>
      if a.order !in m then Absent
      else if m[a.order].Accepted? then AlreadyAccepted
      else Done
  }

  function Apply(m: Ledger, call: Call): Ledger {
    if !Decide(m, call).Done? then m
    else
      match call
      case Create(c) => m[c.order := Requested(c)]
      case Accept(a) => m[a.order := Accepted(m[a.order].create, a)]
  }

  /** The rows of a successful call: a request is history row 1, an acceptance row 2. */
  function SerialRows(call: Call): Tables {
    match call
    case Create(c) => RequestedRows(c)
    case Accept(a) => AcceptedRowsAt(a, 2)
  }

  datatype Entry = Entry(call: Call, rows: Tables)

  type Log = seq<Entry>

  function Rows(log: Log): Tables {
    if log == [] then EMPTY
    else Rows(log[..|log| - 1]).Append(log[|log| - 1].rows)
  }

  function LedgerOf(log: Log): Ledger {
    if log == [] then map[]
    else Apply(LedgerOf(log[..|log| - 1]), log[|log| - 1].call)
  }

  ghost predicate Serialised(log: Log) {
    log == [] ||
    var before, last := log[..|log| - 1], log[|log| - 1];
    && Serialised(before)
    && Decide(LedgerOf(before), last.call).Done?
    && last.rows == SerialRows(last.call)
  }

  lemma RowsOfPush(log: Log, e: Entry)
    ensures Rows(log + [e]) == Rows(log).Append(e.rows)
    ensures LedgerOf(log + [e]) == Apply(LedgerOf(log), e.call)
    ensures Serialised(log + [e]) <==>
            Serialised(log) && Decide(LedgerOf(log), e.call).Done? && e.rows == SerialRows(e.call)
  {
    assert (log + [e])[..|log|] == log;
  }

  /** The shortest logs with an order in each of its states. */
  function RequestedLog(c: CreateCall): Log {
    [Entry(Create(c), RequestedRows(c))]
  }

  function AcceptedLog(c: CreateCall, a: AcceptCall): Log {
    RequestedLog(c) + [Entry(Accept(a), AcceptedRowsAt(a, 2))]
  }

  lemma ShortLogs(c: CreateCall, a: AcceptCall)
    requires a.order == c.order
    ensures Serialised(RequestedLog(c)) && LedgerOf(RequestedLog(c)) == map[c.order := Requested(c)]
    ensures Serialised(AcceptedLog(c, a)) && LedgerOf(AcceptedLog(c, a)) == map[c.order := Accepted(c, a)]
  {
    var create := Entry(Create(c), RequestedRows(c));
    assert RequestedLog(c) == [] + [create];
    RowsOfPush([], create);
    RowsOfPush(RequestedLog(c), Entry(Accept(a), AcceptedRowsAt(a, 2)));
  }

  // ----- The tables, one order at a time --------------------------------------

  function HistoryOf(history: seq<HistoryRow>, order: Uuid): seq<HistoryRow> {
    if history == [] then []
    else
      var last := history[|history| - 1];
      HistoryOf(history[..|history| - 1], order) + if last.order == order then [last] else []
  }

  function AcceptancesOf(acceptances: seq<AcceptanceRow>, order: Uuid): seq<AcceptanceRow> {
    if acceptances == [] then []
    else
      var last := acceptances[|acceptances| - 1];
      AcceptancesOf(acceptances[..|acceptances| - 1], order) + if last.order == order then [last] else []
  }

  function OutboxOf(outbox: seq<OutboxRow>, order: Uuid): seq<OutboxRow> {
    if outbox == [] then []
    else
      var last := outbox[|outbox| - 1];
      OutboxOf(outbox[..|outbox| - 1], order) + if last.aggregate == order then [last] else []
  }

  function ForOrder(t: Tables, order: Uuid): Tables {
    Tables(OrdersWith(t.orders, order), HistoryOf(t.history, order),
           AcceptancesOf(t.acceptances, order), OutboxOf(t.outbox, order))
  }

  /** What the tables hold about an order in a given state. */
  function Expected(m: Ledger, order: Uuid): Tables {
    if order !in m then EMPTY
    else
      match m[order]
      case Requested(c) => RequestedRows(c)
      case Accepted(c, a) => RequestedRows(c).Append(AcceptedRowsAt(a, 2))
  }

  ghost predicate WellKeyed(m: Ledger) {
    forall o :: o in m ==>
      && m[o].create.order == o
      && (m[o].Accepted? ==> m[o].accept.order == o)
  }

  lemma {:induction false} LedgerIsWellKeyed(log: Log)
    requires Serialised(log)
    ensures WellKeyed(LedgerOf(log))
  {
    if log == [] {
    } else {
      LedgerIsWellKeyed(log[..|log| - 1]);
    }
  }

  lemma ForOrderAppend(t: Tables, call: Call, order: Uuid)
    ensures ForOrder(t.Append(SerialRows(call)), order) ==
            ForOrder(t, order).Append(if call.Order() == order then SerialRows(call) else EMPTY)
  {
    var r := SerialRows(call);
    if call.Create? {
      assert (t.orders + r.orders)[..|t.orders|] == t.orders;
      assert t.acceptances + r.acceptances == t.acceptances;
    } else {
      assert t.orders + r.orders == t.orders;
      assert (t.acceptances + r.acceptances)[..|t.acceptances|] == t.acceptances;
    }
    assert (t.history + r.history)[..|t.history|] == t.history;
    assert (t.outbox + r.outbox)[..|t.outbox|] == t.outbox;
  }

  lemma ExpectedStep(m: Ledger, call: Call, order: Uuid)
    requires WellKeyed(m) && Decide(m, call).Done?
    ensures Expected(Apply(m, call), order) ==
            Expected(m, order).Append(if call.Order() == order then SerialRows(call) else EMPTY)
  {
    var e := Expected(m, order);
    if call.Order() != order {
      assert e.Append(EMPTY) == e;
    } else if call.Create? {
      assert EMPTY.Append(SerialRows(call)) == SerialRows(call);
    } else {
      assert m[order] == Requested(m[order].create);
    }
  }

  lemma {:induction false} RowsOfOrder(log: Log, order: Uuid)
    requires Serialised(log)
    ensures ForOrder(Rows(log), order) == Expected(LedgerOf(log), order)
  {
    if log == [] {
    } else {
      var before, last := log[..|log| - 1], log[|log| - 1];
      RowsOfOrder(before, order);
      LedgerIsWellKeyed(before);
      ForOrderAppend(Rows(before), last.call, order);
      ExpectedStep(LedgerOf(before), last.call, order);
    }
  }

  // ----- A status only moves forward ------------------------------------------

  ghost predicate Forward(m: Ledger, n: Ledger) {
    forall o :: o in m ==>
      && o in n
      && n[o].create == m[o].create
      && (m[o].Accepted? ==> n[o] == m[o])
  }

  lemma {:induction false} LedgerMovesForward(log: Log, n: nat)
    requires n <= |log|
    ensures Forward(LedgerOf(log[..n]), LedgerOf(log))
    decreases |log|
  {
    if n == |log| {
      assert log[..n] == log;
    } else {
      var before := log[..|log| - 1];
      assert before[..n] == log[..n];
      LedgerMovesForward(before, n);
    }
  }

  lemma {:induction false} PrefixIsSerialised(log: Log, n: nat)
    requires Serialised(log) && n <= |log|
    ensures Serialised(log[..n])
    decreases |log|
  {
    if n == |log| {
      assert log[..n] == log;
    } else {
      var before := log[..|log| - 1];
      assert before[..n] == log[..n];
      PrefixIsSerialised(before, n);
    }
  }
}
