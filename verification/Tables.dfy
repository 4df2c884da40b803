/**
 The append-only tables and the three SQL statements of the two repositories.

 A statement is a function of the tables of its own snapshot: the guard, the next
 sequence number and every sub-statement of a WITH query read that one snapshot
 (PostgreSQL manual, sections 13.2.1 and 7.8.4). Which rows it may then append is
 decided by the unique keys, checked against the rows committed by that time.
 */
module Tables {
  import opened Wrappers
  import opened Uuids
  import opened Json

  // Coordinates are carried and compared, never computed with.
  datatype Trip = Trip(
    pickupLatitude: real, pickupLongitude: real,
    destinationLatitude: real, destinationLongitude: real)

  datatype OrderRow = OrderRow(id: Uuid, rider: Uuid, trip: Trip, createdAt: int)

  datatype HistoryRow = HistoryRow(id: Uuid, order: Uuid, sequence: int, status: int)

  datatype AcceptanceRow = AcceptanceRow(id: Uuid, order: Uuid, driver: Uuid)

  datatype OutboxRow = OutboxRow(
    id: Uuid, aggregateType: string, aggregate: Uuid, eventType: string, eventVersion: int, payload: Value)

  const REQUESTED := 1
  const ACCEPTED := 3

  /** The contents of the four tables, oldest row first; also the rows one statement appends. */
  datatype Tables = Tables(
    orders: seq<OrderRow>, history: seq<HistoryRow>,
    acceptances: seq<AcceptanceRow>, outbox: seq<OutboxRow>)
  {
    function Append(rows: Tables): Tables {
      Tables(orders + rows.orders, history + rows.history,
             acceptances + rows.acceptances, outbox + rows.outbox)
    }
  }

  const EMPTY := Tables([], [], [], [])

  /** The arguments of requestedSQL after their ::uuid casts. */
  datatype CreateCall = CreateCall(
    order: Uuid, rider: Uuid, trip: Trip, createdAt: int,
    historyId: Uuid, outboxId: Uuid, payload: Value, eventType: string)

  /** The arguments of acceptedSQL after their ::uuid casts. */
  datatype AcceptCall = AcceptCall(
    acceptanceId: Uuid, order: Uuid, driver: Uuid,
    historyId: Uuid, outboxId: Uuid, payload: Value, eventType: string)

  datatype Call = Create(create: CreateCall) | Accept(accept: AcceptCall) {
    function Order(): Uuid {
      match this
      case Create(c) => c.order
      case Accept(a) => a.order
    }

    // The ids generated for this one call by uuid.New.
    function Generated(): set<Uuid> {
      match this
      case Create(c) => {c.historyId, c.outboxId}
      case Accept(a) => {a.acceptanceId, a.historyId, a.outboxId}
    }
  }

  // ----- requestedSQL ---------------------------------------------------------

  function RequestedRows(c: CreateCall): Tables {
    Tables([OrderRow(c.order, c.rider, c.trip, c.createdAt)],
           [HistoryRow(c.historyId, c.order, 1, REQUESTED)],
           [],
           [OutboxRow(c.outboxId, "order", c.order, c.eventType, 1, c.payload)])
  }

  // ----- acceptedSQL ----------------------------------------------------------

  predicate HasStatus(history: seq<HistoryRow>, order: Uuid, status: int) {
    exists h :: h in history && h.order == order && h.status == status
  }

  predicate Guard(snapshot: Tables, order: Uuid) {
    HasStatus(snapshot.history, order, REQUESTED) && !HasStatus(snapshot.history, order, ACCEPTED)
  }

  function Max(a: int, b: int): int {
    if a < b then b else a
  }

  // SELECT MAX(sequence) ... WHERE order_id = order
  function MaxSequence(history: seq<HistoryRow>, order: Uuid): Option<int> {
    if history == [] then None
    else
      var rest := MaxSequence(history[..|history| - 1], order);
      var last := history[|history| - 1];
      if last.order != order then rest
      else if rest.None? then Some(last.sequence)
      else Some(Max(rest.value, last.sequence))
  }

  // COALESCE((SELECT MAX(sequence) ...), 0) + 1
  function NextSequence(snapshot: Tables, order: Uuid): int {
    match MaxSequence(snapshot.history, order)
    case None => 1
    case Some(n) => n + 1
  }

  function AcceptedRowsAt(a: AcceptCall, sequence: int): Tables {
    Tables([],
           [HistoryRow(a.historyId, a.order, sequence, ACCEPTED)],
           [AcceptanceRow(a.acceptanceId, a.order, a.driver)],
           [OutboxRow(a.outboxId, "order", a.order, a.eventType, 1, a.payload)])
  }

  function AcceptedRows(a: AcceptCall, snapshot: Tables): Tables {
    if Guard(snapshot, a.order) then AcceptedRowsAt(a, NextSequence(snapshot, a.order)) else EMPTY
  }

  /** The rows a statement computes from its snapshot. */
  function Evaluate(call: Call, snapshot: Tables): Tables {
    match call
    case Create(c) => RequestedRows(c)
    case Accept(a) => AcceptedRows(a, snapshot)
  }

  // ----- Unique keys ----------------------------------------------------------

  datatype UniqueKey =
    | OrdersPkey
    | HistoryPkey
    | HistoryOrderSequenceKey
    | AcceptancesPkey
    | AcceptancesOrderKey
    | OutboxPkey

  function KeyName(key: UniqueKey): string {
    match key
    case OrdersPkey => "orders_pkey"
    case HistoryPkey => "order_status_history_pkey"
    case HistoryOrderSequenceKey => "order_status_history_order_id_sequence_key"
    case AcceptancesPkey => "order_acceptances_pkey"
    case AcceptancesOrderKey => "uq_order_acceptances_order"
    case OutboxPkey => "outbox_events_pkey"
  }

  /** Some row to be appended has the same value under this key as a committed row. */
  predicate Violates(key: UniqueKey, rows: Tables, committed: Tables) {
    match key
    case OrdersPkey =>
      exists r, c :: r in rows.orders && c in committed.orders && r.id == c.id
    case HistoryPkey =>
      exists r, c :: r in rows.history && c in committed.history && r.id == c.id
    case HistoryOrderSequenceKey =>
      exists r, c :: r in rows.history && c in committed.history && r.order == c.order && r.sequence == c.sequence
    case AcceptancesPkey =>
      exists r, c :: r in rows.acceptances && c in committed.acceptances && r.id == c.id
    case AcceptancesOrderKey =>
      exists r, c :: r in rows.acceptances && c in committed.acceptances && r.order == c.order
    case OutboxPkey =>
      exists r, c :: r in rows.outbox && c in committed.outbox && r.id == c.id
  }

  function Violations(rows: Tables, committed: Tables): set<UniqueKey> {
    set key: UniqueKey | Violates(key, rows, committed)
  }

  /** What a statement comes to if it is not aborted: PostgreSQL counts the rows of the outbox INSERT. */
  datatype Attempt = NoRows | Clash(keys: set<UniqueKey>) | Write(rows: Tables)

  function Try(call: Call, snapshot: Tables, committed: Tables): Attempt {
    var rows := Evaluate(call, snapshot);
    var clashes := Violations(rows, committed);
    if rows.outbox == [] then NoRows
    else if clashes != {} then Clash(clashes)
    else Write(rows)
  }

  // ----- viewSQL --------------------------------------------------------------

  /** The read model; ids are the text PostgreSQL prints for a uuid. */
  datatype OrderView = OrderView(id: string, rider: string, trip: Trip, status: string, createdAt: int)

  // order_statuses: only these two ids are written.
  function StatusCode(status: int): Option<string> {
    if status == REQUESTED then Some("requested")
    else if status == ACCEPTED then Some("accepted")
    else None
  }

  // ORDER BY sequence DESC LIMIT 1
  function Latest(history: seq<HistoryRow>, order: Uuid): Option<HistoryRow> {
    if history == [] then None
    else
      var rest := Latest(history[..|history| - 1], order);
      var last := history[|history| - 1];
      if last.order == order && (rest.None? || rest.value.sequence <= last.sequence) then Some(last)
      else rest
  }

  function ViewOf(uuids: UuidText, o: OrderRow, status: string): OrderView {
    OrderView(uuids.text(o.id), uuids.text(o.rider), o.trip, status, o.createdAt)
  }

  function JoinStatus(uuids: UuidText, o: OrderRow, history: seq<HistoryRow>): seq<OrderView> {
    match Latest(history, o.id)
    case None => []
    case Some(h) =>
      match StatusCode(h.status)
      case None => []
      case Some(code) => [ViewOf(uuids, o, code)]
  }

  function OrdersWith(orders: seq<OrderRow>, id: Uuid): seq<OrderRow> {
    if orders == [] then []
    else
      var last := orders[|orders| - 1];
      OrdersWith(orders[..|orders| - 1], id) + if last.id == id then [last] else []
  }

  function JoinAll(uuids: UuidText, orders: seq<OrderRow>, history: seq<HistoryRow>): seq<OrderView> {
    if orders == [] then []
    else JoinAll(uuids, orders[..|orders| - 1], history) + JoinStatus(uuids, orders[|orders| - 1], history)
  }

  /** Every row of the view query for one order id. */
  function ViewRows(uuids: UuidText, t: Tables, order: Uuid): seq<OrderView> {
    JoinAll(uuids, OrdersWith(t.orders, order), t.history)
  }
}
