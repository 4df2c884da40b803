/**
 platform/middleware.go: three layered response writers.

 The handler writes to the observed writer. It sends headers and bytes through the
 telemetry library's wrapper, which forwards them to gin's own writer, which performs
 the real write; the written flag and the status live in gin's writer. Gin's writer
 and the wrapper are not part of the repository: they appear here with the behaviour
 the middleware relies on.
 */
module ResponseWriter {

  // ----- The connection: what the client gets -------------------------------------

  type Bytes = seq<bv8>

  /** What a writer was asked to send, in order. */
  datatype Sent = Header(status: int) | Body(count: nat)

  /** net/http's writer. A write may be cut short: `accepts` says how much of it goes out. */
  class Connection {
    var statuses: seq<int>
    var body: Bytes

    constructor ()
      ensures statuses == [] && body == []
    {
      statuses, body := [], [];
    }

    method WriteHeader(status: int)
      modifies this
      ensures statuses == old(statuses) + [status] && body == old(body)
    {
      statuses := statuses + [status];
    }

    method Write(data: Bytes, accepts: nat) returns (n: nat)
      modifies this
      ensures n == Accepted(data, accepts)
      ensures body == old(body) + data[..n] && statuses == old(statuses)
    {
      n := Accepted(data, accepts);
      body := body + data[..n];
    }
  }

  function Accepted(data: Bytes, accepts: nat): (n: nat)
    ensures n <= |data|
  {
    if accepts < |data| then accepts else |data|
  }

  // ----- Gin's writer --------------------------------------------------------------

  const NO_WRITTEN := -1

  class GinWriter {
    const conn: Connection
    var status: int
    var size: int

    constructor (conn: Connection)
      ensures this.conn == conn && status == 200 && size == NO_WRITTEN
    {
      this.conn := conn;
      status, size := 200, NO_WRITTEN;
    }

    predicate Written()
      reads this
    {
      size != NO_WRITTEN
    }

    // Sets the status to send; ignored once the header is out.
    method WriteHeader(code: int)
      modifies this
      ensures status == (if code > 0 && !old(Written()) then code else old(status)) && size == old(size)
    {
      if code > 0 && status != code {
        if Written() {
          return;
        }
        status := code;
      }
    }

    method WriteHeaderNow()
      modifies this, conn
      ensures status == old(status) && conn.body == old(conn.body)
      ensures size == (if old(Written()) then old(size) else 0)
      ensures conn.statuses == if old(Written()) then old(conn.statuses) else old(conn.statuses) + [status]
    {
      if !Written() {
        size := 0;
        conn.WriteHeader(status);
      }
    }

    method Write(data: Bytes, accepts: nat) returns (n: nat)
      modifies this, conn
      ensures n == Accepted(data, accepts)
      ensures status == old(status) && size == (if old(Written()) then old(size) else 0) + n
      ensures conn.statuses == if old(Written()) then old(conn.statuses) else old(conn.statuses) + [status]
      ensures conn.body == old(conn.body) + data[..n]
    {
      WriteHeaderNow();
      n := conn.Write(data, accepts);
      size := size + n;
    }
  }

  // ----- The telemetry wrapper ------------------------------------------------------

  /** Records what passes through and forwards it; counts the bytes the inner writer took. */
  class TelemetryWriter {
    const inner: GinWriter
    var seen: seq<Sent>

    constructor (inner: GinWriter)
      ensures this.inner == inner && seen == []
    {
      this.inner := inner;
      seen := [];
    }

    method WriteHeader(code: int)
      modifies this, inner
      ensures seen == old(seen) + [Header(code)]
      ensures inner.status == (if code > 0 && !old(inner.Written()) then code else old(inner.status))
      ensures inner.size == old(inner.size)
    {
      seen := seen + [Header(code)];
      inner.WriteHeader(code);
    }

    method Write(data: Bytes, accepts: nat) returns (n: nat)
      modifies this, inner, inner.conn
      ensures n == Accepted(data, accepts)
      ensures seen == old(seen) + [Body(n)]
      ensures inner.status == old(inner.status)
      ensures inner.size == (if old(inner.Written()) then old(inner.size) else 0) + n
      ensures inner.conn.statuses ==
              if old(inner.Written()) then old(inner.conn.statuses) else old(inner.conn.statuses) + [inner.status]
      ensures inner.conn.body == old(inner.conn.body) + data[..n]
    {
      n := inner.Write(data, accepts);
      seen := seen + [Body(n)];
    }
  }

  // ----- The layered state as a value --------------------------------------------------

  datatype Layers = Layers(status: int, size: int, statuses: seq<int>, body: Bytes, seen: seq<Sent>) {
    predicate Written() {
      size != NO_WRITTEN
    }
  }

  /** What a handler does with its writer. */
  datatype Op = SetStatus(code: int) | HeaderNow | Write(data: Bytes, accepts: nat)

  function AfterHeader(s: Layers): Layers {
    if s.Written() then s
    else s.(size := 0, statuses := s.statuses + [s.status], seen := s.seen + [Header(s.status)])
  }

  function AfterBody(s: Layers, data: Bytes, accepts: nat): Layers {
    var n := Accepted(data, accepts);
    s.(size := s.size + n, body := s.body + data[..n], seen := s.seen + [Body(n)])
  }

  function AfterOp(s: Layers, op: Op): Layers {
    match op
    case SetStatus(code) => if code > 0 && !s.Written() then s.(status := code) else s
    case HeaderNow => AfterHeader(s)
    case Write(data, accepts) => AfterBody(AfterHeader(s), data, accepts)
  }

  function AfterOps(s: Layers, ops: seq<Op>): Layers {
    if ops == [] then s else AfterOp(AfterOps(s, ops[..|ops| - 1]), ops[|ops| - 1])
  }

  const FRESH := Layers(200, NO_WRITTEN, [], [], [])

  // ----- The observed writer -------------------------------------------------------------

  class ObservedWriter {
    const gin: GinWriter
    const w: TelemetryWriter

    constructor (gin: GinWriter, w: TelemetryWriter)
      ensures this.gin == gin && this.w == w
    {
      this.gin, this.w := gin, w;
    }

    ghost predicate Valid()
      reads this, gin
    {
      w.inner == gin && gin.status > 0 && gin.size >= NO_WRITTEN
    }

    ghost function State(): Layers
      reads this, gin, gin.conn, w
    {
      Layers(gin.status, gin.size, gin.conn.statuses, gin.conn.body, w.seen)
    }

    // Embedded: gin's own method.
    method WriteHeader(code: int)
      requires Valid()
      modifies gin
      ensures Valid() && State() == AfterOp(old(State()), SetStatus(code))
    {
      gin.WriteHeader(code);
    }

    method WriteHeaderNow()
      requires Valid()
      modifies gin, gin.conn, w
      ensures Valid() && gin.Written() && State() == AfterOp(old(State()), HeaderNow)
    {
      if !gin.Written() {
        w.WriteHeader(gin.status);
      }
      gin.WriteHeaderNow();
    }

    // Write and WriteString: io.WriteString hands the same bytes to the wrapper.
    method Write(data: Bytes, accepts: nat) returns (n: nat)
      requires Valid()
      modifies gin, gin.conn, w
      ensures Valid() && n == Accepted(data, accepts)
      ensures State() == AfterOp(old(State()), Op.Write(data, accepts))
    {
      WriteHeaderNow();
      n := w.Write(data, accepts);
    }
  }

  /** The middleware around a handler: the handler's calls in order, then the header at the latest. */
  method TelemetryMiddleware(gin: GinWriter, w: TelemetryWriter, ops: seq<Op>)
    requires w.inner == gin && w.seen == []
    requires gin.status == 200 && gin.size == NO_WRITTEN && gin.conn.statuses == [] && gin.conn.body == []
    modifies gin, gin.conn, w
    ensures var s := Layers(gin.status, gin.size, gin.conn.statuses, gin.conn.body, w.seen);
            s == AfterHeader(AfterOps(FRESH, ops)) && Observed(s)
  {
    var ow := new ObservedWriter(gin, w);
    var i := 0;
    while i < |ops|
      invariant 0 <= i <= |ops|
      invariant ow.Valid() && ow.gin == gin && ow.w == w
      invariant ow.State() == AfterOps(FRESH, ops[..i])
    {
      assert ops[..i + 1][..i] == ops[..i];
      match ops[i] {
        case SetStatus(code) => ow.WriteHeader(code);
        case HeaderNow => ow.WriteHeaderNow();
        case Write(data, accepts) => var _ := ow.Write(data, accepts);
      }
      i := i + 1;
    }
    assert ops[..i] == ops;
    ow.WriteHeaderNow();
    TelemetrySeesTheResponse(ops);
  }

  // ----- What the telemetry sees -------------------------------------------------------------

  function BytesSeen(seen: seq<Sent>): nat {
    if seen == [] then 0
    else BytesSeen(seen[..|seen| - 1]) + if seen[|seen| - 1].Body? then seen[|seen| - 1].count else 0
  }

  /** The client got one status; the wrapper saw it once, first, and every byte of the body. */
  ghost predicate Observed(s: Layers) {
    && s.statuses == [s.status]
    && |s.seen| >= 1 && s.seen[0] == Header(s.status)
    && (forall i :: 1 <= i < |s.seen| ==> s.seen[i].Body?)
    && BytesSeen(s.seen) == |s.body| == s.size
  }

  // Before the header nothing was sent; after it the two sides agree.
  ghost predicate InStep(s: Layers) {
    if s.Written() then Observed(s)
    else s.statuses == [] && s.body == [] && s.seen == []
  }

  lemma HeaderKeepsStep(s: Layers)
    requires InStep(s)
    ensures Observed(AfterHeader(s)) && AfterHeader(s).Written()
  {
    if !s.Written() {
      var seen := [Header(s.status)];
      assert AfterHeader(s).seen == seen && seen[..0] == [];
      assert AfterHeader(s).statuses == [s.status];
    }
  }

  lemma BodyKeepsStep(s: Layers, data: Bytes, accepts: nat)
    requires Observed(s)
    ensures Observed(AfterBody(s, data, accepts)) && AfterBody(s, data, accepts).Written()
  {
    var seen, last := s.seen, Body(Accepted(data, accepts));
    assert (seen + [last])[..|seen|] == seen;
    assert (seen + [last])[|seen|] == last;
  }

  lemma OpKeepsStep(s: Layers, op: Op)
    requires InStep(s)
    ensures InStep(AfterOp(s, op)) && (!op.SetStatus? ==> AfterOp(s, op).Written())
  {
    HeaderKeepsStep(s);
    if op.Write? {
      BodyKeepsStep(AfterHeader(s), op.data, op.accepts);
    }
  }

  /** For every sequence of calls, ended by the middleware's own WriteHeaderNow. */
  lemma {:induction false} TelemetrySeesTheResponse(ops: seq<Op>)
    ensures InStep(AfterOps(FRESH, ops))
    ensures Observed(AfterHeader(AfterOps(FRESH, ops)))
  {
    if ops == [] {
    } else {
      TelemetrySeesTheResponse(ops[..|ops| - 1]);
      OpKeepsStep(AfterOps(FRESH, ops[..|ops| - 1]), ops[|ops| - 1]);
    }
    HeaderKeepsStep(AfterOps(FRESH, ops));
  }

  // ----- What the client gets ----------------------------------------------------------------

  /** The same call made on gin's writer directly, with no telemetry in between. */
  function PlainOp(s: Layers, op: Op): Layers {
    var h := if s.Written() then s else s.(size := 0, statuses := s.statuses + [s.status]);
    match op
    case SetStatus(code) => if code > 0 && !s.Written() then s.(status := code) else s
    case HeaderNow => h
    case Write(data, accepts) =>
      var n := Accepted(data, accepts);
      h.(size := h.size + n, body := h.body + data[..n])
  }

  function PlainOps(s: Layers, ops: seq<Op>): Layers {
    if ops == [] then s else PlainOp(PlainOps(s, ops[..|ops| - 1]), ops[|ops| - 1])
  }

  /** The wrapper changes nothing for the client: same status, same body, same bookkeeping. */
  lemma {:induction false} ResponseIsUntouched(ops: seq<Op>)
    ensures AfterOps(FRESH, ops).(seen := []) == PlainOps(FRESH, ops)
  {
    if ops == [] {
    } else {
      ResponseIsUntouched(ops[..|ops| - 1]);
    }
  }

  // The last status the handler chose before anything was sent; 200 if it chose none.
  function ChosenStatus(ops: seq<Op>): int {
    if ops == [] then 200
    else
      var before, last := ops[..|ops| - 1], ops[|ops| - 1];
      if last.SetStatus? && last.code > 0 && !Sends(before) then last.code else ChosenStatus(before)
  }

  predicate Sends(ops: seq<Op>) {
    exists i :: 0 <= i < |ops| && !ops[i].SetStatus?
  }

  // What the connection took of everything written, in order.
  function Transmitted(ops: seq<Op>): Bytes {
    if ops == [] then []
    else
      var before, last := ops[..|ops| - 1], ops[|ops| - 1];
      Transmitted(before) +
      if !last.Write? then [] else if last.accepts < |last.data| then last.data[..last.accepts] else last.data
  }

  lemma SendsPush(ops: seq<Op>)
    requires ops != []
    ensures Sends(ops) <==> Sends(ops[..|ops| - 1]) || !ops[|ops| - 1].SetStatus?
  {
    var before := ops[..|ops| - 1];
    if Sends(before) {
      var i :| 0 <= i < |before| && !before[i].SetStatus?;
      assert !ops[i].SetStatus?;
    }
    if Sends(ops) && ops[|ops| - 1].SetStatus? {
      var i :| 0 <= i < |ops| && !ops[i].SetStatus?;
      assert !before[i].SetStatus?;
    }
  }

  // The layered state that these calls lead to.
  ghost predicate LedTo(ops: seq<Op>, s: Layers) {
    && s.status == ChosenStatus(ops)
    && s.body == Transmitted(ops)
    && (s.Written() <==> Sends(ops))
    && s.size >= NO_WRITTEN
  }

  lemma OneMoreCall(before: seq<Op>, s: Layers, op: Op)
    requires LedTo(before, s)
    ensures LedTo(before + [op], AfterOp(s, op))
  {
    var ops := before + [op];
    assert ops[..|ops| - 1] == before && ops[|ops| - 1] == op;
    SendsPush(ops);
    if op.Write? {
      assert op.data[..|op.data|] == op.data;
    }
  }

  lemma {:induction false} StateIsTheCalls(ops: seq<Op>)
    ensures LedTo(ops, AfterOps(FRESH, ops))
  {
    if ops == [] {
    } else {
      var before := ops[..|ops| - 1];
      StateIsTheCalls(before);
      OneMoreCall(before, AfterOps(FRESH, before), ops[|ops| - 1]);
      assert before + [ops[|ops| - 1]] == ops;
    }
  }

  /** The client gets the last status chosen in time, once, and the bytes in the order written. */
  lemma ClientGetsWhatWasWritten(ops: seq<Op>)
    ensures var s := AfterHeader(AfterOps(FRESH, ops));
            && s.statuses == [ChosenStatus(ops)]
            && s.body == Transmitted(ops)
            && |s.seen| >= 1 && s.seen[0] == Header(ChosenStatus(ops)) && BytesSeen(s.seen) == |Transmitted(ops)|
  {
    StateIsTheCalls(ops);
    TelemetrySeesTheResponse(ops);
  }
}
