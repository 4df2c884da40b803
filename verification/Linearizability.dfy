/**
 Every interleaving of statements is equivalent to a one-at-a-time run.

 A refusal by the guard takes effect when its snapshot is taken, everything else when
 the statement ends. Listing the completed statements by those instants gives a run of
 the serial machine with the same answers and the same final tables; since each
 instant lies between the statement's begin and end, the order respects real time.
 */
module Linearizability {
  import opened Tables
  import opened Ledger
  import opened Queries
  import opened Protocol

  // One completed statement and the instant it takes effect.
  datatype Op = Op(stmt: nat, call: Call, outcome: Outcome, at: nat)

  /** The outcomes the serial machine's verdict allows. */
  predicate Answers(v: Verdict, call: Call, o: Outcome) {
    match o
    case Applied => v.Done?
    case ZeroRows => call.Accept? && (v.Absent? || v.AlreadyAccepted?)
    case Violated(key) =>
      || (v.Exists? && key in {OrdersPkey, HistoryOrderSequenceKey})
      || (v.AlreadyAccepted? && key in {AcceptancesOrderKey, HistoryOrderSequenceKey})
    case Aborted => false
  }

  function SerialLedger(ops: seq<Op>): Ledger {
    if ops == [] then map[]
    else Apply(SerialLedger(ops[..|ops| - 1]), ops[|ops| - 1].call)
  }

  function SerialTables(ops: seq<Op>): Tables {
    if ops == [] then EMPTY
    else
      var last := ops[|ops| - 1];
      SerialTables(ops[..|ops| - 1]).Append(if last.outcome.Applied? then SerialRows(last.call) else EMPTY)
  }

  // Running the machine over the calls gives each call its outcome.
  ghost predicate Legal(ops: seq<Op>) {
    ops == [] ||
    var before, last := ops[..|ops| - 1], ops[|ops| - 1];
    Legal(before) && Answers(Decide(SerialLedger(before), last.call), last.call, last.outcome)
  }

  // ----- The linearization of a run --------------------------------------------

  ghost function Effect(s: State, e: Event, done: map<nat, Reply>): seq<Op>
    requires Enabled(s, e)
  {
    match e
    case Begin(stmt, call) =>
      if stmt in done && done[stmt].outcome.ZeroRows? then [Op(stmt, call, ZeroRows, s.clock)] else []
    case Finish(stmt, reported) =>
      var a := AttemptOf(s, stmt);
      if a.NoRows? then [] else [Op(stmt, s.begun[stmt].call, OutcomeOf(a, reported), s.clock)]
    case Abort(_) => []
  }

  // `done` holds the replies of the whole run: a guard refusal counts only if it was ever answered.
  ghost function Linear(trace: seq<Event>, done: map<nat, Reply>): seq<Op>
    requires Valid(trace)
  {
    if trace == [] then []
    else
      var before := trace[..|trace| - 1];
      Linear(before, done) + Effect(Run(before), trace[|trace| - 1], done)
  }

  ghost predicate SerialUpTo(ops: seq<Op>, log: Log) {
    Legal(ops) && SerialLedger(ops) == LedgerOf(log) && SerialTables(ops) == Rows(log)
  }

  lemma PushOp(ops: seq<Op>, op: Op)
    ensures SerialLedger(ops + [op]) == Apply(SerialLedger(ops), op.call)
    ensures SerialTables(ops + [op]) ==
            SerialTables(ops).Append(if op.outcome.Applied? then SerialRows(op.call) else EMPTY)
    ensures Legal(ops + [op]) <==>
            Legal(ops) && Answers(Decide(SerialLedger(ops), op.call), op.call, op.outcome)
  {
    assert (ops + [op])[..|ops|] == ops;
  }

  lemma PushApplied(ops: seq<Op>, log: Log, op: Op, e: Entry)
    requires SerialUpTo(ops, log) && op.outcome.Applied? && op.call == e.call && e.rows == SerialRows(e.call)
    requires Answers(Decide(LedgerOf(log), op.call), op.call, op.outcome)
    ensures SerialUpTo(ops + [op], log + [e])
  {
    PushOp(ops, op);
    RowsOfPush(log, e);
  }

  lemma PushRefused(ops: seq<Op>, log: Log, op: Op)
    requires SerialUpTo(ops, log) && !op.outcome.Applied? && Apply(LedgerOf(log), op.call) == LedgerOf(log)
    requires Answers(Decide(LedgerOf(log), op.call), op.call, op.outcome)
    ensures SerialUpTo(ops + [op], log)
  {
    PushOp(ops, op);
    assert Rows(log).Append(EMPTY) == Rows(log);
  }

  lemma BeginTakesEffect(ops: seq<Op>, s: State, stmt: nat, call: Call, done: map<nat, Reply>)
    requires Inv(s) && Enabled(s, Begin(stmt, call)) && SerialUpTo(ops, s.log)
    requires ZeroRowsAreRefusals(Step(s, Begin(stmt, call)), done)
    ensures SerialUpTo(ops + Effect(s, Begin(stmt, call), done), s.log)
  {
    if stmt in done && done[stmt].outcome.ZeroRows? {
      assert Step(s, Begin(stmt, call)).begun[stmt].snapshot == s.log;
      EvaluatedRows(s.log, call);
      PushRefused(ops, s.log, Op(stmt, call, ZeroRows, s.clock));
    } else {
      assert ops + [] == ops;
    }
  }

  /** A statement that ends agrees with the serial machine on the tables of that instant. */
  lemma FinishAnswers(s: State, stmt: nat, reported: UniqueKey)
    requires Inv(s) && Enabled(s, Finish(stmt, reported)) && !AttemptOf(s, stmt).NoRows?
    ensures var call, a := s.begun[stmt].call, AttemptOf(s, stmt);
            && Answers(Decide(LedgerOf(s.log), call), call, OutcomeOf(a, reported))
            && (a.Write? ==> a.rows == SerialRows(call))
            && (!a.Write? ==> Apply(LedgerOf(s.log), call) == LedgerOf(s.log))
  {
    var call, now := s.begun[stmt].call, Decide(LedgerOf(s.log), s.begun[stmt].call);
    AttemptByLedger(s, stmt);
    if !now.Done? {
      if call.Create? {
        assert now.Exists?;
      } else {
        assert now.AlreadyAccepted?;
      }
    }
  }

  lemma FinishTakesEffect(ops: seq<Op>, s: State, stmt: nat, reported: UniqueKey, done: map<nat, Reply>)
    requires Inv(s) && Enabled(s, Finish(stmt, reported)) && SerialUpTo(ops, s.log)
    ensures SerialUpTo(ops + Effect(s, Finish(stmt, reported), done), Step(s, Finish(stmt, reported)).log)
  {
    var e, call, a := Finish(stmt, reported), s.begun[stmt].call, AttemptOf(s, stmt);
    if a.NoRows? {
      assert ops + Effect(s, e, done) == ops;
    } else {
      var op := Op(stmt, call, OutcomeOf(a, reported), s.clock);
      assert Effect(s, e, done) == [op];
      FinishAnswers(s, stmt, reported);
      if a.Write? {
        PushApplied(ops, s.log, op, Entry(call, a.rows));
      } else {
        PushRefused(ops, s.log, op);
      }
    }
  }

  lemma {:induction false} LinearIsSerial(trace: seq<Event>, done: map<nat, Reply>)
    requires Valid(trace) && ZeroRowsAreRefusals(Run(trace), done)
    ensures SerialUpTo(Linear(trace, done), Run(trace).log)
  {
    if trace == [] {
    } else {
      var before, e := trace[..|trace| - 1], trace[|trace| - 1];
      var s := Run(before);
      RunKeepsInv(before);
      assert ZeroRowsAreRefusals(s, done);
      LinearIsSerial(before, done);
      var ops := Linear(before, done);
      match e
      case Begin(stmt, call) => BeginTakesEffect(ops, s, stmt, call, done);
      case Finish(stmt, reported) => FinishTakesEffect(ops, s, stmt, reported, done);
      case Abort(_) => assert ops + [] == ops;
    }
  }

  // ----- Which statements appear, and when -------------------------------------

  ghost predicate Increasing(ops: seq<Op>) {
    forall i, j :: 0 <= i < j < |ops| ==> ops[i].at < ops[j].at
  }

  // An op reports the statement it stands for, at that statement's instant.
  ghost predicate Reports(op: Op, s: State, done: map<nat, Reply>) {
    && op.stmt in s.begun
    && op.call == s.begun[op.stmt].call
    && op.at < s.clock
    && if op.outcome.ZeroRows?
       then op.stmt in done && done[op.stmt].outcome.ZeroRows? && op.at == s.begun[op.stmt].begun
       else op.stmt in s.done && s.done[op.stmt].outcome == op.outcome && op.at == s.done[op.stmt].ended
  }

  ghost predicate Listed(ops: seq<Op>, stmt: nat) {
    exists k :: 0 <= k < |ops| && ops[k].stmt == stmt
  }

  ghost predicate Due(s: State, done: map<nat, Reply>, stmt: nat) {
    || (stmt in s.begun && stmt in done && done[stmt].outcome.ZeroRows?)
    || (stmt in s.done && !s.done[stmt].outcome.ZeroRows? && !s.done[stmt].outcome.Aborted?)
  }

  lemma EffectReports(s: State, e: Event, done: map<nat, Reply>)
    requires Inv(s) && Enabled(s, e)
    ensures forall op :: op in Effect(s, e, done) ==> Reports(op, Step(s, e), done) && op.at == s.clock
    ensures |Effect(s, e, done)| <= 1
    ensures forall stmt :: Due(Step(s, e), done, stmt) ==> Due(s, done, stmt) || Listed(Effect(s, e, done), stmt)
  {
    var s', ops := Step(s, e), Effect(s, e, done);
    forall stmt | Due(s', done, stmt) && !Due(s, done, stmt)
      ensures Listed(ops, stmt)
    {
      assert |ops| == 1 && ops[0].stmt == stmt;
    }
  }

  lemma ReportsLater(op: Op, s: State, e: Event, done: map<nat, Reply>)
    requires Inv(s) && Enabled(s, e) && Reports(op, s, done)
    ensures Reports(op, Step(s, e), done)
  {
  }

  lemma ListedInEither(a: seq<Op>, b: seq<Op>, stmt: nat)
    requires Listed(a, stmt) || Listed(b, stmt)
    ensures Listed(a + b, stmt)
  {
    if Listed(a, stmt) {
      var k :| 0 <= k < |a| && a[k].stmt == stmt;
      assert (a + b)[k].stmt == stmt;
    } else {
      var k :| 0 <= k < |b| && b[k].stmt == stmt;
      assert (a + b)[|a| + k].stmt == stmt;
    }
  }

  lemma {:induction false} LinearReports(trace: seq<Event>, done: map<nat, Reply>)
    requires Valid(trace)
    ensures Increasing(Linear(trace, done))
    ensures forall op :: op in Linear(trace, done) ==> Reports(op, Run(trace), done)
    ensures forall stmt :: Due(Run(trace), done, stmt) ==> Listed(Linear(trace, done), stmt)
  {
    if trace == [] {
    } else {
      var before, e := trace[..|trace| - 1], trace[|trace| - 1];
      var s := Run(before);
      var head, tail := Linear(before, done), Effect(s, e, done);
      RunKeepsInv(before);
      LinearReports(before, done);
      EffectReports(s, e, done);
      forall op | op in head
        ensures Reports(op, Run(trace), done)
      {
        ReportsLater(op, s, e, done);
      }
      forall stmt | Due(Run(trace), done, stmt)
        ensures Listed(head + tail, stmt)
      {
        ListedInEither(head, tail, stmt);
      }
      forall i, j | 0 <= i < j < |head + tail|
        ensures (head + tail)[i].at < (head + tail)[j].at
      {
        assert head == (head + tail)[..|head|];
        assert i < |head| ==> head[i] in head;
        assert j >= |head| ==> (head + tail)[j] == tail[j - |head|] && tail[j - |head|] in tail;
      }
    }
  }

  // ----- The theorem -----------------------------------------------------------

  ghost predicate Completed(s: State, stmt: nat) {
    stmt in s.begun && stmt in s.done && !s.done[stmt].outcome.Aborted?
  }

  // `ops` is a linearization of the run that ended in s.
  ghost predicate Linearizes(ops: seq<Op>, s: State) {
    // a run of the serial machine, ending in the same tables
    && SerialUpTo(ops, s.log)
    // each completed statement appears, once, with its own call and outcome, within its own span
    && (forall stmt :: Completed(s, stmt) ==> Listed(ops, stmt))
    && (forall i, j :: 0 <= i < |ops| && 0 <= j < |ops| && ops[i].stmt == ops[j].stmt ==> i == j)
    && (forall k :: 0 <= k < |ops| ==> Placed(ops[k], s))
    // a statement that ended before another began comes first
    && (forall i, j :: 0 <= i < |ops| && 0 <= j < |ops| ==>
          s.done[ops[i].stmt].ended < s.begun[ops[j].stmt].begun ==> i < j)
  }

  lemma EveryRunIsLinearizable(trace: seq<Event>)
    requires Valid(trace)
    ensures Linearizes(Linear(trace, Run(trace).done), Run(trace))
  {
    var s := Run(trace);
    var ops := Linear(trace, s.done);
    RunKeepsInv(trace);
    LinearIsSerial(trace, s.done);
    LinearReports(trace, s.done);
    forall k | 0 <= k < |ops|
      ensures Placed(ops[k], s)
    {
      LegalOutcomes(ops, k);
      ReportIsPlaced(ops[k], s);
    }
    forall stmt | Completed(s, stmt)
      ensures Listed(ops, stmt)
    {
      assert Due(s, s.done, stmt);
    }
    forall i, j | 0 <= i < |ops| && 0 <= j < |ops| && ops[i].stmt == ops[j].stmt
      ensures i == j
    {
      assert Placed(ops[i], s) && Placed(ops[j], s);
      assert ops[i].at == ops[j].at;
    }
    forall i, j | 0 <= i < |ops| && 0 <= j < |ops| && s.done[ops[i].stmt].ended < s.begun[ops[j].stmt].begun
      ensures i < j
    {
      assert Placed(ops[i], s) && Placed(ops[j], s);
      assert ops[i].at < ops[j].at;
    }
  }

  // Between its begin and its end: a guard refusal at the begin, anything else at the end.
  ghost predicate Placed(op: Op, s: State) {
    && Completed(s, op.stmt)
    && op.call == s.begun[op.stmt].call
    && op.outcome == s.done[op.stmt].outcome
    && s.begun[op.stmt].begun <= op.at <= s.done[op.stmt].ended
    && op.at == if op.outcome.ZeroRows? then s.begun[op.stmt].begun else s.done[op.stmt].ended
  }

  lemma ReportIsPlaced(op: Op, s: State)
    requires Inv(s) && Reports(op, s, s.done) && !op.outcome.Aborted?
    ensures Placed(op, s)
  {
  }

  lemma {:induction false} LegalOutcomes(ops: seq<Op>, k: nat)
    requires Legal(ops) && k < |ops|
    ensures !ops[k].outcome.Aborted?
    decreases |ops|
  {
    if k == |ops| - 1 {
    } else {
      LegalOutcomes(ops[..|ops| - 1], k);
    }
  }
}
