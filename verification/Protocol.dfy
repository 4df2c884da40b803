/**
 Concurrent statements over the shared tables.

 A statement takes its snapshot when it begins, does nothing visible to others while
 it runs, and ends once: its unique keys are checked against the rows committed by
 then, and all of its rows are appended or none. Any number of statements may be in
 flight, each may be aborted at any time, and no statement locks anything.
 */
module Protocol {
  import opened Tables
  import opened Ledger
  import opened Queries

  datatype Statement = Statement(call: Call, snapshot: Log, begun: nat)

  datatype Outcome = Applied | ZeroRows | Violated(key: UniqueKey) | Aborted

  datatype Reply = Reply(outcome: Outcome, ended: nat)

  // `clock` numbers the steps of the run.
  datatype State = State(log: Log, begun: map<nat, Statement>, done: map<nat, Reply>, clock: nat)

  const INITIAL := State([], map[], map[], 0)

  // PostgreSQL may report any one of the violated keys: `reported` is its choice.
  datatype Event =
    | Begin(stmt: nat, call: Call)
    | Finish(stmt: nat, reported: UniqueKey)
    | Abort(stmt: nat)

  predicate InFlight(s: State, stmt: nat) {
    stmt in s.begun && stmt !in s.done
  }

  function AttemptOf(s: State, stmt: nat): Attempt
    requires stmt in s.begun
  {
    Try(s.begun[stmt].call, Rows(s.begun[stmt].snapshot), Rows(s.log))
  }

  // Ids made by uuid.New are never made twice.
  predicate FreshIds(s: State, call: Call) {
    forall j :: j in s.begun ==> s.begun[j].call.Generated() !! call.Generated()
  }

  predicate Enabled(s: State, e: Event) {
    match e
    case Begin(stmt, call) => stmt !in s.begun && FreshIds(s, call)
    case Finish(stmt, reported) =>
      InFlight(s, stmt) && (AttemptOf(s, stmt).Clash? ==> reported in AttemptOf(s, stmt).keys)
    case Abort(stmt) => InFlight(s, stmt)
  }

  function OutcomeOf(a: Attempt, reported: UniqueKey): Outcome {
    match a
    case NoRows => ZeroRows
    case Clash(_) => Violated(reported)
    case Write(_) => Applied
  }

  function Step(s: State, e: Event): State
    requires Enabled(s, e)
  {
    match e
    case Begin(stmt, call) =>
      s.(begun := s.begun[stmt := Statement(call, s.log, s.clock)], clock := s.clock + 1)
    case Finish(stmt, reported) =>
      var a := AttemptOf(s, stmt);
      State(if a.Write? then s.log + [Entry(s.begun[stmt].call, a.rows)] else s.log,
            s.begun,
            s.done[stmt := Reply(OutcomeOf(a, reported), s.clock)],
            s.clock + 1)
    case Abort(stmt) =>
      s.(done := s.done[stmt := Reply(Aborted, s.clock)], clock := s.clock + 1)
  }

  ghost predicate Valid(trace: seq<Event>)
    decreases |trace|, 0
  {
    trace == [] ||
    (Valid(trace[..|trace| - 1]) && Enabled(Run(trace[..|trace| - 1]), trace[|trace| - 1]))
  }

  ghost function Run(trace: seq<Event>): State
    requires Valid(trace)
    decreases |trace|, 1
  {
    if trace == [] then INITIAL
    else Step(Run(trace[..|trace| - 1]), trace[|trace| - 1])
  }

  // ----- What every step keeps -------------------------------------------------

  ghost predicate SnapshotsArePrefixes(s: State) {
    forall i :: i in s.begun ==> s.begun[i].snapshot <= s.log
  }

  ghost predicate DistinctIds(begun: map<nat, Statement>) {
    forall i, j :: i in begun && j in begun && i != j ==> begun[i].call.Generated() !! begun[j].call.Generated()
  }

  // The ids of a statement in flight are not committed yet.
  ghost predicate Uncommitted(s: State) {
    forall i :: InFlight(s, i) ==> s.begun[i].call.Generated() !! LogIds(s.log)
  }

  ghost predicate BegunIds(log: Log, begun: map<nat, Statement>) {
    forall x :: x in LogIds(log) ==> exists i :: i in begun && x in begun[i].call.Generated()
  }

  ghost predicate IdsAreFresh(s: State) {
    DistinctIds(s.begun) && Uncommitted(s) && BegunIds(s.log, s.begun)
  }

  ghost predicate Timed(s: State) {
    && (forall i :: i in s.begun ==> s.begun[i].begun < s.clock)
    && (forall i :: i in s.done ==> i in s.begun && s.begun[i].begun < s.done[i].ended < s.clock)
  }

  // A reply of zero rows comes from a guard that failed in the statement's snapshot.
  ghost predicate ZeroRowsAreRefusals(s: State, done: map<nat, Reply>) {
    forall i :: i in done && done[i].outcome.ZeroRows? && i in s.begun ==>
      Evaluate(s.begun[i].call, Rows(s.begun[i].snapshot)).outbox == []
  }

  ghost predicate Inv(s: State) {
    && Serialised(s.log)
    && SnapshotsArePrefixes(s)
    && IdsAreFresh(s)
    && Timed(s)
    && ZeroRowsAreRefusals(s, s.done)
  }

  /** What a statement in flight would come to, by the order's state now and in its snapshot. */
  lemma AttemptByLedger(s: State, stmt: nat)
    requires Inv(s) && InFlight(s, stmt)
    ensures var call, was, now := s.begun[stmt].call, LedgerOf(s.begun[stmt].snapshot), LedgerOf(s.log);
            AttemptOf(s, stmt) ==
            if call.Accept? && !Decide(was, call).Done? then NoRows
            else if Decide(now, call).Done? then Write(SerialRows(call))
            else if call.Create? then Clash({OrdersPkey, HistoryOrderSequenceKey})
            else Clash({AcceptancesOrderKey, HistoryOrderSequenceKey})
    ensures s.begun[stmt].call.Accept? && Decide(LedgerOf(s.begun[stmt].snapshot), s.begun[stmt].call).Done? ==>
            !Decide(LedgerOf(s.log), s.begun[stmt].call).Absent?
  {
    TryByLedger(s.log, s.begun[stmt].snapshot, s.begun[stmt].call);
  }

  lemma FinishKeepsFreshness(s: State, stmt: nat, reported: UniqueKey)
    requires Inv(s) && Enabled(s, Finish(stmt, reported))
    ensures IdsAreFresh(Step(s, Finish(stmt, reported)))
  {
    var s' := Step(s, Finish(stmt, reported));
    if AttemptOf(s, stmt).Write? {
      assert s'.log[..|s.log|] == s.log;
      assert LogIds(s'.log) == LogIds(s.log) + s.begun[stmt].call.Generated();
    }
  }

  lemma BeginKeepsDistinct(s: State, stmt: nat, call: Call)
    requires DistinctIds(s.begun) && Enabled(s, Begin(stmt, call))
    ensures DistinctIds(Step(s, Begin(stmt, call)).begun)
  {
  }

  lemma BeginKeepsBegun(s: State, stmt: nat, call: Call)
    requires BegunIds(s.log, s.begun) && Enabled(s, Begin(stmt, call))
    ensures BegunIds(s.log, Step(s, Begin(stmt, call)).begun)
  {
    var begun := Step(s, Begin(stmt, call)).begun;
    forall x | x in LogIds(s.log)
      ensures exists i :: i in begun && x in begun[i].call.Generated()
    {
      var i :| i in s.begun && x in s.begun[i].call.Generated();
      assert i in begun && x in begun[i].call.Generated();
    }
  }

  lemma FreshFromLog(s: State, call: Call)
    requires BegunIds(s.log, s.begun) && FreshIds(s, call)
    ensures call.Generated() !! LogIds(s.log)
  {
    forall x | x in LogIds(s.log)
      ensures x !in call.Generated()
    {
      var i :| i in s.begun && x in s.begun[i].call.Generated();
    }
  }

  lemma BeginKeepsUncommitted(s: State, stmt: nat, call: Call)
    requires Uncommitted(s) && BegunIds(s.log, s.begun) && Enabled(s, Begin(stmt, call))
    ensures Uncommitted(Step(s, Begin(stmt, call)))
  {
    FreshFromLog(s, call);
    var s' := Step(s, Begin(stmt, call));
    forall i | InFlight(s', i)
      ensures s'.begun[i].call.Generated() !! LogIds(s'.log)
    {
      if i != stmt {
        assert InFlight(s, i);
      }
    }
  }

  lemma FinishKeepsSerial(s: State, stmt: nat, reported: UniqueKey)
    requires Inv(s) && Enabled(s, Finish(stmt, reported))
    ensures Serialised(Step(s, Finish(stmt, reported)).log)
  {
    AttemptByLedger(s, stmt);
    var a := AttemptOf(s, stmt);
    if a.Write? {
      RowsOfPush(s.log, Entry(s.begun[stmt].call, a.rows));
    }
  }

  lemma StepKeepsSerialAndFresh(s: State, e: Event)
    requires Inv(s) && Enabled(s, e)
    ensures Serialised(Step(s, e).log) && IdsAreFresh(Step(s, e))
  {
    match e
    case Begin(stmt, call) =>
      BeginKeepsDistinct(s, stmt, call);
      BeginKeepsBegun(s, stmt, call);
      BeginKeepsUncommitted(s, stmt, call);
    case Finish(stmt, reported) =>
      FinishKeepsFreshness(s, stmt, reported);
      FinishKeepsSerial(s, stmt, reported);
    case Abort(stmt) =>
      assert Step(s, e).begun == s.begun && Step(s, e).log == s.log;
  }

  lemma StepKeepsSnapshotsAndTimes(s: State, e: Event)
    requires SnapshotsArePrefixes(s) && Timed(s) && Enabled(s, e)
    ensures SnapshotsArePrefixes(Step(s, e)) && Timed(Step(s, e))
    ensures s.log <= Step(s, e).log
  {
  }

  lemma StepKeepsRefusals(s: State, e: Event)
    requires Timed(s) && ZeroRowsAreRefusals(s, s.done) && Enabled(s, e)
    ensures ZeroRowsAreRefusals(Step(s, e), Step(s, e).done)
  {
  }

  /** A statement ends once: by the step that finishes or aborts it, which no step undoes; an abort writes nothing. */
  lemma StatementsEndOnce(s: State, e: Event)
    requires Enabled(s, e)
    ensures forall i :: i in s.done ==> i in Step(s, e).done && Step(s, e).done[i] == s.done[i]
    ensures !e.Begin? ==> e.stmt !in s.done && e.stmt in Step(s, e).done && Step(s, e).done[e.stmt].ended == s.clock
    ensures e.Abort? ==> Step(s, e).log == s.log && Step(s, e).done[e.stmt].outcome == Aborted
    ensures forall i :: i in s.begun ==> i in Step(s, e).begun && Step(s, e).begun[i] == s.begun[i]
  {
  }

  /** The invariant of the protocol: whatever the step, whoever takes it. */
  lemma StepKeepsInv(s: State, e: Event)
    requires Inv(s) && Enabled(s, e)
    ensures Inv(Step(s, e))
    ensures s.log <= Step(s, e).log
  {
    StepKeepsSnapshotsAndTimes(s, e);
    StepKeepsRefusals(s, e);
    StepKeepsSerialAndFresh(s, e);
  }

  lemma {:induction false} RunKeepsInv(trace: seq<Event>)
    requires Valid(trace)
    ensures Inv(Run(trace))
  {
    if trace == [] {
    } else {
      RunKeepsInv(trace[..|trace| - 1]);
      StepKeepsInv(Run(trace[..|trace| - 1]), trace[|trace| - 1]);
    }
  }
}
