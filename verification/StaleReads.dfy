/**
 The services over a stale cache.

 The cache is an adversary: under a key it may serve any view ever loaded for that key,
 the newest or an old one, at any time, or serve nothing. Spellings of one order id are
 different keys. An accept whose reader serves a view that is no longer "requested" is
 answered at once and never reaches the database.

 The same requests without a reader form a run of the plain protocol with the same
 answers and the same tables (`EarlyCheckIsOptimisation`).
 */
module StaleReads {
  import opened Wrappers
  import opened Uuids
  import opened Tables
  import opened Ledger
  import opened Queries
  import opened Protocol
  import opened Linearizability
  import opened Guarantees

  function CacheKey(id: string): string {
    "orders:view:" + id
  }

  datatype System = System(
    uuids: UuidText,
    store: State,
    early: map<nat, Statement>,              // accepts refused from a cached view
    loaded: Views)                           // every view ever loaded, by cache key

  function Start(uuids: UuidText): System {
    System(uuids, INITIAL, map[], map[])
  }

  datatype Move =
    | Db(event: Event)
    | Load(id: string)
    | Early(stmt: nat, call: Call, id: string, view: OrderView)

  type Views = map<string, set<OrderView>>

  predicate ServableFrom(loaded: Views, id: string, view: OrderView) {
    CacheKey(id) in loaded && view in loaded[CacheKey(id)]
  }

  predicate Servable(b: System, id: string, view: OrderView) {
    ServableFrom(b.loaded, id, view)
  }

  predicate Unused(b: System, stmt: nat, call: Call) {
    && stmt !in b.store.begun && stmt !in b.early
    && FreshIds(b.store, call)
    && forall j :: j in b.early ==> b.early[j].call.Generated() !! call.Generated()
  }

  predicate CanMove(b: System, m: Move) {
    match m
    case Db(e) => Enabled(b.store, e) && (e.Begin? ==> Unused(b, e.stmt, e.call))
    case Load(id) => b.uuids.cast(id).Some?
    case Early(stmt, call, id, view) =>
      && Unused(b, stmt, call)
      && call.Accept?
      && b.uuids.cast(id) == Some(call.accept.order)
      && Servable(b, id, view)
      && view.status != "requested"
  }

  function LoadedView(uuids: UuidText, log: Log, id: string): seq<OrderView> {
    match uuids.cast(id)
    case None => []
    case Some(order) => ViewRows(uuids, Rows(log), order)
  }

  function Remember(loaded: Views, key: string, view: OrderView): Views {
    loaded[key := (if key in loaded then loaded[key] else {}) + {view}]
  }

  function After(b: System, m: Move): System
    requires CanMove(b, m)
  {
    match m
    case Db(e) => b.(store := Step(b.store, e))
    case Load(id) =>
      // a missing order is not cached
      var rows := LoadedView(b.uuids, b.store.log, id);
      if rows == [] then b else b.(loaded := Remember(b.loaded, CacheKey(id), rows[0]))
    case Early(stmt, call, _, _) =>
      // the request takes as many steps as the statement it saves
      b.(early := b.early[stmt := Statement(call, b.store.log, b.store.clock)],
         store := b.store.(clock := b.store.clock + 2))
  }

  ghost predicate Possible(uuids: UuidText, moves: seq<Move>)
    decreases |moves|, 0
  {
    moves == [] ||
    (Possible(uuids, moves[..|moves| - 1]) && CanMove(Reached(uuids, moves[..|moves| - 1]), moves[|moves| - 1]))
  }

  ghost function Reached(uuids: UuidText, moves: seq<Move>): System
    requires Possible(uuids, moves)
    decreases |moves|, 1
  {
    if moves == [] then Start(uuids)
    else After(Reached(uuids, moves[..|moves| - 1]), moves[|moves| - 1])
  }

  // ----- Every cached view is an old truth ---------------------------------------

  /** `view` is what the view query answered for this id when the log had n entries. */
  ghost predicate WasTrue(uuids: UuidText, log: Log, n: nat, id: string, view: OrderView) {
    n <= |log| && LoadedView(uuids, log[..n], id) == [view]
  }

  // An old view of an order against the current one.
  ghost predicate OlderView(was: OrderView, now: OrderView) {
    && was.(status := now.status) == now
    && (was.status == "requested" || was.status == now.status)
  }

  // The view of an order in this state, or in the one before: exact but for a status that may lag.
  ghost predicate Reflects(uuids: UuidText, view: OrderView, state: OrderState) {
    && Shows(uuids, view, state.create)
    && (view.status == "requested" || (view.status == "accepted" && state.Accepted?))
  }

  lemma OldViewAndNow(uuids: UuidText, log: Log, n: nat, id: string, view: OrderView)
    requires Serialised(log) && WasTrue(uuids, log, n, id, view)
    ensures uuids.cast(id).Some? && uuids.cast(id).value in LedgerOf(log)
    ensures var now := ViewOfState(uuids, LedgerOf(log)[uuids.cast(id).value]);
            LoadedView(uuids, log, id) == [now] && OlderView(view, now)
    ensures Reflects(uuids, view, LedgerOf(log)[uuids.cast(id).value])
  {
    var order := uuids.cast(id).value;
    PrefixIsSerialised(log, n);
    LedgerMovesForward(log, n);
    ViewOfOrder(uuids, log[..n], order);
    ViewOfOrder(uuids, log, order);
  }

  ghost predicate HonestViews(uuids: UuidText, log: Log, loaded: Views) {
    forall id, view :: ServableFrom(loaded, id, view) ==> exists n: nat :: WasTrue(uuids, log, n, id, view)
  }

  ghost predicate Honest(b: System) {
    HonestViews(b.uuids, b.store.log, b.loaded)
  }

  lemma KeysAreInjective(a: string, b: string)
    requires CacheKey(a) == CacheKey(b)
    ensures a == b
  {
    var p := "orders:view:";
    assert a == CacheKey(a)[|p|..] && b == CacheKey(b)[|p|..];
  }

  /** An old truth stays one while the log grows. */
  lemma GrowthKeepsHonesty(uuids: UuidText, log: Log, longer: Log, loaded: Views)
    requires HonestViews(uuids, log, loaded) && log <= longer
    ensures HonestViews(uuids, longer, loaded)
  {
    forall id, view | ServableFrom(loaded, id, view)
      ensures exists n: nat :: WasTrue(uuids, longer, n, id, view)
    {
      var n: nat :| WasTrue(uuids, log, n, id, view);
      assert longer[..n] == log[..n];
      assert WasTrue(uuids, longer, n, id, view);
    }
  }

  /** A load adds a view of its own snapshot, however late it is stored. */
  lemma LoadKeepsHonesty(uuids: UuidText, log: Log, n: nat, loaded: Views, id: string, view: OrderView)
    requires HonestViews(uuids, log, loaded) && WasTrue(uuids, log, n, id, view)
    ensures HonestViews(uuids, log, Remember(loaded, CacheKey(id), view))
  {
    forall other, v | ServableFrom(Remember(loaded, CacheKey(id), view), other, v)
      ensures exists k: nat :: WasTrue(uuids, log, k, other, v)
    {
      if !ServableFrom(loaded, other, v) {
        KeysAreInjective(other, id);
      }
    }
  }

  /** A stored load can be served from then on, under its own key only; nothing stored before is lost. */
  lemma RememberedIsServable(loaded: Views, id: string, view: OrderView, other: string, v: OrderView)
    ensures ServableFrom(Remember(loaded, CacheKey(id), view), other, v) <==>
            ServableFrom(loaded, other, v) || (other == id && v == view)
  {
    if CacheKey(other) == CacheKey(id) {
      KeysAreInjective(other, id);
    }
  }

  /** A load of a committed order can be served from then on; a missing order is not cached. */
  lemma LoadsAreStored(b: System, id: string)
    requires b.uuids.cast(id).Some? && Serialised(b.store.log)
    ensures CanMove(b, Load(id)) && After(b, Load(id)).store == b.store && After(b, Load(id)).early == b.early
    ensures var m, order := LedgerOf(b.store.log), b.uuids.cast(id).value;
            if order in m then
              exists view :: Servable(After(b, Load(id)), id, view) && Shows(b.uuids, view, m[order].create)
                             && view.status == (if m[order].Accepted? then "accepted" else "requested")
            else After(b, Load(id)) == b
  {
    var order := b.uuids.cast(id).value;
    ViewOfOrder(b.uuids, b.store.log, order);
    if order in LedgerOf(b.store.log) {
      var view := LoadedView(b.uuids, b.store.log, id)[0];
      RememberedIsServable(b.loaded, id, view, id, view);
      assert Servable(After(b, Load(id)), id, view);
    }
  }

  lemma MovesKeepHonesty(b: System, m: Move)
    requires Honest(b) && CanMove(b, m) && Serialised(b.store.log)
    requires b.store.log <= After(b, m).store.log
    ensures Honest(After(b, m))
  {
    var log := b.store.log;
    GrowthKeepsHonesty(b.uuids, log, After(b, m).store.log, b.loaded);
    if m.Load? && LoadedView(b.uuids, log, m.id) != [] {
      ViewOfOrder(b.uuids, log, b.uuids.cast(m.id).value);
      assert log[..|log|] == log;
      LoadKeepsHonesty(b.uuids, log, |log|, b.loaded, m.id, LoadedView(b.uuids, log, m.id)[0]);
    }
  }

  // ----- Erasing the reader --------------------------------------------------------

  /** The same requests with no reader: an early refusal becomes a statement run at once. */
  function Erase(moves: seq<Move>): seq<Event> {
    if moves == [] then [] else Erase(moves[..|moves| - 1]) + EraseMove(moves[|moves| - 1])
  }

  function EraseMove(m: Move): seq<Event> {
    match m
    case Db(e) => [e]
    case Load(_) => []
    case Early(stmt, call, _, _) => [Begin(stmt, call), Finish(stmt, OrdersPkey)]
  }

  function RefusalReply(s: Statement): Reply {
    Reply(ZeroRows, s.begun + 1)
  }

  function RefusalReplies(early: map<nat, Statement>): map<nat, Reply> {
    map i | i in early :: RefusalReply(early[i])
  }

  /** The plain protocol's state: early refusals counted as guard refusals. */
  function Merge(b: System): State {
    State(b.store.log, b.store.begun + b.early, b.store.done + RefusalReplies(b.early), b.store.clock)
  }

  ghost predicate Apart(b: System) {
    b.store.begun.Keys !! b.early.Keys && b.store.done.Keys <= b.store.begun.Keys
  }

  lemma PushEvent(trace: seq<Event>, e: Event)
    requires Valid(trace) && Enabled(Run(trace), e)
    ensures Valid(trace + [e]) && Run(trace + [e]) == Step(Run(trace), e)
  {
    assert (trace + [e])[..|trace|] == trace;
  }

  lemma BeginMerges(b: System, stmt: nat, call: Call)
    requires Apart(b) && Unused(b, stmt, call)
    ensures Enabled(Merge(b), Begin(stmt, call))
    ensures Merge(b).begun[stmt := Statement(call, b.store.log, b.store.clock)] ==
            b.store.begun[stmt := Statement(call, b.store.log, b.store.clock)] + b.early
  {
    var s := Merge(b);
    forall j | j in s.begun
      ensures s.begun[j].call.Generated() !! call.Generated()
    {
      assert s.begun[j] == if j in b.early then b.early[j] else b.store.begun[j];
    }
  }

  lemma EndMerges(b: System, stmt: nat, reply: Reply)
    requires Apart(b) && InFlight(b.store, stmt)
    ensures InFlight(Merge(b), stmt) && Merge(b).begun[stmt] == b.store.begun[stmt]
    ensures Merge(b).done[stmt := reply] == b.store.done[stmt := reply] + RefusalReplies(b.early)
  {
  }

  lemma DbMoveMerges(b: System, e: Event)
    requires Apart(b) && CanMove(b, Db(e))
    ensures Enabled(Merge(b), e) && Step(Merge(b), e) == Merge(After(b, Db(e)))
    ensures Apart(After(b, Db(e)))
  {
    var s := Merge(b);
    match e
    case Begin(stmt, call) =>
      BeginMerges(b, stmt, call);
    case Finish(stmt, reported) =>
      EndMerges(b, stmt, Reply(OutcomeOf(AttemptOf(b.store, stmt), reported), b.store.clock));
      assert AttemptOf(s, stmt) == AttemptOf(b.store, stmt);
    case Abort(stmt) =>
      EndMerges(b, stmt, Reply(Aborted, b.store.clock));
  }

  /** A view that is no longer "requested" proves that the guard fails now. */
  lemma StaleRefusalIsCurrent(b: System, id: string, view: OrderView)
    requires Honest(b) && Serialised(b.store.log) && Servable(b, id, view) && view.status != "requested"
    ensures b.uuids.cast(id).Some? && !Guard(Rows(b.store.log), b.uuids.cast(id).value)
  {
    var n: nat :| WasTrue(b.uuids, b.store.log, n, id, view);
    OldViewAndNow(b.uuids, b.store.log, n, id, view);
    GuardMeansRequested(b.store.log, b.uuids.cast(id).value);
  }

  lemma AddRefusal(b: System, stmt: nat, refused: Statement)
    requires Apart(b) && stmt !in b.store.begun && stmt !in b.early
    ensures Merge(b).begun[stmt := refused] == b.store.begun + b.early[stmt := refused]
    ensures Merge(b).done[stmt := RefusalReply(refused)] ==
            b.store.done + RefusalReplies(b.early[stmt := refused])
    ensures stmt !in Merge(b).begun && stmt !in Merge(b).done
  {
  }

  // A statement that begins when its guard fails and ends at once.
  lemma RefusedAtOnce(s: State, stmt: nat, call: Call)
    requires Enabled(s, Begin(stmt, call)) && stmt !in s.done
    requires call.Accept? && !Guard(Rows(s.log), call.accept.order)
    ensures var s1, refused := Step(s, Begin(stmt, call)), Statement(call, s.log, s.clock);
            && Enabled(s1, Finish(stmt, OrdersPkey))
            && Step(s1, Finish(stmt, OrdersPkey)) ==
               State(s.log, s.begun[stmt := refused], s.done[stmt := RefusalReply(refused)], s.clock + 2)
  {
    var s1 := Step(s, Begin(stmt, call));
    assert AttemptOf(s1, stmt) == NoRows;
  }

  lemma EarlyMoveMerges(b: System, m: Move)
    requires Apart(b) && m.Early? && CanMove(b, m) && Honest(b) && Serialised(b.store.log)
    ensures Enabled(Merge(b), Begin(m.stmt, m.call))
    ensures var s1 := Step(Merge(b), Begin(m.stmt, m.call));
            && Enabled(s1, Finish(m.stmt, OrdersPkey))
            && Step(s1, Finish(m.stmt, OrdersPkey)) == Merge(After(b, m))
    ensures Apart(After(b, m))
  {
    BeginMerges(b, m.stmt, m.call);
    AddRefusal(b, m.stmt, Statement(m.call, b.store.log, b.store.clock));
    StaleRefusalIsCurrent(b, m.id, m.view);
    RefusedAtOnce(Merge(b), m.stmt, m.call);
  }

  // A run of the plain protocol keeps pace with the system.
  ghost predicate Follows(trace: seq<Event>, b: System) {
    Valid(trace) && Run(trace) == Merge(b) && Apart(b) && Honest(b)
  }

  lemma EarlyFollows(trace: seq<Event>, b: System, m: Move)
    requires Follows(trace, b) && m.Early? && CanMove(b, m) && Serialised(b.store.log)
    ensures Valid(trace + EraseMove(m)) && Run(trace + EraseMove(m)) == Merge(After(b, m)) && Apart(After(b, m))
  {
    var begin, finish := Begin(m.stmt, m.call), Finish(m.stmt, OrdersPkey);
    EarlyMoveMerges(b, m);
    PushEvent(trace, begin);
    PushEvent(trace + [begin], finish);
    assert trace + EraseMove(m) == trace + [begin] + [finish];
  }

  lemma DbFollows(trace: seq<Event>, b: System, e: Event)
    requires Follows(trace, b) && CanMove(b, Db(e))
    ensures Valid(trace + [e]) && Run(trace + [e]) == Merge(After(b, Db(e))) && Apart(After(b, Db(e)))
  {
    DbMoveMerges(b, e);
    PushEvent(trace, e);
  }

  lemma LogGrows(b: System, m: Move)
    requires CanMove(b, m)
    ensures b.store.log <= After(b, m).store.log
  {
  }

  lemma MoveFollows(trace: seq<Event>, b: System, m: Move)
    requires Follows(trace, b) && CanMove(b, m)
    ensures Follows(trace + EraseMove(m), After(b, m))
  {
    assert Serialised(b.store.log) by {
      RunKeepsInv(trace);
    }
    LogGrows(b, m);
    MovesKeepHonesty(b, m);
    if m.Db? {
      DbFollows(trace, b, m.event);
    } else if m.Early? {
      EarlyFollows(trace, b, m);
    } else {
      assert trace + EraseMove(m) == trace;
    }
  }

  /**
   The early check is a pure optimisation: for every run and every behaviour of the
   cache, the requests without the reader are a run with the same tables and replies.
   */
  lemma {:induction false} EarlyCheckIsOptimisation(uuids: UuidText, moves: seq<Move>)
    requires Possible(uuids, moves)
    ensures Valid(Erase(moves))
    ensures Run(Erase(moves)) == Merge(Reached(uuids, moves))
    ensures Apart(Reached(uuids, moves)) && Honest(Reached(uuids, moves)) && Reached(uuids, moves).uuids == uuids
  {
    if moves == [] {
      assert Merge(Start(uuids)) == INITIAL;
    } else {
      var before := moves[..|moves| - 1];
      EarlyCheckIsOptimisation(uuids, before);
      MoveFollows(Erase(before), Reached(uuids, before), moves[|moves| - 1]);
    }
  }

  /** Early refusals included, every run is linearizable. */
  lemma CachedRunsAreLinearizable(uuids: UuidText, moves: seq<Move>)
    requires Possible(uuids, moves)
    ensures Valid(Erase(moves)) && Run(Erase(moves)) == Merge(Reached(uuids, moves))
    ensures Linearizes(Linear(Erase(moves), Merge(Reached(uuids, moves)).done), Merge(Reached(uuids, moves)))
  {
    EarlyCheckIsOptimisation(uuids, moves);
    EveryRunIsLinearizable(Erase(moves));
  }

  // ----- What a reader can rely on ---------------------------------------------------

  /** Any view the cache can serve, under any spelling: exact but for a status that may lag. */
  lemma CachedViewsAreOldTruths(uuids: UuidText, moves: seq<Move>, id: string, view: OrderView)
    requires Possible(uuids, moves) && Servable(Reached(uuids, moves), id, view)
    ensures var log := Reached(uuids, moves).store.log;
            && (exists n: nat :: WasTrue(uuids, log, n, id, view))
            && (exists now :: LoadedView(uuids, log, id) == [now] && OlderView(view, now))
            && uuids.cast(id).Some? && uuids.cast(id).value in LedgerOf(log)
            && Reflects(uuids, view, LedgerOf(log)[uuids.cast(id).value])
  {
    EarlyCheckIsOptimisation(uuids, moves);
    RunKeepsInv(Erase(moves));
    var log := Reached(uuids, moves).store.log;
    var n: nat :| WasTrue(uuids, log, n, id, view);
    OldViewAndNow(uuids, log, n, id, view);
  }

  lemma {:induction false} LogsGrow(uuids: UuidText, moves: seq<Move>, n: nat)
    requires Possible(uuids, moves) && n <= |moves|
    ensures Possible(uuids, moves[..n])
    ensures Reached(uuids, moves[..n]).store.log <= Reached(uuids, moves).store.log
    decreases |moves|
  {
    if n == |moves| {
      assert moves[..n] == moves;
    } else {
      var before := moves[..|moves| - 1];
      assert before[..n] == moves[..n];
      LogsGrow(uuids, before, n);
    }
  }

  /** The log after the first n moves of a run. */
  ghost function LogAfter(uuids: UuidText, moves: seq<Move>, n: nat): (log: Log)
    requires Possible(uuids, moves) && n <= |moves|
    ensures log <= Reached(uuids, moves).store.log
  {
    LogsGrow(uuids, moves, n);
    Reached(uuids, moves[..n]).store.log
  }

  lemma OrderStays(was: Log, snapshot: Log, log: Log, order: Uuid)
    requires Serialised(log) && was <= snapshot <= log && HasOrder(Rows(was), order)
    ensures Serialised(snapshot) && order in LedgerOf(snapshot) && HasOrder(Rows(snapshot), order)
  {
    assert snapshot == log[..|snapshot|] && was == snapshot[..|was|];
    PrefixIsSerialised(log, |snapshot|);
    PrefixIsSerialised(snapshot, |was|);
    LedgerMovesForward(snapshot, |was|);
    HasOrderMeansInLedger(was, order);
    HasOrderMeansInLedger(snapshot, order);
  }

  /** Reads are complete: a load begun after an order is committed never misses it. */
  lemma LoadsNeverMiss(uuids: UuidText, moves: seq<Move>, n: nat, id: string)
    requires Possible(uuids, moves) && n <= |moves| && uuids.cast(id).Some?
    requires HasOrder(Rows(LogAfter(uuids, moves, n)), uuids.cast(id).value)
    ensures |LoadedView(uuids, Reached(uuids, moves).store.log, id)| == 1
  {
    var order := uuids.cast(id).value;
    EarlyCheckIsOptimisation(uuids, moves);
    RunKeepsInv(Erase(moves));
    var log := Reached(uuids, moves).store.log;
    OrderStays(LogAfter(uuids, moves, n), log, log, order);
    ViewOfOrder(uuids, log, order);
  }
}
