# Verification of fast-platform's order store

A Dafny 4.11 model of the ride-hailing API: how orders are requested, accepted and read.
`dafny verify dfyconfig.toml` checks everything.

## What is modelled

**The order store under concurrent requests.** Two INSERT-only statements write four
tables. `Tables.dfy` holds the rows, both statements, the view query and the unique keys as
functions of table contents; `Ledger.dfy` the one-at-a-time machine absent → requested →
accepted; `Queries.dfy` what the SQL says about a log of committed statements, one order at a
time. `Protocol.dfy` runs any number of statements at once: each takes a snapshot when it
begins, computes its guard, its rows and its sequence number from that snapshot alone, and
when it ends has its unique keys checked against the rows committed by then, or is aborted.
`Linearizability.dfy`, `Guarantees.dfy` and `Replay.dfy` hold the results about every run.

**The services above it.** `StaleReads.dfy` adds the cache as an adversary that may serve, under
a key, any view ever loaded for that key, and accepts that are refused from such a view
without a statement. `Repositories.dfy`, `Orders.dfy`, `Drivers.dfy`, `Handlers.dfy` and
`Telemetry.dfy` are the repositories, services, handlers and the worker wrapper as classes. A
database call is one method; its `Weather` says which earlier state was its snapshot, whether
the connection failed before or after the commit, and which violated key is reported.
`Repositories.ExecutionIsAStep` ties such a call to a step of the protocol. `Runs.dfy` puts the
two together: statements issued by the services, their payloads and the answers their callers
get in every run, and a run in which an accept loses the race.

**The platform package.** `Errors.dfy` models Go errors as trees of any depth, `TraceContext.dfy`
the trace context inside a JSON payload, `Events.dfy` the event payloads, `ResponseWriter.dfy`
the three layered response writers. `Uuids.dfy` and `Rfc9562.dfy` keep uuid values apart from
their spellings.

### Assumptions

These are not decided by the repository and are stated here once.

- One statement, with its sub-statements in WITH, reads one snapshot (PostgreSQL manual,
  sections 13.2.1 and 7.8.4); a unique key is decided against the rows committed when the
  statement ends, and the statement then appends all of its rows or none.
- The unique keys are the primary keys of `orders`, `order_status_history`,
  `order_acceptances` and `outbox_events`, `uq_order_acceptances_order` on the order id, and
  `order_status_history_order_id_sequence_key` on order id and sequence. When several are
  violated, any one of them may be reported.
- Ids made by `uuid.New` never repeat. Status 1 has the code "requested" and status 3
  "accepted". Only the two statements write, and nothing is updated or deleted.
- `uuid.Parse`, the `::uuid` cast and the `::text` cast are arbitrary functions, as long as what
  is printed is accepted by both and read back as the same value (`Uuids.Lawful`). The
  theorems hold for every such trio; `Rfc9562.RFC` is one. In particular `uuid.Parse` may accept
  a text that the cast refuses, as in `Rfc9562.LENIENT`.
- The database driver returns a unique violation as an error in which `errors.As` finds
  SQLSTATE 23505 and the constraint's name; it may or may not be wrapped. The error of a failed
  cast is neither a unique violation nor an HTTP error.
- `WorkerContext` runs its function once and returns that function's error.
- Gin's writer, the telemetry library's wrapper and the connection behave as written in
  `ResponseWriter.dfy`; the wrapper counts the bytes the inner writer took.

### Where the code and its documentation differ

- The repository's README answers an accept of an already accepted order with
  `ORDER_ALREADY_ACCEPTED`. The code gives `ORDER_NOT_ACCEPTABLE` whenever the guard or the cached
  view sees the acceptance. Only an accept whose snapshot is older than the winner's commit can
  get `ORDER_ALREADY_ACCEPTED`, and only when the driver returns the violation unwrapped and it
  names the acceptance key; the sequence key is violated as well, and if that one is reported
  the answer is an internal error (`Drivers.AnswersOfAccept`). Every create and two accepts of
  its order have a run that ends so, for either key (`Runs.RaceCanBeLost`, `Runs.LoserOfTheRace`).
- The early check is documented as safe, the guard of the statement staying the authority. It
  changes no answer except for an accept whose ids pass `uuid.Parse` but fail the cast, and that a
  view already refuses: 409 `ORDER_NOT_ACCEPTABLE` with the reader, an internal error without
  (`Drivers.ReaderChangesNoAnswer` has the exact condition, `Drivers.UrnDriverIsAnsweredDifferently`
  such a request).
- An order is documented as visible to the rider who requested it. The handler compares the
  header with the text PostgreSQL prints, so the rider sees the order exactly when the header is
  that text; another spelling of the same id, for example in upper case, is answered 404
  (`Handlers.ShownExactlyToItsRider`, `Handlers.OwnerInUpperCaseIsTurnedAway`).
- Extracting an injected trace context gives it back for every payload the services write. For
  an arbitrary payload a key that differs from `trace_context` only in letter case also decodes;
  `TraceContext.ExtractAfterInject` gives the exact condition.

## Model

| member | source | states |
|---|---|---|
| Ledger.RowsOfOrder | internal/orders/repository.go:32-40 | after any accepted sequence of calls, the rows of all four tables about one order are exactly those of its state: nothing, its request, or its request and its acceptance |
| Ledger.LedgerMovesForward | internal/drivers/service.go:94-97 | a status only moves forward: an order never disappears, its request never changes, and once accepted its acceptance never changes |
| Queries.GuardMeansRequested | internal/drivers/repository.go:28-32 | the SQL guard holds exactly for an order that is requested and not accepted |
| Queries.MaxOfOrder | internal/drivers/repository.go:36 | MAX(sequence) is absent, 1 or 2 with the order's state, and the row with the highest sequence is its current status |
| Queries.ViewOfOrder | internal/orders/repository.go:69-83 | the view query returns exactly one row for an order that exists and none otherwise; the row holds the text of its id and rider, its trip and creation time as requested, and its current status |
| Queries.GuardAndViewCanDisagree | internal/orders/repository.go:73-75 | for histories no run produces the guard and the view disagree, so their agreement rests on the reachable histories |
| Queries.ClashingKeys | internal/orders/service.go:172-185 | the exact set of violated unique keys of a call with fresh ids: both order keys for a duplicate create, both acceptance keys for a second accept, none otherwise |
| Queries.TryByLedger | internal/drivers/repository.go:27-39 | what a call comes to from any old snapshot: no rows, exactly these violated keys, or the rows with the right sequence number, decided by the order's state then and now |
| Protocol.StepKeepsInv | internal/drivers/repository.go:22-39 | whatever step is taken, the log stays one the serial machine accepts, snapshots stay prefixes of it, ids stay fresh and zero-row replies come from failed guards |
| Protocol.RunKeepsInv | internal/drivers/repository.go:22-39 | the invariant holds after every run |
| Protocol.StatementsEndOnce | internal/drivers/repository.go:22-26 | a statement ends by one step, which no later step undoes, and an aborted one writes nothing |
| Linearizability.FinishAnswers | internal/drivers/repository.go:44-54 | a statement that ends with success or a violation agrees with the serial machine on the tables of that instant |
| Linearizability.LinearIsSerial | internal/drivers/repository.go:27-54 | listing the statements by the instant they take effect gives a run of the serial machine with the same final tables |
| Linearizability.EveryRunIsLinearizable | internal/drivers/repository.go:27-54 | every interleaving is equivalent to a one-at-a-time run: each completed statement once, same outcome, same tables, each within its own span, hence in real-time order |
| Guarantees.HistoryIsRequestedThenAccepted | internal/drivers/repository.go:34-37 | every reachable order's history is (1, requested) or (1, requested), (2, accepted); an id without an order has none |
| Guarantees.SequenceOrderIsCommitOrder | internal/drivers/repository.go:34-37 | although sequence numbers come from snapshots, they increase in commit order for every order |
| Guarantees.GuardAgreesInEverySnapshot | internal/drivers/repository.go:29-31 | in every snapshot of every run the guard holds iff the view query finds the order "requested" |
| Guarantees.RowsAreConserved | internal/orders/repository.go:29-40 | history rows = outbox rows = orders + acceptances, every row refers to an order that exists, and an order's requested event precedes its accepted event |
| Guarantees.MakerOwnsTheRows | internal/orders/repository.go:29-40 | an order has rows exactly when a create of it was committed, and its order row, first status and requested event are all that call's own |
| Guarantees.AtMostOneWinner | internal/drivers/repository.go:22-39 | with any number of drivers racing, at most one accept of an order succeeds |
| Guarantees.WinnerOwnsTheRows | internal/drivers/repository.go:32-39 | the acceptance, the status-3 row and the accepted event of an order exist together, exactly when some accept succeeded, and are all that call's rows: its driver in the acceptance, its payload in the event |
| Guarantees.DuplicateCreate | internal/orders/service.go:153-164 | a create is refused for uniqueness iff its order is committed; both order keys are then violated, otherwise it writes |
| Guarantees.LostAcceptRace | internal/drivers/service.go:107-123 | an accept whose guard passed fails for uniqueness iff another statement won the order meanwhile; both acceptance keys are then violated, otherwise it writes |
| Replay.InjectionKeepsEvent | platform/context.go:10-13 | a reader of the payload gets the event that was written, the injected trace context being ignored |
| Replay.ReplayIsLedger | events/events.go:7-32 | folding the payloads one by one tracks the serial machine |
| Replay.OutboxRebuildsTheTables | internal/orders/service.go:139-153 | for any calls whose payloads announce them, folding the outbox rebuilds exactly the orders, riders, trips, current statuses and drivers of the other tables, and each payload names its own row's id and order |
| Runs.ServicesOutboxRebuilds | internal/orders/service.go:131-153 | in every run of statements issued by the two services, with generated row ids, the outbox rebuilds the other tables: orders, riders, trips, current statuses and drivers |
| Runs.WinnersEventNamesItsDriver | internal/drivers/service.go:104-107 | the acceptance and the accepted event of a won order name one driver, the winner's, and the event its own row's id |
| Runs.AcceptIsAnsweredByItsStatement | internal/drivers/service.go:107-128 | in every run the caller of an accept is told what its statement came to: success, not acceptable iff the guard failed in its snapshot, and a lost race iff the guard passed and another statement has won, answered as the reported key decides |
| Runs.RequestIsAnsweredByItsStatement | internal/orders/service.go:153-169 | in every run a request is answered 409 ORDER_ALREADY_EXISTS iff its order is committed by then, and creates it otherwise |
| Runs.RaceCanBeLost | internal/drivers/repository.go:27-39 | two accepts of one requested order, both begun before either ends: the second ends in a violation, and either of the two keys may be the one reported |
| Runs.LoserOfTheRace | internal/drivers/service.go:118-122 | in that run the loser gets 409 ORDER_ALREADY_ACCEPTED iff the acceptance key is reported and the error is not wrapped, else an internal error |
| Runs.EarlyRefusalHappens | internal/drivers/service.go:98-103 | early refusals do occur: for every create, two racing accepts and a third, there is a run in which the third is refused from a loaded view without a statement |
| StaleReads.CachedViewsAreOldTruths | internal/orders/service.go:69-82 | any view the cache may serve, under any spelling of an id, is the view query's answer on an earlier state: it shows the order's id, rider, trip and time as they are now, and "accepted" only if the order is accepted |
| StaleReads.LoadKeepsHonesty | internal/orders/service.go:70-76 | storing a load, even late and over a newer view, keeps every cached view an old truth |
| StaleReads.LoadsAreStored | internal/orders/service.go:69-76 | a load of a committed order can be served from then on, a missing order leaves the cache as it was |
| StaleReads.StaleRefusalIsCurrent | internal/drivers/service.go:94-103 | a cached view that is no longer "requested" implies that the SQL guard fails now |
| StaleReads.EarlyCheckIsOptimisation | internal/drivers/service.go:37-43 | for every run of accepts with uuids for ids and every cache behaviour, the same requests without the reader are a run of the plain protocol with the same tables, times and replies |
| StaleReads.CachedRunsAreLinearizable | internal/drivers/service.go:94-107 | runs with early refusals from a stale cache are linearizable, the refusals included |
| StaleReads.LoadsNeverMiss | internal/orders/service.go:55-64 | a load begun after an order is committed always finds exactly one view |
| Orders.NeverNotFoundAfterCommit | internal/orders/service.go:55-82 | through the cache, no answer that rests on a load begun after the order was committed is ORDER_NOT_FOUND, and it is a view if nothing failed |
| Repositories.DB.Execute | internal/orders/repository.go:14-16 | one statement leaves the log and returns the answer of `Execution`, from its snapshot and under its faults |
| Repositories.ExecutionIsAStep | internal/drivers/repository.go:44-54 | a database call is a step of the protocol: same log, and row count or error according to the outcome |
| Repositories.OrdersRepository.Requested | internal/orders/repository.go:43-65 | success is the order as it was given and one more entry in the log; an error is passed on and nothing is written, unless the acknowledgement was lost |
| Repositories.OrdersRepository.Get | internal/orders/repository.go:81-83 | the first row of the view query on the snapshot, or not found; on a reachable snapshot a view is the order's state there and not found means there is no such order |
| Repositories.DriversRepository.Accepted | internal/drivers/repository.go:44-54 | a guard that fails in the snapshot becomes 409 ORDER_NOT_ACCEPTABLE and an error is passed on, with nothing written unless the acknowledgement was lost; success adds one entry to the log |
| Orders.Service.Get | internal/orders/service.go:51-83 | the read through the cache, its error classification, and that only a load that found the order is cached |
| Orders.Service.DoRequested | internal/orders/service.go:115-170 | ids defaulted, payload and event type filled in, duplicates classified, step by step as `RequestedReply` says |
| Orders.Service.Requested | internal/orders/service.go:86-113 | with telemetry the caller gets the same answer and the log the same rows; the job fails iff the answer is an error that does not map to a 4xx |
| Orders.GetKeepsHonesty | internal/orders/service.go:69-75 | reading through the cache keeps every view in it an old truth |
| Orders.FoundViewsAreStored | internal/orders/service.go:69-76 | a read adds to what can be served exactly the view its own load found, under its own key |
| Orders.AnswersOfGet | internal/orders/service.go:51-83 | every answer of a read: 400 for an id that is no uuid, the view served, the cache's own failure, the load's failure as the cache relayed it, 404 ORDER_NOT_FOUND for a state without the order, else the order's view in the load's snapshot |
| Orders.NotFoundMeansAbsent | internal/orders/service.go:55-82 | ORDER_NOT_FOUND is the answer iff it rests on a successful load of a state without the order, even if the cache flattened the error |
| Orders.RequestAnnouncesItself | internal/orders/service.go:131-151 | the JSON of a prepared request, field by field: its outbox id, version 1, the instant, order, rider and trip, and the trace context beside them; the row ids are the generated ones |
| Orders.GivenIdsAreKept | internal/orders/service.go:131-137 | row ids that are given are kept, missing ones are generated |
| Orders.DuplicateIsConflict | internal/orders/service.go:153-164 | every answer over a working connection: 400 for a blank id, the cast's own error as a 500, 409 ORDER_ALREADY_EXISTS for a committed order whichever key is reported and however it is wrapped, all with nothing written; any other request creates exactly its order |
| Orders.WrappedDuplicateIsConflict | internal/orders/service.go:154-160 | the 409 is given as well when the driver wraps the violation |
| Orders.DuplicatesExactly | internal/orders/service.go:172-185 | an error is a duplicate iff its first *PgError has SQLSTATE 23505 and names one of the two order keys; any other error is passed on |
| Orders.RequestOverFailingConnection | internal/orders/repository.go:44-56 | an error of the connection is passed on; nothing is written unless the answer was lost |
| Orders.RequestCommits | internal/orders/service.go:153-169 | a request that succeeds has added one entry, its own order, and echoes the input |
| Orders.JobFailsForServerErrors | platform/platform.go:111-117 | a job fails iff the answer is an error whose first *HTTPError, if any, has no 4xx status |
| Drivers.Service.DoAccepted | internal/drivers/service.go:75-129 | validation, early check, payload, write and classification in the order of the source, as `AcceptReply` says |
| Drivers.Service.Accepted | internal/drivers/service.go:46-73 | with telemetry the caller gets the same answer and the log the same rows; the job fails iff the answer is an error that does not map to a 4xx |
| Drivers.ReaderChangesNoAnswer | internal/drivers/service.go:94-103 | whatever the reader answers, an old view, a new one or a failure, the reply is the one the service without a reader gives, from the same statement or from one taken now, iff the request does not stop early, or its driver fails uuid.Parse, or all its ids pass the cast |
| Drivers.ReaderChangesNoAnswerInAnyRun | internal/drivers/service.go:37-43 | the same condition at every point of every run over the adversarial cache, for every accept |
| Drivers.ReaderHidesTheCast | internal/drivers/service.go:90-103 | what happens otherwise: 409 with the reader, the cast's error as a 500 without |
| Drivers.UrnDriverIsAnsweredDifferently | internal/drivers/service.go:90-103 | a concrete such request: a driver in URN form that only uuid.Parse takes, and a cached view of the accepted order |
| Drivers.AcceptAnnouncesItself | internal/drivers/service.go:104-106 | the JSON of a prepared accept, field by field: its outbox id, version 1, the instant, order and driver, and the trace context beside them; each row id is the one generated for it |
| Drivers.AnswersOfAccept | internal/drivers/service.go:107-128 | every answer of an accept that reached the database: success iff the order was requested in the snapshot and still is, writing exactly its rows; 409 ORDER_NOT_ACCEPTABLE iff it was not; 409 ORDER_ALREADY_ACCEPTED iff the race was lost and the unwrapped error names the acceptance key, else an internal error |
| Drivers.AnswersBeforeTheStatement | internal/drivers/service.go:86-103 | ids that are no uuids are a 400, a view that is no longer "requested" is 409 ORDER_NOT_ACCEPTABLE, and any other reading changes nothing |
| Drivers.ConflictsExactly | internal/drivers/service.go:107-122 | which errors become which conflict: the type assertion looks at the error itself, never at what it wraps; any other error is passed on |
| Drivers.TwoConflicts | internal/drivers/service.go:114-120 | the two conflicts have different codes |
| Drivers.AcceptOverFailingConnection | internal/drivers/repository.go:45-49 | an error of the connection is classified like any other; nothing is written unless the answer was lost |
| Handlers.Handler.Request | internal/orders/handler.go:47-86 | the staged defaults for id and rider, validation, and the answer for each outcome |
| Handlers.Handler.Get | internal/orders/handler.go:92-110 | header validation, the read, and the owner comparison: a view is shown only under its own rider's text |
| Handlers.CreatedOrderIsCommitted | internal/orders/handler.go:53-85 | a 201 means one new order is committed, under the id of the body, else the generated one, for the rider of the header, else of the body, else a new one; the response names the same |
| Handlers.AnswersOfPost | internal/orders/handler.go:47-86 | every answer to a POST: 400 for a body or an id that is no good, with nothing written, else the service's order as 201 or its error's envelope |
| Handlers.AnswersOfFailedRead | internal/orders/handler.go:92-104 | a failed GET: 400 for bad ids, 404 ORDER_NOT_FOUND for a missing order, else the error's envelope |
| Handlers.AbortAnswers | platform/platform.go:181-194 | the envelope of every error: status, code and message of its first *HTTPError, or 500 INTERNAL_ERROR |
| Handlers.ShownExactlyToItsRider | internal/orders/handler.go:88-109 | however stale the view, the order is shown iff the header is the text of the rider recorded with it, and then with its own id, rider, trip and time; otherwise the answer is the 404 ORDER_NOT_FOUND of a missing order, or 400 if the header is no uuid |
| Handlers.OrdersAreShownToTheirRider | internal/orders/handler.go:88-109 | in every run over the adversarial cache an order that is read is shown iff the header is the text of the recorded rider |
| Handlers.OwnerInUpperCaseIsTurnedAway | internal/orders/handler.go:105-108 | a concrete family of owners that are turned away: RFC 9562 ids spelled in upper case |
| Rfc9562.RfcIsLawful | internal/orders/handler.go:63-70 | the RFC 9562 text form satisfies everything assumed of uuid texts |
| Rfc9562.TextForm | internal/orders/repository.go:70 | the printed id digit by digit, with its hyphens |
| Rfc9562.UpperSpellsTheSameId | internal/orders/service.go:69 | one id has several spellings, hence several cache keys |
| Errors.AsHttpFindsFirst | platform/platform.go:114-117 | the search through an error tree finds the first *HTTPError in depth-first order, or there is none |
| Errors.AsPgFindsFirst | internal/orders/service.go:154-155 | the same search for a *PgError, through *HTTPError causes, wrapped and joined errors |
| Errors.MapErrorAnswers | platform/platform.go:155-164 | every error maps to its first *HTTPError, or to a 500 INTERNAL_ERROR that wraps it |
| Errors.ClientErrorsAreThe4xxAnswers | platform/platform.go:111-117 | over trees of any shape an error is a client error iff it maps to a 4xx answer, iff its first *HTTPError has a 4xx status |
| Errors.FlatteningKeepsCodes | platform/platform.go:119-131 | for an *HTTPError, asking for any colon-free code after flattening gives the same answer iff its own code has no colon |
| Errors.PrefixHidesTheCode | platform/platform.go:119-130 | an *HTTPError that was wrapped and then flattened is found under the text before the first colon: a piece of the prefix, or prefix and code together |
| TraceContext.InjectTraceContext | platform/context.go:20-39 | the payload is returned as it is without a span or when it is not an object; otherwise only the reserved key is set |
| TraceContext.Injected | platform/context.go:18-19 | every other field is kept and the reserved key holds the encoded carrier |
| TraceContext.ExtractAfterInject | platform/context.go:42-52 | extraction after injection gives the carrier back iff every differently spelled key decodes and adds no entry of its own |
| TraceContext.RoundTripExactly | platform/context.go:42-52 | the same condition on the payload itself: every other spelling holds null or an object of strings and nulls, and after the last null names nothing the carrier does not |
| TraceContext.NothingToExtract | platform/context.go:48-50 | what is no JSON object, or has the key in no spelling, yields no context |
| TraceContext.SpellingsOfTheKey | platform/context.go:45-47 | the spellings of the key that are decoded: any mix of upper and lower case |
| TraceContext.RoundTrip | platform/context.go:18-52 | so it does for every payload without a case variant of the key |
| TraceContext.StrayKeyPollutes | platform/context.go:44-51 | a payload with a case variant that carries another entry breaks the round trip |
| TraceContext.LastInjectionWins | platform/context.go:34 | a second injection leaves no trace of the first |
| ResponseWriter.ObservedWriter.WriteHeaderNow | platform/middleware.go:71-76 | the header is passed through the wrapper once, then written by gin's writer |
| ResponseWriter.ObservedWriter.Write | platform/middleware.go:78-86 | header first, then the bytes through the wrapper; Write and WriteString alike |
| ResponseWriter.TelemetryMiddleware | platform/middleware.go:34-44 | after any handler the client got one status, and the wrapper saw that status once, before any byte, and as many bytes as the body has |
| ResponseWriter.TelemetrySeesTheResponse | platform/middleware.go:61-86 | the same for every sequence of calls, whole or cut short by the connection |
| ResponseWriter.ClientGetsWhatWasWritten | platform/middleware.go:71-86 | the client gets, once, the last status chosen before anything was sent, and the bytes in the order written, and the telemetry the same status and their number |
| ResponseWriter.ResponseIsUntouched | platform/middleware.go:61-65 | going through the wrapper changes neither status, body nor bookkeeping |

## Left out

- The process: main, router assembly, server, shutdown, environment readers, configuration.
- CORS, security headers, request ids and log sanitising: each is one easy member.
- The accept handler of the drivers package: it checks one header and passes generated ids on.
- The inside of the cache, database, telemetry, gin, pgx and uuid libraries; no bound in seconds is claimed for the age of a cached view.
- Lock waiting, deadlock detection and serialization failures inside PostgreSQL: a statement may be aborted at any time instead.
- A commit whose acknowledgement is lost is a fault of the database call in `Repositories`; in `Protocol` the outcome of a statement is its fate in the database, not what its caller heard.
- The trace-level machines carry calls whose uuid casts succeeded; a failed cast writes nothing and is an error of the call in `Repositories`.
- StaleReads.EarlyCheckIsOptimisation: says nothing of an accept whose ids fail the cast, for which the property is false; `Drivers.ReaderChangesNoAnswerInAnyRun` decides every accept.
- Caches other than those that pass a failed load on as it is, wrapped with %w or flattened to its bare string: `Errors.PrefixHidesTheCode` says what the prefix test makes of text put before a flattened error.
- JSON text, number formats, spans, logs, metric labels and counters. Coordinates are only copied and compared.
- Decoding of an event compares field names exactly and tells the two events apart by the driver field, not by the configured topic, which may be empty.
- Status ids other than 1 and 3: no statement here writes them.
- Flush and Hijack on the response writer: they bypass the observed writer.
- Publishing the outbox and the Socket.IO gateway: they live in other repositories.
