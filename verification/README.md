# Parking sessions: a Dafny model

This project models the state-changing core of a small parking service
(`hw30/parking_app`). The service keeps three tables: clients, parking lots,
and client-parking sessions. A session is active while its `time_out` is
NULL. It has four state-changing handlers:

- `POST /clients` registers a client.
- `POST /parkings` registers a parking lot, with every place free.
- `POST /client_parkings` lets a client enter a lot. A fixed, ordered chain
  of checks runs first. Then the lot's free-place counter goes down by one
  and an active session is appended.
- `DELETE /client_parkings` lets a client leave. It has its own ordered
  checks. Then the counter goes up by one and the session gets its exit time.

Each handler is a pure function from the tables and a request to a `Reply`.
A reply holds the tables after the request and the response: created,
entered, exited, or failed with an error kind. Each error kind has a fixed
HTTP status (`Errors.Status`) and message (`Errors.Message`).

Files:

- `models.dfy` (module `Models`): the record shapes of `models.py`; the
  tables as `State`; request members as `Field` (missing key, `null`, value);
  Python truthiness of ids; the active-session filter and `.first()`; the
  per-pair unique constraint.
- `errors.dfy` (module `Errors`): the error kinds, their status codes and
  their messages.
- `routes.dfy` (module `Routes`): the four handlers, and `Handle`, which
  dispatches one request.
- `lifecycle.dfy` (module `Lifecycle`): the invariants, the proofs that every
  handler keeps them, and the facts about entering and leaving.
- `findings.dfy` (module `Findings`): re-entry after exit (see Findings).

Uncaught exceptions are modelled as error kinds answered with 500. The
transaction is then rolled back, so the tables stay as they were. There are
three such exceptions:

- `IntegrityViolation`: a NOT NULL or UNIQUE constraint fails at commit.
- `NullComparison`: `None <= 0` raises a TypeError.
- `MissingParkingRecord`: an attribute is read from a parking that is `None`.

Row ids come from counters in `State`. Rows are never deleted, so the next
id is always the largest id so far plus one.

Time is an abstract integer `now` passed to each handler. The invariants
hold for every history whose request times never go back
(`Lifecycle.ReachableValid`).

Edge cases of the code that the model keeps as they are:

- Exit with a missing parking record. The exit route reads
  `parking.count_available_places` without checking that the lookup found a
  row (hw30/parking_app/routes.py:155-156). A missing parking therefore
  raises AttributeError and the answer is 500. `Lifecycle.ExitNeverCrashes`
  shows this cannot happen from a valid state.
- One row per pair. The table's `UniqueConstraint("client_id", "parking_id")`
  (hw30/parking_app/models.py:42-46) also counts closed sessions. The entry
  route looks only for an active one (hw30/parking_app/routes.py:113-118).
  See Findings.
- Full before duplicate. The entry route checks for free places
  (hw30/parking_app/routes.py:110-111) before it looks for an active session
  of the pair (hw30/parking_app/routes.py:113-118). So a second entry into a
  one-place parking is answered "No available places"
  (`Findings.OnePlaceWalkThrough`). The duplicate answer appears only when
  free places remain (`Lifecycle.EnterTwiceIsDuplicate`).
- Payment on exit. `not client.credit_card`
  (hw30/parking_app/routes.py:151) refuses a `null` card and also an
  empty-string card (`Models.HasCard`).
- Client registration. The `credit_card` key must be in the body
  (hw30/parking_app/routes.py:53-55), though its value may be `null`. An
  absent key is answered with 400.
- `opened: null` on parking registration. The ORM leaves a `None`
  attribute out of the INSERT when its column has a default
  (hw30/parking_app/models.py:22), so the parking is stored as open, just as
  when the key is missing (`Routes.OpenedColumn`).

## Model

| member | source | states |
|---|---|---|
| Models.Stored | hw30/parking_app/models.py:9-12 | A `null` request member is stored as NULL and a value as itself. The nullable columns (`credit_card`, `car_number`) keep that NULL. |
| Models.FindActive | hw30/parking_app/routes.py:142-144 | The lookup returns an index exactly when an active session exists for the pair. The row it returns matches the filter, and no earlier row does (`.first()`). |
| Models.AppendUnique | hw30/parking_app/models.py:42-46 | On a table with at most one row per pair, appending a row keeps that property iff no row, open or closed, already has the new row's pair. |
| Errors.Status | hw30/parking_app/routes.py:96-152 | Client-not-found, parking-not-found and no-active-session are 404. Uncaught exceptions are 500. Every other handled error is 400. |
| Errors.Message | hw30/parking_app/routes.py:107-152 | The closed, full and no-card errors carry "closed", "available places" and "credit card" in their text. |
| Routes.StatusOf | hw30/parking_app/routes.py:65-162 | Creations and entries answer 201, exits 200, and failures their error's status. |
| Routes.CreateClient | hw30/parking_app/routes.py:51-65 | Fails with 400 iff one of the four keys is absent. A present `null` card is accepted. A `null` name or surname fails the NOT NULL columns (500). Otherwise one client is added under a fresh id, with the card and car number as sent, and nothing else changes. Failure leaves the tables unchanged. |
| Routes.OpenedColumn | hw30/parking_app/routes.py:81 | A missing `opened` key and an explicit `null` are both stored as true (the column default), and a value is stored as itself. |
| Routes.CreateParking | hw30/parking_app/routes.py:69-87 | Each outcome holds iff its condition holds: a missing key gives 400; a `null` count gives 500; a count `<= 0` gives 400 with no parking added; a `null` address gives 500. On success one parking is added under a fresh id, with `count_available_places == count_places` and `opened` defaulting to true. Nothing else changes. |
| Routes.EnterParkingIntended | hw30/parking_app/routes.py:91-130 | Each outcome holds iff all earlier checks passed and its own failed, in this order: falsy ids (400), unknown client (404), unknown parking (404), closed (400), `available <= 0` (400), active session for the pair (400). On success exactly that parking's counter drops by one and one active session for the pair, at `now`, is appended. Nothing else changes. Errors leave the tables unchanged. |
| Routes.EnterParking | hw30/parking_app/models.py:42-46 | The route as written, with the commit-time unique constraint. On a table that meets the constraint, it answers 500 iff the route's own checks pass and the pair already has a row, open or closed. Otherwise it answers as `EnterParkingIntended`. It keeps the per-pair uniqueness of rows. |
| Routes.ExitParking | hw30/parking_app/routes.py:134-162 | Each outcome holds iff all earlier checks passed and its own failed, in this order: falsy ids (400), no active session (404), client missing or without a usable card (400), missing parking (500). On success that parking's counter rises by one, with no cap, and the first active session of the pair gets `time_out = now`. Nothing else changes. Errors leave the tables unchanged. |
| Routes.Handle | hw30/parking_app/routes.py:50-162 | A failed request of any kind leaves the tables unchanged. |
| Lifecycle.ActiveAtAppend | hw30/parking_app/routes.py:124-127 | Appending a session adds one to the active count of its parking if it is active, and nothing to any other parking. |
| Lifecycle.ActiveAtUpdate | hw30/parking_app/routes.py:159 | Replacing one session row changes each parking's active count by the difference the old and new row make. |
| Lifecycle.ActiveAtUnreferenced | hw30/parking_app/routes.py:79-86 | A parking no session points at has no active sessions. |
| Lifecycle.CapacityBounds | hw30/parking_app/models.py:23-24 | In a valid state, `0 <= count_available_places <= count_places`. |
| Lifecycle.StoredIdsAreTruthy | hw30/parking_app/routes.py:96 | Ids of stored rows are never taken as missing by the falsiness check. |
| Lifecycle.EmptyValid | hw30/parking_app/models.py:6-49 | The empty database satisfies every invariant. |
| Lifecycle.CreateClientPreserves | hw30/parking_app/routes.py:57-64 | Registering a client keeps every invariant and leaves the sessions untouched. |
| Lifecycle.CreateParkingPreserves | hw30/parking_app/routes.py:79-86 | Registering a parking keeps every invariant and leaves the sessions untouched. A new parking has all places free and no active sessions. |
| Lifecycle.EnterIntendedPreserves | hw30/parking_app/routes.py:113-128 | Entry keeps these invariants: free places plus active sessions equal capacity, the counter is not negative, at most one active session per pair, sessions point at existing rows, and times are ordered. |
| Lifecycle.EnterPreserves | hw30/parking_app/models.py:42-46 | Entry as written keeps those invariants and also the uniqueness of rows per pair. |
| Lifecycle.ExitPreserves | hw30/parking_app/routes.py:154-160 | Exit keeps every invariant, including uniqueness of rows per pair. A closed session ends no earlier than it started. |
| Lifecycle.HandlePreserves | hw30/parking_app/routes.py:50-162 | Every request, as the service handles it, keeps every invariant. |
| Lifecycle.ReplayPreserves | hw30/parking_app/routes.py:50-162 | A sequence of requests at non-decreasing times keeps every invariant. |
| Lifecycle.ReachableValid | hw30/parking_app/models.py:22-46 | In every state reachable from the empty database, each parking has `0 <= available <= count_places`. At most one session per pair is active, at most one row exists per pair, and every `time_out >= time_in`. |
| Lifecycle.ExitNeverCrashes | hw30/parking_app/routes.py:155-156 | The unchecked parking lookup on exit never fails from a valid state. |
| Lifecycle.ExitWithinCapacity | hw30/parking_app/routes.py:154-156 | The uncapped increment on exit never exceeds `count_places` from a valid state. |
| Lifecycle.EnterThenExitRestores | hw30/parking_app/routes.py:121-160 | An entry and then an exit of the same pair by a client with a card restores every parking exactly. The log keeps the session, closed at the exit time. |
| Lifecycle.EnterThenExitWithoutCard | hw30/parking_app/routes.py:149-152 | An entry and then an exit by a client without a usable card: the exit is refused (400) and the place stays taken. |
| Lifecycle.EnterTwiceIsDuplicate | hw30/parking_app/routes.py:113-118 | A second entry of the same pair, while places remain, is refused as a duplicate. |
| Findings.ReenterAfterExitCrashes | hw30/parking_app/models.py:42-46 | As written: enter, exit, then enter again passes every route check but answers 500. |
| Findings.ReenterAfterExitSucceeds | hw30/parking_app/routes.py:113-128 | Corrected: enter, exit, then enter again succeeds and takes a place again. |
| Findings.OnePlaceWalkThrough | hw30/parking_app/routes.py:68-162 | The one-place walk-through on a fresh database: the entry gives 201 and takes the place; a second entry gives 400 full; the exit gives 200, frees the place and closes the session after it started; a re-entry gives 500. |

## Left out

- Flask routing, JSON decoding and encoding, and `request.get_json`. Requests and responses are plain datatypes. JSON members of the wrong type (a string `count_places`, a non-object body) are not modelled.
- SQLAlchemy session mechanics (`add`, `commit`, `query`), the relationships and backrefs (models.py:48-49), and the app factory in `__init__.py`. The tables are the abstract `State`, and a commit is one atomic step.
- The read-only handlers `get_clients` and `get_client`. They only project rows.
- The wall clock. `datetime.now(UTC)` becomes the `now` parameter. The `time_in` column default is computed once at import, but the entry route always supplies `time_in`, so that default is never used here.
- Column widths (`String(50)`, `String(10)`). SQLite does not enforce them.
- 64-bit integers. Integers here are unbounded, while SQLite's are 64-bit. No id counter comes near that bound. Request values can, though: JSON integers are unbounded. A `client_id` or `parking_id` of 2^63 or more makes sqlite3 raise OverflowError when it binds the value, so the source answers 500. The model answers 404 instead (`ClientNotFound` or `NoActiveSession`). A `count_places` of 2^63 or more fails at the INSERT (500), where the model answers `Created`.
- Foreign keys, which SQLite does not enforce by default. The model never stores a session for an unknown client or parking (`Lifecycle.SessionsReferenceRows`).
- Concurrent requests and transaction isolation. Each handler is one atomic step.
- The test fixtures and factories. Their seeded rows are not part of `Models.Empty`.

## Findings

| source | as written | input that shows it | evidently intended | confidence | as-written member | corrected member |
|---|---|---|---|---|---|---|
| hw30/parking_app/models.py:42-46 | The unique constraint on (`client_id`, `parking_id`) covers closed sessions too. A new row for a pair that already has any row fails at commit. | Create a one-place parking and a client with a card. Enter (201), exit (200), then enter again: every route check passes, but the commit raises an integrity error, so the answer is 500. | The route looks only for an active session (routes.py:113-118), so a client should be able to enter the same parking again after leaving. | medium, not executed | Findings.ReenterAfterExitCrashes | Findings.ReenterAfterExitSucceeds |
