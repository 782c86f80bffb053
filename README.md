# Meeting-room reservations: overlap checks, payload validation and request flows

A Dafny model of the reservation core of a meeting-room booking backend. Users book a room for an
interval `[from_reserve, to_reserve]`. A booking is refused when it meets another booking of the same
room, including one that merely touches it at a boundary instant. It is also refused when it starts
at or before the current instant, or when it does not start before it ends. Only the owner or a
superuser may change or cancel a booking.

The model has six modules:

- `Models` (models.dfy): the reservation row (`id`, `fromReserve`, `toReserve`, `meetingroomId`, a
  nullable `userId`), the caller (`User`), and `Option`/`Result`/`Outcome` wrappers.
- `Crud` (crud.dfy): the three reservation queries as pure functions over the table, a `seq` of rows.
  `Where` plays the part of `select ... where ...`. The lemmas are about the overlap condition.
- `Schemas` (schemas.dfy): the pydantic shapes `ReservationUpdate`, `ReservationCreate` and
  `ReservationDB`. A request body is a `map<string, int>`. `Validate` applies pydantic's order:
  field errors first (missing fields, unknown fields, the future-start check), then the root
  start-before-end validator, and only when no field failed. `ResponseBody` and `ResponseBodies` are
  the `response_model` / `response_model_exclude` step that turns rows into response bodies.
- `Store` (store.dfy): the `Database` class. It holds the reservation table, the auto-increment
  counter and the ids of existing rooms. Its methods are the generic create / update / remove writes.
- `Schedule` (schedule.dfy): the invariant the overlap check protects. Every row starts before it
  ends, and no two rows of a room share an instant. Lemmas show that each guarded write keeps it.
- `Endpoints` (endpoints.dfy): the checks run before a write (room exists, caller may edit, no
  overlap) and the five handlers. Each handler is a method that takes the database. It either fails with
  the table unchanged or performs exactly one write. A `Scenario` module holds three client methods.
  They replay booking, double booking, moving over one's own slot and cancel-then-rebook, using only
  the handlers' contracts.

Timestamps and user ids are integers. The current instant `now` is a parameter of validation and of
the future-reservations query.

`check_from_reserve_later_than_now` is a field validator and `check_from_reserve_before_to_reserve`
is a root validator with `skip_on_failure=True`, so the future check runs first, and a payload that
is both in the past and inverted reports only the past-start error (`PastAndInvertedReportsPastOnly`).

## Model

| member | source | states |
|---|---|---|
| `Crud.ReservationsAtTheSameTime` | app/crud/reservation.py:14-52 | A row is returned iff it is in the table, belongs to the requested room, meets the candidate by one of the three inclusive clauses, and does not have the excluded id when one is given. When no id is given, nothing is excluded. Each such row appears as often as in the table. The result is empty iff no such row exists. |
| `Crud.FutureReservationsForRoom` | app/crud/reservation.py:54-70 | A row is returned iff it belongs to the room and its end is strictly after `now`, as often as it occurs in the table. |
| `Crud.GetByUser` | app/crud/reservation.py:72-80 | A row is returned iff its owner is the user, as often as it occurs in the table. Rows with no owner never appear. |
| `Crud.AtTheSameTimeIsIntersection` | app/crud/reservation.py:25-40 | For intervals whose start is not after their end, the three-clause test equals `cand.from <= ex.to && ex.from <= cand.to`. |
| `Crud.AtTheSameTimeSymmetric` | app/crud/reservation.py:25-40 | For well-formed intervals the test gives the same answer with candidate and existing row swapped. |
| `Crud.TouchingIntervalsClash` | app/crud/reservation.py:26-35 | A candidate that ends where the existing row starts, or starts where it ends, is reported, because BETWEEN is inclusive. |
| `Crud.SeparatedIntervalsDoNotClash` | app/crud/reservation.py:25-40 | For well-formed intervals, a row escapes the test iff the candidate lies strictly before it or strictly after it. |
| `Crud.OwnSlotClashesWithoutExclusion` | app/crud/reservation.py:23-41 | Without an excluded id, a stored row is always reported against its own interval. |
| `Crud.OwnSlotIgnoredWithExclusion` | app/crud/reservation.py:43-48 | With its own id excluded, a row that is alone in its room meets nothing, whatever interval it moves to. |
| `Schemas.Validate` | app/schemas/reservation.py:16-59 | A payload is accepted iff it has every required field of its shape, has no unknown field, starts after `now` (update and create only) and starts before it ends. Accepted values are the input unchanged. A rejection carries at least one error. The order error appears only alone, because the root check is skipped after any field error. |
| `Schemas.InvertedIntervalRejected` | app/schemas/reservation.py:23-30 | Every shape rejects `from_reserve >= to_reserve`, including equal start and end. |
| `Schemas.PastStartRejected` | app/schemas/reservation.py:35-42 | Update and create reject `from_reserve <= now`, including a start exactly at `now`. The future-start error is among the reasons. |
| `Schemas.PastAndInvertedReportsPastOnly` | app/schemas/reservation.py:23-42 | A well-keyed update or create payload that is both in the past and inverted is rejected with exactly the future-start error. |
| `Schemas.OwnerCannotBeSupplied` | app/schemas/reservation.py:20-21 | Update and create reject any body that carries `user_id`, as an unknown field. |
| `Schemas.CreateExtendsUpdate` | app/schemas/reservation.py:46-47 | A create payload is accepted iff it has `meetingroom_id` and the rest is an accepted update payload. |
| `Schemas.ReadShapeIgnoresNow` | app/schemas/reservation.py:50-56 | The read shape gives the same verdict at every instant. Past reservations are not re-checked against the clock. |
| `Schemas.CreatedRowReadsBack` | app/schemas/reservation.py:46-56 | The row built from an accepted create payload passes the read shape. Its interval and room come back unchanged, and its owner comes back as the given user. |
| `Schemas.ResponseBody` | app/schemas/reservation.py:53-59 | A row serialises iff it starts before it ends, whether or not it lies in the past. A NULL owner leaves the `user_id` key out (see "## Left out"). The body has exactly the row's fields minus the excluded keys. |
| `Schemas.ResponseBodies` | app/api/endpoints/reservation.py:40-45 | A list serialises iff every row does. It then has one body per row, each the body of that row. |
| `Store.Database.Get` | app/api/endpoints/reservation.py:81-83 | Finds a row with the id iff one exists, and returns a row with that id. |
| `Store.Database.Create` | app/api/endpoints/reservation.py:32-36 | Appends one row with a fresh id. Its owner is the authenticated user, and the primary key stays unique. |
| `Store.Database.Update` | app/api/endpoints/reservation.py:112-118 | Rewrites only the interval of the row with that id. Id, room and owner are kept, and so is every other row. |
| `Store.Database.Remove` | app/api/endpoints/reservation.py:84-86 | Deletes the row with that id, returns it, and keeps every other row. |
| `Schedule.AtTheSameTimeIsOverlap` | app/crud/reservation.py:25-40 | For well-formed rows the query condition, taken in either direction, is the closed-interval overlap. |
| `Schedule.CreateKeepsSchedule` | app/api/endpoints/reservation.py:24-36 | Inserting a well-formed row whose overlap query came back empty keeps "no two rows of a room overlap". |
| `Schedule.UpdateKeepsSchedule` | app/api/endpoints/reservation.py:99-118 | Rewriting a row's interval keeps the schedule, given that the overlap query in its room, excluding its own id, came back empty. |
| `Schedule.DeleteKeepsSchedule` | app/api/endpoints/reservation.py:81-87 | Deleting keeps the schedule. |
| `Schedule.UpdateKeepsIdsUnique` | app/api/endpoints/reservation.py:112-118 | Rewriting a row under its own id keeps the primary key unique. |
| `Schedule.BackToBackBookingRefused` | app/crud/reservation.py:26-35 | A booking starting exactly when a row of the same room ends is reported as a conflict with that row. |
| `Endpoints.CheckMeetingRoomExists` | app/api/endpoints/reservation.py:24-26 | Passes iff the room exists, and fails with room-not-found otherwise. |
| `Endpoints.CheckReservationBeforeEdit` | app/api/endpoints/reservation.py:81-83 | Not-found iff no row has the id. Forbidden iff the row exists and the caller is neither its owner nor a superuser; a row with no owner counts as someone else's. Otherwise it returns that row. |
| `Endpoints.CheckReservationIntersections` | app/api/endpoints/reservation.py:27-31 | Passes iff no row of the room, other than the excluded id, meets the interval. A failure carries a non-empty list of conflicts. |
| `Endpoints.CreateReservation` | app/api/endpoints/reservation.py:17-37 | Succeeds iff body validation, the room check and the overlap check all pass, in that order. The first failing check decides the error. On success it inserts one row owned by the caller; on failure the table is untouched. It keeps the schedule invariant. |
| `Endpoints.GetAllReservations` | app/api/endpoints/reservation.py:40-51 | Only a superuser gets the table, and gets all of it. Anyone else is forbidden. |
| `Endpoints.GetMyReservations` | app/api/endpoints/reservation.py:54-71 | Returns exactly the rows owned by the caller, each as often as it occurs in the table. |
| `Endpoints.MyReservationsOmitOwner` | app/api/endpoints/reservation.py:54-59 | The "my reservations" response over a table whose rows all start before they end always serialises, with one body per row and no `user_id` key in any body. |
| `Endpoints.DeleteReservation` | app/api/endpoints/reservation.py:74-87 | Returns exactly what the edit check returns. On success it removes that row and only that row; on failure nothing changes. It keeps the schedule invariant. |
| `Endpoints.UpdateReservation` | app/api/endpoints/reservation.py:90-119 | Checks run in order: body validation, then existence and rights, then the overlap check. The overlap check uses the stored room and excludes the row's own id. Only then does the write happen. The result keeps the id, room and owner and takes the new interval. On failure nothing changes. It keeps the schedule invariant. |

## Left out

- Concurrency: the overlap check and the following write are separate steps with no lock, transaction or exclusion constraint. Two concurrent requests can both pass the check and both write. The handlers here run one at a time, so the schedule invariant they preserve is a sequential property only.
- SQLAlchemy sessions, `execute`/`scalars`, commits and async/await: the table is a sequence of rows. Storage failures are not modelled.
- The generic CRUD base class (`get`, `create`, `update`, `remove`, `get_multi`) is not part of this model. `Store.Database` states the contracts assumed for it: a fresh auto-increment id, an update that rewrites the submitted fields only, and a delete by primary key.
- app/api/validators.py is not part of this model. The three checks in `Endpoints` state the behaviour assumed for it: 404 for a missing room or reservation, 403 when the caller is neither owner nor superuser, 422 when the overlap query is non-empty.
- Routing, dependency injection, authentication and the 401 for an anonymous caller: the authenticated user is a parameter. The superuser dependency on "all reservations" is modelled as a 403 for other callers.
- The wall clock: `now` is a parameter. The example strings `FROM_TIME`/`TO_TIME` are documentation only.
- Datetime parsing and type coercion: body values are already integers, so pydantic parse errors do not arise. Integer timestamps also hide the offset-aware case: a `from_reserve` with a UTC offset makes the comparison with the naive `datetime.now()` at app/schemas/reservation.py:37 raise TypeError, which pydantic reports as a 422, so such a payload is always rejected; the root validator at app/schemas/reservation.py:25 fails the same way when the two fields mix offset-aware and naive datetimes. Error messages and error locations are not modelled. Errors are a set: pydantic reports them in a fixed order (field errors, then unknown fields sorted by name, then the root error), but error order and locations are not modelled.
- Schemas.Serialize: a row with a NULL owner is serialised with the `user_id` key absent, whereas the response model keeps the key with a JSON null; a missing key stands for that null.
- The text of the 422 overlap error: the model carries the conflicting rows themselves.
- Responses of the single-row handlers: they return the row, and its body is `Schemas.ResponseBody(row, {})`. `Schemas.CreatedRowReadsBack` shows that this always succeeds for a created row.
- app/api/endpoints/user.py (auth router wiring and a delete endpoint that always answers 405) and the migration script carry no reservation logic.
- User ids are integers, not UUIDs; only equality between them is used.
- Crud.ReservationsAtTheSameTime: the result holds each matching row exactly as often as the table does, and no other row. The order of the rows, which SQL leaves unspecified without `ORDER BY`, is not stated.
- Crud.FutureReservationsForRoom: the same multiplicity is stated; the row order is not, for the same reason.
- Crud.GetByUser: the same multiplicity is stated; the row order is not, for the same reason.
- Endpoints.GetMyReservations: the same multiplicity is stated; the row order is not, for the same reason.
- Nullable columns: the migration declares `from_reserve`, `to_reserve` and `meetingroom_id` nullable. The model takes them as non-null integers. No handler writes such a row; a row with a NULL interval would match none of the BETWEEN clauses and would fail the read shape.
