/**
 * The reservation request handlers and the checks they run before writing.
 *
 * Each handler receives the authenticated caller and, where it has one, the raw
 * request body; the body is validated against its shape before the handler's
 * own checks run. Every handler either fails without touching the table or
 * performs exactly one write. The checks themselves (room exists, caller may
 * edit, no overlap) are written as functions of the table.
 */
module Endpoints {
  import opened Models
  import opened Crud
  import opened Schemas
  import opened Store
  import opened Schedule

  datatype ApiError =
    | Unprocessable(errors: set<FieldError>)   // 422: the request body does not fit its shape
    | RoomNotFound                             // 404: no meeting room with that id
    | ReservationNotFound                      // 404: no reservation with that id
    | Forbidden                                // 403: caller may not act on that reservation
    | Intersection(conflicts: seq<Reservation>) // 422: the interval meets other reservations

  /** Access policy: the owner or a superuser may edit; a row with no owner only a superuser. */
  predicate MayEdit(user: User, r: Reservation) {
    r.userId == Some(user.id) || user.isSuperuser
  }

  /** The room a reservation names must exist. */
  function CheckMeetingRoomExists(db: Database, meetingroomId: int): (o: Outcome<ApiError>)
    ensures o.Pass? <==> meetingroomId in db.rooms
    ensures o.Fail? ==> o.error == RoomNotFound
  {
    if meetingroomId in db.rooms then Pass else Fail(RoomNotFound)
  }

  /** The reservation must exist and the caller must be allowed to edit it. */
  function CheckReservationBeforeEdit(db: Database, reservationId: int, user: User): (r: Result<Reservation, ApiError>)
    reads db
    requires db.Valid()
    ensures r.Ok? ==> r.value in db.reservations && r.value.id == reservationId && MayEdit(user, r.value)
    ensures r == Err(ReservationNotFound) <==> forall x :: x in db.reservations ==> x.id != reservationId
    ensures r == Err(Forbidden) <==> exists x :: x in db.reservations && x.id == reservationId && !MayEdit(user, x)
    ensures r.Err? ==> r.error == ReservationNotFound || r.error == Forbidden
  {
    match db.Get(reservationId)
    case None => Err(ReservationNotFound)
    case Some(reservation) => if MayEdit(user, reservation) then Ok(reservation) else Err(Forbidden)
  }

  /** No other reservation of the room may share an instant with the interval. */
  function CheckReservationIntersections(
    db: Database, fromReserve: int, toReserve: int, meetingroomId: int, reservationId: Option<int>): (o: Outcome<ApiError>)
    reads db
    ensures o.Pass? <==> forall x ::
      && x in db.reservations
      && x.meetingroomId == meetingroomId
      && (reservationId.Some? ==> x.id != reservationId.value)
      ==> !AtTheSameTime(fromReserve, toReserve, x)
    ensures o.Fail? ==> o.error.Intersection? && o.error.conflicts != []
  {
    var conflicts := ReservationsAtTheSameTime(db.reservations, fromReserve, toReserve, meetingroomId, reservationId);
    if conflicts == [] then Pass else Fail(Intersection(conflicts))
  }

  /**
   * POST: validate the body as ReservationCreate, then check the room, then the
   * overlap, then insert a row owned by the caller.
   */
  method CreateReservation(db: Database, body: map<string, int>, user: User, now: int)
    returns (resp: Result<Reservation, ApiError>)
    requires db.Valid()
    modifies db
    ensures db.Valid()
    ensures resp.Ok? <==>
      && Validate(ReservationCreate, body, now).Accepted?
      && body[MeetingroomIdField] in db.rooms
      && old(CheckReservationIntersections(db, body[FromReserveField], body[ToReserveField], body[MeetingroomIdField], None)).Pass?
    ensures Validate(ReservationCreate, body, now).Rejected? ==>
      resp == Err(Unprocessable(Validate(ReservationCreate, body, now).errors))
    ensures Validate(ReservationCreate, body, now).Accepted? && body[MeetingroomIdField] !in db.rooms ==>
      resp == Err(RoomNotFound)
    ensures Validate(ReservationCreate, body, now).Accepted? && body[MeetingroomIdField] in db.rooms ==>
      var check := old(CheckReservationIntersections(db, body[FromReserveField], body[ToReserveField], body[MeetingroomIdField], None));
      check.Fail? ==> resp == Err(check.error)
    ensures resp.Ok? ==>
      && resp.value == Reservation(old(db.nextId), body[FromReserveField], body[ToReserveField], body[MeetingroomIdField], Some(user.id))
      && db.reservations == old(db.reservations) + [resp.value]
    ensures resp.Err? ==> db.reservations == old(db.reservations) && db.nextId == old(db.nextId)
    ensures old(NoConflicts(db.reservations)) ==> NoConflicts(db.reservations)
  {
    var payload := Validate(ReservationCreate, body, now);
    if payload.Rejected? {
      return Err(Unprocessable(payload.errors));
    }
    var fromReserve, toReserve, meetingroomId := body[FromReserveField], body[ToReserveField], body[MeetingroomIdField];
    var room := CheckMeetingRoomExists(db, meetingroomId);
    if room.Fail? {
      return Err(room.error);
    }
    var overlap := CheckReservationIntersections(db, fromReserve, toReserve, meetingroomId, None);
    if overlap.Fail? {
      return Err(overlap.error);
    }
    ghost var before := db.reservations;
    var created := db.Create(fromReserve, toReserve, meetingroomId, user);
    if NoConflicts(before) {
      CreateKeepsSchedule(before, created);
    }
    resp := Ok(created);
  }

  /** GET all: superusers only; every row of the table. */
  method GetAllReservations(db: Database, user: User) returns (resp: Result<seq<Reservation>, ApiError>)
    ensures resp.Ok? <==> user.isSuperuser
    ensures resp.Ok? ==> resp.value == db.reservations
    ensures resp.Err? ==> resp.error == Forbidden
  {
    if !user.isSuperuser {
      return Err(Forbidden);
    }
    resp := Ok(db.reservations);
  }

  /** GET mine: the caller's own rows; the response leaves out their `user_id`. */
  method GetMyReservations(db: Database, user: User) returns (mine: seq<Reservation>)
    ensures forall x :: x in mine <==> x in db.reservations && x.userId == Some(user.id)
    ensures forall x :: multiset(mine)[x] == if x.userId == Some(user.id) then multiset(db.reservations)[x] else 0
  {
    mine := GetByUser(db.reservations, user);
  }

  /** DELETE: check existence and rights, then remove that row and return it. */
  method DeleteReservation(db: Database, reservationId: int, user: User)
    returns (resp: Result<Reservation, ApiError>)
    requires db.Valid()
    modifies db
    ensures db.Valid()
    ensures resp == old(CheckReservationBeforeEdit(db, reservationId, user))
    ensures resp.Ok? ==>
      && db.reservations == DeleteWhereId(old(db.reservations), reservationId)
      && forall x :: x in db.reservations <==> x in old(db.reservations) && x != resp.value
    ensures resp.Err? ==> db.reservations == old(db.reservations)
    ensures db.nextId == old(db.nextId)
    ensures old(NoConflicts(db.reservations)) ==> NoConflicts(db.reservations)
  {
    var reservation := CheckReservationBeforeEdit(db, reservationId, user);
    if reservation.Err? {
      return reservation;
    }
    ghost var before := db.reservations;
    var removed := db.Remove(reservation.value);
    if NoConflicts(before) {
      DeleteKeepsSchedule(before, reservationId);
    }
    resp := Ok(removed);
  }

  /**
   * PATCH: validate the body as ReservationUpdate, check existence and rights,
   * check the overlap in the stored room leaving the row itself out, then
   * rewrite its interval.
   */
  method UpdateReservation(db: Database, reservationId: int, body: map<string, int>, user: User, now: int)
    returns (resp: Result<Reservation, ApiError>)
    requires db.Valid()
    modifies db
    ensures db.Valid()
    ensures Validate(ReservationUpdate, body, now).Rejected? ==>
      resp == Err(Unprocessable(Validate(ReservationUpdate, body, now).errors))
    ensures Validate(ReservationUpdate, body, now).Accepted? ==>
      match old(CheckReservationBeforeEdit(db, reservationId, user))
      case Err(e) => resp == Err(e)
      case Ok(existing) =>
        var check := old(CheckReservationIntersections(
          db, body[FromReserveField], body[ToReserveField], existing.meetingroomId, Some(reservationId)));
        if check.Fail? then resp == Err(check.error)
        else resp == Ok(existing.(fromReserve := body[FromReserveField], toReserve := body[ToReserveField]))
    ensures resp.Ok? ==>
      && resp.value.id == reservationId
      && db.reservations == UpdateWhereId(old(db.reservations), resp.value)
    ensures resp.Err? ==> db.reservations == old(db.reservations)
    ensures db.nextId == old(db.nextId)
    ensures old(NoConflicts(db.reservations)) ==> NoConflicts(db.reservations)
  {
    var payload := Validate(ReservationUpdate, body, now);
    if payload.Rejected? {
      return Err(Unprocessable(payload.errors));
    }
    var fromReserve, toReserve := body[FromReserveField], body[ToReserveField];
    var reservation := CheckReservationBeforeEdit(db, reservationId, user);
    if reservation.Err? {
      return reservation;
    }
    var existing := reservation.value;
    var overlap := CheckReservationIntersections(db, fromReserve, toReserve, existing.meetingroomId, Some(reservationId));
    if overlap.Fail? {
      return Err(overlap.error);
    }
    ghost var before := db.reservations;
    var updated := db.Update(existing, fromReserve, toReserve);
    if NoConflicts(before) {
      UpdateKeepsSchedule(before, updated);
    }
    resp := Ok(updated);
  }

  /**
   * The body sent for "my reservations": when every listed row is well formed
   * it validates, holds one entry per row, and no entry carries `user_id`.
   */
  lemma MyReservationsOmitOwner(rows: seq<Reservation>, user: User)
    requires forall r :: r in rows ==> WellFormed(r)
    ensures ResponseBodies(GetByUser(rows, user), {UserIdField}).Ok?
    ensures var bodies := ResponseBodies(GetByUser(rows, user), {UserIdField}).value;
      && |bodies| == |GetByUser(rows, user)|
      && forall i :: 0 <= i < |bodies| ==> UserIdField !in bodies[i] && bodies[i][IdField] == GetByUser(rows, user)[i].id
  {
    var mine := GetByUser(rows, user);
    var bodies := ResponseBodies(mine, {UserIdField}).value;
    forall i | 0 <= i < |bodies|
      ensures UserIdField !in bodies[i] && bodies[i][IdField] == mine[i].id
    {
      assert ResponseBody(mine[i], {UserIdField}) == Ok(bodies[i]);
    }
  }
}

/**
 * A client of the handlers: two users competing for one room. What each call
 * returns follows from the handlers' contracts alone.
 */
module Scenario {
  import opened Models
  import opened Crud
  import opened Schemas
  import opened Store
  import opened Endpoints

  /** A second booking inside the first is refused, and only the owner may cancel the first. */
  method DoubleBookingRefused(now: int)
  {
    var db := new Database({7});
    var owner, other := User(1, false), User(2, false);
    var first := map[FromReserveField := now + 10, ToReserveField := now + 70, MeetingroomIdField := 7];
    var second := map[FromReserveField := now + 20, ToReserveField := now + 30, MeetingroomIdField := 7];
    assert first.Keys == RequiredFields(ReservationCreate) == second.Keys;

    var r1 := CreateReservation(db, first, owner, now);
    assert r1.Ok? && r1.value.userId == Some(owner.id);

    var r2 := CreateReservation(db, second, other, now);
    assert r1.value in db.reservations && AtTheSameTime(now + 20, now + 30, r1.value);
    assert r2.Err? && r2.error.Intersection?;
    assert db.reservations == [r1.value];

    var stolen := DeleteReservation(db, r1.value.id, other);
    assert !MayEdit(other, r1.value);
    assert stolen == Err(Forbidden);
  }

  /** The owner moves a booking over its own old slot: the update does not clash with itself. */
  method MoveOverOwnSlot(now: int)
  {
    var db := new Database({7});
    var owner := User(1, false);
    var first := map[FromReserveField := now + 10, ToReserveField := now + 70, MeetingroomIdField := 7];
    assert first.Keys == RequiredFields(ReservationCreate);
    var r1 := CreateReservation(db, first, owner, now);
    assert r1.Ok? && db.reservations == [r1.value];

    var later := map[FromReserveField := now + 10, ToReserveField := now + 80];
    assert later.Keys == RequiredFields(ReservationUpdate);
    assert CheckReservationBeforeEdit(db, r1.value.id, owner) == Ok(r1.value);
    var moved := UpdateReservation(db, r1.value.id, later, owner, now);
    assert moved.Ok? && moved.value.meetingroomId == 7 && moved.value.userId == Some(owner.id);
  }

  /** Once the owner cancels, another user can book an interval inside the freed slot. */
  method CancelFreesSlot(now: int)
  {
    var db := new Database({7});
    var owner, other := User(1, false), User(2, false);
    var first := map[FromReserveField := now + 10, ToReserveField := now + 70, MeetingroomIdField := 7];
    var second := map[FromReserveField := now + 20, ToReserveField := now + 30, MeetingroomIdField := 7];
    assert first.Keys == RequiredFields(ReservationCreate) == second.Keys;
    var r1 := CreateReservation(db, first, owner, now);
    assert r1.Ok? && db.reservations == [r1.value];

    var cancelled := DeleteReservation(db, r1.value.id, owner);
    assert cancelled == Ok(r1.value);
    assert forall x :: x !in db.reservations;

    var r2 := CreateReservation(db, second, other, now);
    assert r2.Ok?;
  }
}
