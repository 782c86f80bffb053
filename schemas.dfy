/**
 * The request and response shapes of a reservation and their validators.
 *
 * A payload is a JSON object whose values are all integers here (timestamps and
 * ids), i.e. a map from field name to value. Validation follows the pydantic
 * rules the shapes are declared with: every field is checked first (a missing
 * required field, an unknown field, and the field validator on `from_reserve`
 * each add an error), and the root validator that compares start and end runs
 * only when no field produced an error (`skip_on_failure`).
 */
module Schemas {
  import opened Models

  const FromReserveField: string := "from_reserve"
  const ToReserveField: string := "to_reserve"
  const MeetingroomIdField: string := "meetingroom_id"
  const IdField: string := "id"
  const UserIdField: string := "user_id"

  /**
   * ReservationUpdate and ReservationCreate carry the future-start check;
   * ReservationDB, the read shape, derives from the base shape only.
   */
  datatype Shape = ReservationUpdate | ReservationCreate | ReservationDB

  function RequiredFields(shape: Shape): set<string> {
    match shape
    case ReservationUpdate => {FromReserveField, ToReserveField}
    case ReservationCreate => {FromReserveField, ToReserveField, MeetingroomIdField}
    case ReservationDB => {FromReserveField, ToReserveField, IdField, MeetingroomIdField}
  }

  /** Fields that may be absent: the owner of a row is nullable. */
  function OptionalFields(shape: Shape): set<string> {
    if shape == ReservationDB then {UserIdField} else {}
  }

  predicate ChecksFuture(shape: Shape) {
    shape != ReservationDB
  }

  datatype FieldError =
    | Missing(field: string)
    | ExtraForbidden(field: string)
    | StartNotInFuture
    | StartNotBeforeEnd

  datatype Validation = Accepted(values: map<string, int>) | Rejected(errors: set<FieldError>)

  /** The errors found field by field, before any root validator. */
  function FieldErrors(shape: Shape, input: map<string, int>, now: int): set<FieldError> {
    (set f | f in RequiredFields(shape) && f !in input :: Missing(f))
    + (if ChecksFuture(shape) && FromReserveField in input && input[FromReserveField] <= now
       then {StartNotInFuture} else {})
    + (set k | k in input && k !in RequiredFields(shape) + OptionalFields(shape) :: ExtraForbidden(k))
  }

  /** What a payload acceptable for `shape` at instant `now` is, stated declaratively. */
  predicate Conforms(shape: Shape, input: map<string, int>, now: int) {
    && RequiredFields(shape) <= input.Keys
    && input.Keys <= RequiredFields(shape) + OptionalFields(shape)
    && FromReserveField in input && ToReserveField in input
    && (ChecksFuture(shape) ==> input[FromReserveField] > now)
    && input[FromReserveField] < input[ToReserveField]
  }

  /**
   * Parse `input` as `shape` at instant `now`. The validators hand the values
   * back unchanged, so an accepted payload is the input itself.
   */
  function Validate(shape: Shape, input: map<string, int>, now: int): (v: Validation)
    ensures v.Accepted? <==> Conforms(shape, input, now)
    ensures v.Accepted? ==> v.values == input
    ensures v.Rejected? ==> v.errors != {}
    ensures v.Rejected? && StartNotBeforeEnd in v.errors ==> v.errors == {StartNotBeforeEnd}
  {
    var errors := FieldErrors(shape, input, now);
    assert forall f :: f in RequiredFields(shape) && f !in input ==> Missing(f) in errors;
    assert forall k :: k in input && k !in RequiredFields(shape) + OptionalFields(shape) ==> ExtraForbidden(k) in errors;
    if errors != {} then
      Rejected(errors)
    else if input[FromReserveField] >= input[ToReserveField] then
      Rejected({StartNotBeforeEnd})
    else
      Accepted(input)
  }

  /**
   * The attributes read off a row for the ReservationDB response model; a NULL
   * owner is an absent key.
   */
  function Serialize(r: Reservation): (m: map<string, int>)
    ensures m.Keys == RequiredFields(ReservationDB) + (if r.userId.Some? then {UserIdField} else {})
    ensures m[IdField] == r.id && m[MeetingroomIdField] == r.meetingroomId
    ensures m[FromReserveField] == r.fromReserve && m[ToReserveField] == r.toReserve
    ensures r.userId.Some? ==> m[UserIdField] == r.userId.value
  {
    var base := map[IdField := r.id, FromReserveField := r.fromReserve,
                     ToReserveField := r.toReserve, MeetingroomIdField := r.meetingroomId];
    if r.userId.Some? then base[UserIdField := r.userId.value] else base
  }

  /**
   * The response body for one row: the row is validated as ReservationDB and
   * the `exclude` keys are then dropped. The read shape never looks at the
   * clock, so the instant passed to it is immaterial (ReadShapeIgnoresNow).
   */
  function ResponseBody(r: Reservation, exclude: set<string>): (b: Result<map<string, int>, set<FieldError>>)
    ensures b.Ok? <==> r.fromReserve < r.toReserve
    ensures b.Ok? ==> b.value.Keys == Serialize(r).Keys - exclude
    ensures b.Ok? ==> forall k :: k in b.value ==> b.value[k] == Serialize(r)[k]
  {
    match Validate(ReservationDB, Serialize(r), 0)
    case Accepted(values) => Ok(values - exclude)
    case Rejected(errors) => Err(errors)
  }

  /** The response body for a list of rows: every row must pass, and the errors of all failing rows are reported. */
  function ResponseBodies(rows: seq<Reservation>, exclude: set<string>): (b: Result<seq<map<string, int>>, set<FieldError>>)
    ensures b.Ok? <==> forall r :: r in rows ==> r.fromReserve < r.toReserve
    ensures b.Ok? ==> |b.value| == |rows|
    ensures b.Ok? ==> forall i :: 0 <= i < |rows| ==> ResponseBody(rows[i], exclude) == Ok(b.value[i])
  {
    if rows == [] then Ok([])
    else
      assert rows == [rows[0]] + rows[1..];
      match (ResponseBody(rows[0], exclude), ResponseBodies(rows[1..], exclude))
      case (Ok(head), Ok(tail)) => Ok([head] + tail)
      case (Err(e), Ok(_)) => Err(e)
      case (Ok(_), Err(e)) => Err(e)
      case (Err(e1), Err(e2)) => Err(e1 + e2)
  }

  /** Start not before end is rejected by every shape, including equal start and end. */
  lemma InvertedIntervalRejected(shape: Shape, input: map<string, int>, now: int)
    requires FromReserveField in input && ToReserveField in input
    requires input[FromReserveField] >= input[ToReserveField]
    ensures Validate(shape, input, now).Rejected?
  {
  }

  /** Update and create reject a start at or before `now`, with the future-start error among the reasons. */
  lemma PastStartRejected(shape: Shape, input: map<string, int>, now: int)
    requires ChecksFuture(shape)
    requires FromReserveField in input && input[FromReserveField] <= now
    ensures Validate(shape, input, now) == Rejected(FieldErrors(shape, input, now))
    ensures StartNotInFuture in Validate(shape, input, now).errors
  {
  }

  /**
   * A well-keyed payload that is both in the past and inverted reports only
   * the future-start error: the order check is skipped after a field error.
   */
  lemma PastAndInvertedReportsPastOnly(shape: Shape, input: map<string, int>, now: int)
    requires ChecksFuture(shape)
    requires input.Keys == RequiredFields(shape)
    requires input[FromReserveField] <= now
    requires input[FromReserveField] >= input[ToReserveField]
    ensures Validate(shape, input, now) == Rejected({StartNotInFuture})
  {
    var errors := FieldErrors(shape, input, now);
    assert (set f | f in RequiredFields(shape) && f !in input :: Missing(f)) == {};
    assert (set k | k in input && k !in RequiredFields(shape) + OptionalFields(shape) :: ExtraForbidden(k)) == {};
    assert errors == {StartNotInFuture};
  }

  /** The owner can never come from a request body: `user_id` is an unknown field there. */
  lemma OwnerCannotBeSupplied(shape: Shape, input: map<string, int>, now: int)
    requires shape != ReservationDB
    requires UserIdField in input
    ensures Validate(shape, input, now).Rejected?
    ensures ExtraForbidden(UserIdField) in Validate(shape, input, now).errors
  {
  }

  /** The create shape is the update shape plus a mandatory `meetingroom_id`. */
  lemma CreateExtendsUpdate(input: map<string, int>, now: int)
    ensures Validate(ReservationCreate, input, now).Accepted?
        <==> MeetingroomIdField in input && Validate(ReservationUpdate, input - {MeetingroomIdField}, now).Accepted?
  {
    var rest := input - {MeetingroomIdField};
    if MeetingroomIdField in input {
      assert input.Keys == rest.Keys + {MeetingroomIdField};
    }
  }

  /** The read shape never consults the clock, so rows whose start has passed still validate. */
  lemma ReadShapeIgnoresNow(input: map<string, int>, now1: int, now2: int)
    ensures Validate(ReservationDB, input, now1) == Validate(ReservationDB, input, now2)
  {
  }

  /** A create payload accepted at any instant becomes a row that the read shape accepts back, fields intact. */
  lemma CreatedRowReadsBack(input: map<string, int>, now: int, id: int, owner: UserId)
    requires Validate(ReservationCreate, input, now).Accepted?
    ensures var row := Reservation(id, input[FromReserveField], input[ToReserveField], input[MeetingroomIdField], Some(owner));
      && ResponseBody(row, {}).Ok?
      && ResponseBody(row, {}).value[FromReserveField] == input[FromReserveField]
      && ResponseBody(row, {}).value[ToReserveField] == input[ToReserveField]
      && ResponseBody(row, {}).value[MeetingroomIdField] == input[MeetingroomIdField]
      && ResponseBody(row, {}).value[UserIdField] == owner
  {
  }
}
