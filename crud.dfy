/**
 * The reservation queries. Each one is a single `select ... where ...` over the
 * reservation table; here the table is a sequence of rows and a query is the
 * subsequence of rows its condition accepts.
 */
module Crud {
  import opened Models

  /** SQL `x BETWEEN lo AND hi`: inclusive at both ends. */
  predicate Between(x: int, lo: int, hi: int) {
    lo <= x <= hi
  }

  /**
   * The time condition of the overlap query for one existing row: the
   * candidate starts inside it, ends inside it, or covers it.
   */
  predicate AtTheSameTime(fromReserve: int, toReserve: int, existing: Reservation) {
    || Between(fromReserve, existing.fromReserve, existing.toReserve)
    || Between(toReserve, existing.fromReserve, existing.toReserve)
    || (fromReserve <= existing.fromReserve && toReserve >= existing.toReserve)
  }

  /** `where(cond)`: the rows that satisfy `cond`, in table order. */
  function Where<T(==,!new)>(rows: seq<T>, cond: T -> bool): (r: seq<T>)
    ensures forall x :: x in r <==> x in rows && cond(x)
    ensures r == [] <==> forall x :: x in rows ==> !cond(x)
    ensures |r| <= |rows|
    ensures forall x :: multiset(r)[x] == if cond(x) then multiset(rows)[x] else 0
  {
    if rows == [] then []
    else
      assert rows == [rows[0]] + rows[1..];
      if cond(rows[0]) then [rows[0]] + Where(rows[1..], cond)
      else Where(rows[1..], cond)
  }

  /**
   * The rows of room `meetingroomId` whose interval meets [fromReserve, toReserve],
   * leaving out the row with id `reservationId` when one is given.
   */
  function ReservationsAtTheSameTime(
    rows: seq<Reservation>, fromReserve: int, toReserve: int,
    meetingroomId: int, reservationId: Option<int>): (r: seq<Reservation>)
    ensures forall x :: x in r <==>
      && x in rows
      && x.meetingroomId == meetingroomId
      && AtTheSameTime(fromReserve, toReserve, x)
      && (reservationId.Some? ==> x.id != reservationId.value)
    ensures r == [] <==> forall x ::
      && x in rows
      && x.meetingroomId == meetingroomId
      && (reservationId.Some? ==> x.id != reservationId.value)
      ==> !AtTheSameTime(fromReserve, toReserve, x)
    ensures forall x :: multiset(r)[x] ==
              if && x.meetingroomId == meetingroomId
                 && AtTheSameTime(fromReserve, toReserve, x)
                 && (reservationId.Some? ==> x.id != reservationId.value)
              then multiset(rows)[x] else 0
  {
    var sameTime := Where(rows, (x: Reservation) => x.meetingroomId == meetingroomId && AtTheSameTime(fromReserve, toReserve, x));
    if reservationId.Some? then
      var excluded := reservationId.value;
      Where(sameTime, (x: Reservation) => x.id != excluded)
    else
      sameTime
  }

  /** The rows of room `roomId` that have not yet ended at `now`. */
  function FutureReservationsForRoom(rows: seq<Reservation>, roomId: int, now: int): (r: seq<Reservation>)
    ensures forall x :: x in r <==> x in rows && x.meetingroomId == roomId && x.toReserve > now
    ensures forall x :: multiset(r)[x] == if x.meetingroomId == roomId && x.toReserve > now then multiset(rows)[x] else 0
  {
    Where(rows, (x: Reservation) => x.meetingroomId == roomId && x.toReserve > now)
  }

  /** The rows owned by `user`; a row with a NULL owner never compares equal. */
  function GetByUser(rows: seq<Reservation>, user: User): (r: seq<Reservation>)
    ensures forall x :: x in r <==> x in rows && x.userId == Some(user.id)
    ensures forall x :: x in r ==> x.userId.Some?
    ensures forall x :: multiset(r)[x] == if x.userId == Some(user.id) then multiset(rows)[x] else 0
  {
    Where(rows, (x: Reservation) => x.userId == Some(user.id))
  }

  /**
   * For intervals whose start is not after their end, the three clauses say
   * exactly that the two closed intervals share an instant.
   */
  lemma AtTheSameTimeIsIntersection(fromReserve: int, toReserve: int, existing: Reservation)
    requires fromReserve <= toReserve
    requires existing.fromReserve <= existing.toReserve
    ensures AtTheSameTime(fromReserve, toReserve, existing)
        <==> fromReserve <= existing.toReserve && existing.fromReserve <= toReserve
  {
  }

  /** Between well-formed reservations the condition does not depend on which one is the candidate. */
  lemma AtTheSameTimeSymmetric(a: Reservation, b: Reservation)
    requires a.fromReserve <= a.toReserve && b.fromReserve <= b.toReserve
    ensures AtTheSameTime(a.fromReserve, a.toReserve, b) <==> AtTheSameTime(b.fromReserve, b.toReserve, a)
  {
    AtTheSameTimeIsIntersection(a.fromReserve, a.toReserve, b);
    AtTheSameTimeIsIntersection(b.fromReserve, b.toReserve, a);
  }

  /** Back-to-back bookings that share one boundary instant count as simultaneous. */
  lemma TouchingIntervalsClash(fromReserve: int, toReserve: int, existing: Reservation)
    requires existing.fromReserve <= existing.toReserve
    requires toReserve == existing.fromReserve || fromReserve == existing.toReserve
    ensures AtTheSameTime(fromReserve, toReserve, existing)
  {
  }

  /** Only a candidate strictly before or strictly after the existing row escapes the condition. */
  lemma SeparatedIntervalsDoNotClash(fromReserve: int, toReserve: int, existing: Reservation)
    requires fromReserve <= toReserve
    requires existing.fromReserve <= existing.toReserve
    ensures !AtTheSameTime(fromReserve, toReserve, existing)
        <==> toReserve < existing.fromReserve || existing.toReserve < fromReserve
  {
  }

  /** A row always clashes with itself, so without the exclusion an update would conflict with its own old slot. */
  lemma OwnSlotClashesWithoutExclusion(rows: seq<Reservation>, r: Reservation)
    requires r in rows
    requires r.fromReserve <= r.toReserve
    ensures r in ReservationsAtTheSameTime(rows, r.fromReserve, r.toReserve, r.meetingroomId, None)
    ensures ReservationsAtTheSameTime(rows, r.fromReserve, r.toReserve, r.meetingroomId, None) != []
  {
  }

  /**
   * When `r` is the only row of its room, excluding its id leaves nothing to
   * clash with, whatever new interval it is moved to.
   */
  lemma OwnSlotIgnoredWithExclusion(rows: seq<Reservation>, r: Reservation, fromReserve: int, toReserve: int)
    requires forall x :: x in rows && x.meetingroomId == r.meetingroomId ==> x.id == r.id
    ensures ReservationsAtTheSameTime(rows, fromReserve, toReserve, r.meetingroomId, Some(r.id)) == []
  {
  }
}
