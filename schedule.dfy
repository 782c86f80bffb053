/**
 * The schedule invariant the overlap check exists to keep: every row has its
 * start before its end, and no two rows of one room share an instant. The
 * lemmas show that each write, made only after the check passed, keeps it
 * (when requests run one after another; see the README on the race).
 */
module Schedule {
  import opened Models
  import opened Crud
  import opened Store

  predicate WellFormed(r: Reservation) {
    r.fromReserve < r.toReserve
  }

  /** The closed intervals of `a` and `b` share at least one instant. */
  predicate Overlap(a: Reservation, b: Reservation) {
    a.fromReserve <= b.toReserve && b.fromReserve <= a.toReserve
  }

  predicate NoConflicts(rows: seq<Reservation>) {
    && (forall a :: a in rows ==> WellFormed(a))
    && (forall a, b :: a in rows && b in rows && a != b && a.meetingroomId == b.meetingroomId ==> !Overlap(a, b))
  }

  /** For well-formed rows, the query's three-clause condition is exactly `Overlap`, in either direction. */
  lemma AtTheSameTimeIsOverlap(a: Reservation, b: Reservation)
    requires WellFormed(a) && WellFormed(b)
    ensures AtTheSameTime(a.fromReserve, a.toReserve, b) <==> Overlap(a, b)
    ensures AtTheSameTime(b.fromReserve, b.toReserve, a) <==> Overlap(a, b)
  {
    AtTheSameTimeIsIntersection(a.fromReserve, a.toReserve, b);
    AtTheSameTimeIsIntersection(b.fromReserve, b.toReserve, a);
  }

  /** Appending a well-formed row for which the overlap query came back empty keeps the schedule. */
  lemma CreateKeepsSchedule(rows: seq<Reservation>, n: Reservation)
    requires NoConflicts(rows)
    requires WellFormed(n)
    requires ReservationsAtTheSameTime(rows, n.fromReserve, n.toReserve, n.meetingroomId, None) == []
    ensures NoConflicts(rows + [n])
  {
    var rows' := rows + [n];
    forall a, b | a in rows' && b in rows' && a != b && a.meetingroomId == b.meetingroomId
      ensures !Overlap(a, b)
    {
      if a == n {
        AtTheSameTimeIsOverlap(n, b);
      } else if b == n {
        AtTheSameTimeIsOverlap(n, a);
      }
    }
  }

  /**
   * Rewriting the interval of the row with u's id, when the query on u's room
   * excluding u's own id came back empty, keeps the schedule.
   */
  lemma UpdateKeepsSchedule(rows: seq<Reservation>, u: Reservation)
    requires NoConflicts(rows)
    requires WellFormed(u)
    requires ReservationsAtTheSameTime(rows, u.fromReserve, u.toReserve, u.meetingroomId, Some(u.id)) == []
    ensures NoConflicts(UpdateWhereId(rows, u))
  {
    var rows' := UpdateWhereId(rows, u);
    forall a, b | a in rows' && b in rows' && a != b && a.meetingroomId == b.meetingroomId
      ensures !Overlap(a, b)
    {
      if a == u {
        AtTheSameTimeIsOverlap(u, b);
      } else if b == u {
        AtTheSameTimeIsOverlap(u, a);
      }
    }
  }

  /** Deleting rows keeps the schedule. */
  lemma DeleteKeepsSchedule(rows: seq<Reservation>, id: int)
    requires NoConflicts(rows)
    ensures NoConflicts(DeleteWhereId(rows, id))
  {
  }

  /** Rewriting a row under its own id keeps the primary key unique. */
  lemma UpdateKeepsIdsUnique(rows: seq<Reservation>, u: Reservation)
    requires IdsUnique(rows)
    ensures IdsUnique(UpdateWhereId(rows, u))
  {
  }

  /**
   * A reservation that shares one boundary instant with a row of the same room
   * is refused: the check is conservative, back-to-back bookings collide.
   */
  lemma BackToBackBookingRefused(rows: seq<Reservation>, existing: Reservation, toReserve: int)
    requires existing in rows && WellFormed(existing)
    requires existing.toReserve < toReserve
    ensures existing in ReservationsAtTheSameTime(rows, existing.toReserve, toReserve, existing.meetingroomId, None)
  {
  }
}
