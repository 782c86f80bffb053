/**
 * The persistence layer the handlers write through: the reservation table with
 * its auto-increment primary key, and the set of meeting rooms that exist.
 * Reads are functions of the table; `Create`, `Update` and `Remove` are the
 * generic create / update / remove operations the handlers call, each one a
 * single committed write.
 */
module Store {
  import opened Models
  import Crud

  /** Primary key: no two distinct rows share an id. */
  predicate IdsUnique(rows: seq<Reservation>) {
    forall a, b :: a in rows && b in rows && a.id == b.id ==> a == b
  }

  /** `UPDATE ... WHERE id = u.id`: the row with u's id becomes `u`, every other row stays. */
  function UpdateWhereId(rows: seq<Reservation>, u: Reservation): (r: seq<Reservation>)
    ensures |r| == |rows|
    ensures forall x :: x in r <==>
      || (x == u && exists y :: y in rows && y.id == u.id)
      || (x in rows && x.id != u.id)
  {
    if rows == [] then []
    else
      assert rows == [rows[0]] + rows[1..];
      [if rows[0].id == u.id then u else rows[0]] + UpdateWhereId(rows[1..], u)
  }

  /** `DELETE ... WHERE id = id`: every row but the one with that id. */
  function DeleteWhereId(rows: seq<Reservation>, id: int): (r: seq<Reservation>)
    ensures forall x :: x in r <==> x in rows && x.id != id
  {
    Crud.Where(rows, (x: Reservation) => x.id != id)
  }

  class Database {
    /** The reservation table. */
    var reservations: seq<Reservation>
    /** The id the auto-increment key hands out next. */
    var nextId: int
    /** Ids of the meeting rooms that exist. */
    const rooms: set<int>

    ghost predicate Valid()
      reads this
    {
      && IdsUnique(reservations)
      && forall x :: x in reservations ==> x.id < nextId
    }

    constructor (rooms: set<int>)
      ensures Valid()
      ensures reservations == [] && this.rooms == rooms
    {
      reservations := [];
      nextId := 1;
      this.rooms := rooms;
    }

    /** Fetch by primary key: the first row with that id, if any. */
    function Get(id: int): (r: Option<Reservation>)
      reads this
      ensures r.Some? <==> exists x :: x in reservations && x.id == id
      ensures r.Some? ==> r.value in reservations && r.value.id == id
    {
      var found := Crud.Where(reservations, (x: Reservation) => x.id == id);
      if found == [] then None else Some(found[0])
    }

    /** Insert a row owned by `user` under a fresh key and return it. */
    method Create(fromReserve: int, toReserve: int, meetingroomId: int, user: User) returns (r: Reservation)
      requires Valid()
      modifies this
      ensures Valid()
      ensures r == Reservation(old(nextId), fromReserve, toReserve, meetingroomId, Some(user.id))
      ensures forall x :: x in old(reservations) ==> x.id != r.id
      ensures reservations == old(reservations) + [r]
    {
      r := Reservation(nextId, fromReserve, toReserve, meetingroomId, Some(user.id));
      reservations := reservations + [r];
      nextId := nextId + 1;
    }

    /** Rewrite the interval of `dbObj`; its id, room and owner stay. */
    method Update(dbObj: Reservation, fromReserve: int, toReserve: int) returns (r: Reservation)
      requires Valid()
      requires dbObj in reservations
      modifies this
      ensures Valid()
      ensures r == dbObj.(fromReserve := fromReserve, toReserve := toReserve)
      ensures reservations == UpdateWhereId(old(reservations), r)
      ensures nextId == old(nextId)
    {
      r := dbObj.(fromReserve := fromReserve, toReserve := toReserve);
      reservations := UpdateWhereId(reservations, r);
    }

    /** Delete `dbObj` and hand it back. */
    method Remove(dbObj: Reservation) returns (r: Reservation)
      requires Valid()
      modifies this
      ensures Valid()
      ensures r == dbObj
      ensures reservations == DeleteWhereId(old(reservations), dbObj.id)
      ensures nextId == old(nextId)
    {
      r := dbObj;
      reservations := DeleteWhereId(reservations, dbObj.id);
    }
  }
}
