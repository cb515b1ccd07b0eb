/** A database table as the handlers see it through their repositories: rows keyed by a serial id.
    Every statement that can fail takes a `fails` flag standing for a database error. */
module Repository {
  import opened Wrappers

  class Table<T> {
    var rows: map<int, T>
    var nextId: int

    /** Serial ids start at 1 and every row's id was issued before `nextId`. */
    ghost predicate Valid()
      reads this
    {
      nextId >= 1 && forall id :: id in rows ==> 1 <= id < nextId
    }

    constructor ()
      ensures Valid() && rows == map[] && nextId == 1
    {
      rows := map[];
      nextId := 1;
    }

    /** GetByID; every error it can return is handled like a missing row by the handlers. */
    function Get(id: int): (r: Option<T>)
      reads this
      ensures r.Some? <==> id in rows
      ensures r.Some? ==> r.value == rows[id]
    {
      if id in rows then Some(rows[id]) else None
    }

    /** INSERT ... RETURNING id. */
    method Create(row: T, fails: bool) returns (id: Option<int>)
      requires Valid()
      modifies this
      ensures Valid()
      ensures fails ==> id == None && rows == old(rows) && nextId == old(nextId)
      ensures !fails ==> id == Some(old(nextId)) && old(nextId) !in old(rows)
      ensures !fails ==> rows == old(rows)[old(nextId) := row] && nextId == old(nextId) + 1
    {
      if fails {
        id := None;
      } else {
        id := Some(nextId);
        rows := rows[nextId := row];
        nextId := nextId + 1;
      }
    }

    /** UPDATE ... WHERE id = $n: a missing row is left missing without an error. */
    method Update(id: int, row: T, fails: bool) returns (ok: bool)
      requires Valid()
      modifies this
      ensures Valid() && nextId == old(nextId)
      ensures ok == !fails
      ensures rows == if ok && id in old(rows) then old(rows)[id := row] else old(rows)
    {
      ok := !fails;
      if ok && id in rows {
        rows := rows[id := row];
      }
    }

    /** DELETE ... WHERE id = $n: zero affected rows is reported as an error. */
    method Delete(id: int, fails: bool) returns (ok: bool)
      requires Valid()
      modifies this
      ensures Valid() && nextId == old(nextId)
      ensures ok == (!fails && id in old(rows))
      ensures rows == if ok then old(rows) - {id} else old(rows)
    {
      ok := !fails && id in rows;
      if ok {
        rows := rows - {id};
      }
    }
  }
}
