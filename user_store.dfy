/** The `user` table, held in primary-key order, and the three writes the
    handlers make to it (insert, update of one row, delete of one row).
    Connections, transactions and SQL are not modelled. */
module UserStore {
  import opened Common
  import opened UserModels

  predicate HasUsername(rows: seq<User>, username: string) {
    exists i :: 0 <= i < |rows| && rows[i].username == username
  }

  predicate HasEmail(rows: seq<User>, email: string) {
    exists i :: 0 <= i < |rows| && rows[i].email == email
  }

  /** The table's integrity: every id is below the serial counter, ids increase
      in row order (so they are unique), and usernames are unique (the column is
      declared `unique=True`; email is only indexed). */
  predicate Consistent(rows: seq<User>, nextId: nat) {
    && (forall i :: 0 <= i < |rows| ==> rows[i].id < nextId)
    && (forall i, j :: 0 <= i < j < |rows| ==> rows[i].id < rows[j].id)
    && (forall i, j :: 0 <= i < j < |rows| ==> rows[i].username != rows[j].username)
  }

  /** True when no row other than the one at index `k` has `username`, so that
      a commit of row `k` with this username passes the unique index. */
  predicate UsernameFreeExcept(rows: seq<User>, k: nat, username: string) {
    forall i :: 0 <= i < |rows| && i != k ==> rows[i].username != username
  }

  /** Index of the first row with `username`. */
  function IndexOfUsername(rows: seq<User>, username: string): (r: Option<nat>)
    ensures r.Some? ==> r.value < |rows| && rows[r.value].username == username
    ensures r.Some? ==> forall j :: 0 <= j < r.value ==> rows[j].username != username
    ensures r.None? <==> !HasUsername(rows, username)
  {
    FirstMatch(rows, (u: User) => u.username == username)
  }

  /** Index of the first row with `email`. */
  function IndexOfEmail(rows: seq<User>, email: string): (r: Option<nat>)
    ensures r.Some? ==> r.value < |rows| && rows[r.value].email == email
    ensures r.Some? ==> forall j :: 0 <= j < r.value ==> rows[j].email != email
    ensures r.None? <==> !HasEmail(rows, email)
  {
    FirstMatch(rows, (u: User) => u.email == email)
  }

  /** Index of the row whose primary key is `id` (`session.get`). */
  function IndexOfId(rows: seq<User>, id: int): (r: Option<nat>)
    ensures r.Some? ==> r.value < |rows| && rows[r.value].id == id
    ensures r.None? <==> forall j :: 0 <= j < |rows| ==> rows[j].id != id
  {
    FirstMatch(rows, (u: User) => u.id == id)
  }

  /** In a consistent table, the lookup by username finds exactly the row that has it. */
  lemma UniqueUsernameLookup(rows: seq<User>, nextId: nat, k: nat)
    requires Consistent(rows, nextId) && k < |rows|
    ensures IndexOfUsername(rows, rows[k].username) == Some(k)
  {
    assert HasUsername(rows, rows[k].username);
  }

  class UserTable {
    var rows: seq<User>
    var nextId: nat

    ghost predicate Valid()
      reads this
    {
      Consistent(rows, nextId)
    }

    constructor ()
      ensures Valid() && rows == [] && nextId == 1
    {
      rows := [];
      nextId := 1;
    }

    /** `session.add(row)`, `commit()`, `refresh(row)`: the serial counter
        gives the new row its id. The callers look the username up first. */
    method Add(u: User) returns (stored: User)
      requires Valid() && !HasUsername(rows, u.username)
      modifies this
      ensures Valid()
      ensures stored == u.(id := old(nextId))
      ensures rows == old(rows) + [stored] && nextId == old(nextId) + 1
    {
      stored := u.(id := nextId);
      rows := rows + [stored];
      nextId := nextId + 1;
    }

    /** `commit()` of the changed row at index `k`. The unique index on username
        refuses it, and nothing is written, when another row already has that username. */
    method Save(k: nat, u: User) returns (ok: bool)
      requires Valid() && k < |rows| && u.id == rows[k].id
      modifies this
      ensures Valid()
      ensures ok == UsernameFreeExcept(old(rows), k, u.username)
      ensures ok ==> rows == old(rows)[k := u] && nextId == old(nextId)
      ensures !ok ==> unchanged(this)
    {
      ok := UsernameFreeExcept(rows, k, u.username);
      if ok {
        rows := rows[k := u];
      }
    }

    /** `session.delete(row)`, `commit()` for the row at index `k`. */
    method Delete(k: nat)
      requires Valid() && k < |rows|
      modifies this
      ensures Valid()
      ensures rows == old(rows[..k] + rows[k + 1..])
      ensures nextId == old(nextId)
    {
      rows := rows[..k] + rows[k + 1..];
    }
  }
}
