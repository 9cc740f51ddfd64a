/** The `users` table and its model (backend/models/User.js): look-up by
    lower-cased e-mail, and creation that refuses a registered address and
    stores the lower-cased e-mail with the password's hash. */
module UserStore {
  import opened Text
  import opened Js

  /** A row of `users`. */
  datatype UserRow = UserRow(id: int, nombre: string, apellido: string, correo: string, password: string)

  /** A user as the application hands it out: no password. */
  datatype PublicUser = PublicUser(id: int, nombre: string, apellido: string, correo: string)

  function Public(row: UserRow): (u: PublicUser)
    ensures u.id == row.id && u.nombre == row.nombre && u.apellido == row.apellido && u.correo == row.correo
  {
    PublicUser(row.id, row.nombre, row.apellido, row.correo)
  }

  /** The `userData` passed to `create`. */
  datatype NewUser = NewUser(nombre: string, apellido: string, correo: string, password: string)

  datatype CreateResult = Created(user: PublicUser) | AlreadyRegistered

  /** `rows[0]` of `SELECT ... WHERE correo = ?`: the first row holding the
      address. */
  function FindIn(rows: seq<UserRow>, correo: string): (r: Option<UserRow>)
    ensures r.Some? <==> exists k :: 0 <= k < |rows| && rows[k].correo == correo
    ensures r.Some? ==> r.value in rows && r.value.correo == correo
  {
    if rows == [] then None
    else if rows[0].correo == correo then Some(rows[0])
    else
      var r := FindIn(rows[1..], correo);
      assert forall k :: 0 < k < |rows| ==> rows[k] == rows[1..][k - 1];
      r
  }

  /** An address that is not stored yet is found in the appended row. */
  lemma {:induction false} FindInAppended(rows: seq<UserRow>, row: UserRow)
    requires FindIn(rows, row.correo).None?
    ensures FindIn(rows + [row], row.correo) == Some(row)
  {
    if rows != [] {
      assert (rows + [row])[1..] == rows[1..] + [row];
      FindInAppended(rows[1..], row);
    } else {
      assert rows + [row] == [row];
    }
  }

  predicate EmailsLowerCase(rows: seq<UserRow>) {
    forall k :: 0 <= k < |rows| ==> IsLowerCase(rows[k].correo)
  }

  predicate EmailsDistinct(rows: seq<UserRow>) {
    forall i, j :: 0 <= i < j < |rows| ==> rows[i].correo != rows[j].correo
  }

  predicate IdsBelow(rows: seq<UserRow>, bound: int) {
    forall k :: 0 <= k < |rows| ==> 0 < rows[k].id < bound
  }

  predicate IdsDistinct(rows: seq<UserRow>) {
    forall i, j :: 0 <= i < j < |rows| ==> rows[i].id != rows[j].id
  }

  class UserTable {
    var rows: seq<UserRow>
    /** The next `AUTO_INCREMENT` id. */
    var nextId: int

    /** Stored e-mails are lower-case and pairwise distinct; ids are
        positive, distinct and below the next one. */
    predicate Valid()
      reads this
    {
      EmailsLowerCase(rows) && EmailsDistinct(rows) && IdsBelow(rows, nextId) && IdsDistinct(rows) && nextId > 0
    }

    constructor ()
      ensures Valid() && rows == [] && nextId == 1
    {
      rows := [];
      nextId := 1;
    }

    /** `findByEmail`: the argument is lower-cased before the comparison. */
    function FindByEmail(correo: string): (r: Option<UserRow>)
      reads this
      ensures r.Some? <==> exists k :: 0 <= k < |rows| && rows[k].correo == ToLower(correo)
      ensures r.Some? ==> r.value in rows && r.value.correo == ToLower(correo)
    {
      FindIn(rows, ToLower(correo))
    }

    /** `create`: `hashed` is what `bcrypt.hash(userData.password, 10)` gives.
        A registered address is refused and nothing is inserted; otherwise
        the row is added with the lower-cased address and the hash, and the
        new user is returned without a password. */
    method Create(u: NewUser, hashed: string) returns (r: CreateResult)
      requires Valid()
      modifies this
      ensures Valid()
      ensures old(FindByEmail(u.correo)).Some? ==>
                r == AlreadyRegistered && rows == old(rows) && nextId == old(nextId)
      ensures old(FindByEmail(u.correo)).None? ==>
                && r == Created(PublicUser(old(nextId), u.nombre, u.apellido, ToLower(u.correo)))
                && rows == old(rows) + [UserRow(old(nextId), u.nombre, u.apellido, ToLower(u.correo), hashed)]
                && nextId == old(nextId) + 1
      ensures r.Created? ==> FindByEmail(u.correo) == Some(rows[|rows| - 1])
    {
      if FindByEmail(u.correo).Some? {
        return AlreadyRegistered;
      }
      var correo := ToLower(u.correo);
      ToLowerIsLower(u.correo);
      var row := UserRow(nextId, u.nombre, u.apellido, correo, hashed);
      FindInAppended(rows, row);
      rows := rows + [row];
      nextId := nextId + 1;
      r := Created(Public(row));
    }
  }
}
