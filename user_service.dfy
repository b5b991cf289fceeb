/**
  `UserService`: the credential store behind registration and login. Lookups are functions
  over the table; `create`, `update` and `delete` are methods on the shared `Database`.
 */
module UserService {
  import opened Wrappers
  import opened Store

  /** The validated body of a create request; `password` is whatever secret the caller hands over. */
  datatype UserDto = UserDto(nickname: string, email: string, password: Secret)

  /** The validated body of an update request: only the supplied fields are present. */
  datatype UserPatch = UserPatch(nickname: Option<string>, email: Option<string>, password: Option<string>)

  function IndexOf(users: seq<User>, id: int): (r: Option<nat>)
    ensures r.Some? ==> r.value < |users| && users[r.value].idUser == id
    ensures r.None? ==> forall j :: 0 <= j < |users| ==> users[j].idUser != id
  {
    FirstIndex(users, (u: User) => u.idUser == id)
  }

  /** `findOneBy({ id_user: id })`: the user with that key, or null. */
  function GetById(users: seq<User>, id: int): (r: Option<User>)
    ensures r.Some? ==> r.value in users && r.value.idUser == id
    ensures r.None? <==> forall u :: u in users ==> u.idUser != id
  {
    var i := IndexOf(users, id);
    if i.Some? then Some(users[i.value]) else None
  }

  /** `findOne({ where: { email } })`: the user with that e-mail, or null. */
  function GetByEmail(users: seq<User>, email: string): (r: Option<User>)
    ensures r.Some? ==> r.value in users && r.value.email == email
    ensures r.None? <==> forall u :: u in users ==> u.email != email
  {
    var i := FirstIndex(users, (u: User) => u.email == email);
    if i.Some? then Some(users[i.value]) else None
  }

  /** In a well-formed table, the lookups find exactly the stored row. */
  lemma LookupsFindTheRow(users: seq<User>, next: int, u: User)
    requires UsersOk(users, next) && u in users
    ensures GetById(users, u.idUser) == Some(u)
    ensures GetByEmail(users, u.email) == Some(u)
  {
    var k :| 0 <= k < |users| && users[k] == u;
    assert GetById(users, u.idUser).value == users[k];
    assert GetByEmail(users, u.email).value == users[k];
  }

  /** What `Object.assign(user, data)` leaves: supplied fields replace the old ones,
      and a supplied password is kept as the plain text it was given as. */
  function Patched(u: User, patch: UserPatch): (r: User)
    ensures r.idUser == u.idUser
    ensures r.nickname == (if patch.nickname.Some? then patch.nickname.value else u.nickname)
    ensures r.email == (if patch.email.Some? then patch.email.value else u.email)
    ensures r.password == (if patch.password.Some? then Plain(patch.password.value) else u.password)
  {
    User(u.idUser, patch.nickname.GetOr(u.nickname), patch.email.GetOr(u.email),
         if patch.password.Some? then Plain(patch.password.value) else u.password)
  }

  /** Some other row already holds `email`. */
  predicate EmailTakenByOther(users: seq<User>, id: int, email: string) {
    exists j :: 0 <= j < |users| && users[j].idUser != id && users[j].email == email
  }

  /** `create`: hash the given secret once more and insert; the unique e-mail column refuses a
      duplicate. The key is drawn from the sequence before the constraint is checked. */
  method Create(db: Database, dto: UserDto) returns (r: Result<User, DbError>)
    requires db.Valid()
    modifies db`users, db`nextUserId
    ensures db.Valid()
    ensures db.nextUserId == old(db.nextUserId) + 1
    ensures r.Ok? <==> GetByEmail(old(db.users), dto.email).None?
    ensures r.Ok? ==> r.value == User(old(db.nextUserId), dto.nickname, dto.email, Hash(dto.password))
                      && db.users == old(db.users) + [r.value]
    ensures r.Err? ==> r.error == UniqueViolation("users", "email") && db.users == old(db.users)
  {
    var id := db.nextUserId;
    db.nextUserId := db.nextUserId + 1;
    assert UsersOk(db.users, db.nextUserId) by {
      assert forall i :: 0 <= i < |db.users| ==> db.users[i].idUser < id;
    }
    if GetByEmail(db.users, dto.email).Some? {
      return Err(UniqueViolation("users", "email"));
    }
    var u := User(id, dto.nickname, dto.email, Hash(dto.password));
    db.users := db.users + [u];
    r := Ok(u);
  }

  /** `update`: null for an unknown key; otherwise the patched row, unless its e-mail clashes. */
  method Update(db: Database, id: int, patch: UserPatch) returns (r: Result<Option<User>, DbError>)
    requires db.Valid()
    modifies db`users
    ensures db.Valid()
    ensures IndexOf(old(db.users), id).None? ==> r == Ok(None) && db.users == old(db.users)
    ensures IndexOf(old(db.users), id).Some? ==>
      var i := IndexOf(old(db.users), id).value;
      var u := Patched(old(db.users)[i], patch);
      if EmailTakenByOther(old(db.users), id, u.email)
      then r == Err(UniqueViolation("users", "email")) && db.users == old(db.users)
      else r == Ok(Some(u)) && db.users == old(db.users)[i := u]
  {
    var i := IndexOf(db.users, id);
    if i.None? {
      return Ok(None);
    }
    var u := Patched(db.users[i.value], patch);
    if EmailTakenByOther(db.users, id, u.email) {
      return Err(UniqueViolation("users", "email"));
    }
    db.users := db.users[i.value := u];
    r := Ok(Some(u));
  }

  /** `delete`: true exactly when a row with that key existed; that row, and only it, is gone. */
  method Delete(db: Database, id: int) returns (deleted: bool)
    requires db.Valid()
    modifies db`users
    ensures db.Valid()
    ensures deleted <==> GetById(old(db.users), id).Some?
    ensures forall u :: u in db.users <==> u in old(db.users) && u.idUser != id
  {
    var i := IndexOf(db.users, id);
    if i.None? {
      return false;
    }
    ghost var before := db.users;
    db.users := RemoveAt(db.users, i.value);
    forall u ensures u in db.users <==> u in before && u.idUser != id {
      if u in before && u.idUser != id {
        var k :| 0 <= k < |before| && before[k] == u;
        assert k != i.value;
        if k < i.value { assert db.users[k] == u; } else { assert db.users[k - 1] == u; }
      }
      if u in db.users {
        var k :| 0 <= k < |db.users| && db.users[k] == u;
        if k >= i.value {
          assert before[k + 1] == u;
          assert before[i.value].idUser != before[k + 1].idUser;
        } else {
          assert before[i.value].idUser != before[k].idUser;
        }
      }
    }
    deleted := true;
  }

  /** A password set through `update` is stored as plain text, so `bcrypt.compare` with that
      very password fails afterwards. */
  lemma PatchedPasswordIsNotAHash(u: User, patch: UserPatch)
    requires patch.password.Some?
    ensures !Compare(patch.password.value, Patched(u, patch).password)
  {
  }
}
