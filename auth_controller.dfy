/**
  `AuthController`: the decision trees of `register`, `login`, `me`, `refresh` and `logout`.
  Each returns what the handler sends through `responseHandler`, or the `ApiError` its catch
  throws. `register` writes the user table; the others only read it.
 */
module AuthController {
  import opened Wrappers
  import opened Json
  import opened Envelope
  import opened Store
  import opened Tokens
  import UserService
  import opened AuthGate

  datatype Outcome = Responded(response: Response) | Threw(error: ApiError)

  /** The body `register` reads. */
  datatype RegisterBody = RegisterBody(nickname: string, email: string, password: string)

  /** What `jsonwebtoken` throws when signing or verifying without a key. */
  const SignKeyMissing := "secretOrPrivateKey must have a value"
  const VerifyKeyMissing := "secret or public key must be provided"

  /** A user as JSON (the stored password and the timestamps are not rendered). */
  function UserJson(u: User): (p: Payload)
    ensures p.Obj? && p.fields.Keys == {"id_user", "nickname", "email"}
  {
    Obj(map["id_user" := Num(u.idUser as real), "nickname" := Str(u.nickname), "email" := Str(u.email)])
  }

  /** `responseHandler(res, { status, error: { message } })`. */
  function Refusal(status: int, message: string): Response {
    ResponseHandler(ServiceResponse(status, None, Undefined, Some(ErrorInfo(Some(message), Undefined))))
  }

  /** `responseHandler(res, { status, message, data })`. */
  function Reply(status: int, message: string, data: Payload): Response {
    ResponseHandler(ServiceResponse(status, Some(message), data, None))
  }

  /** A refusal carries the given status and message, and the fixed detail "Error data not found". */
  lemma RefusalShape(status: int, message: string)
    requires !IsSuccessStatus(status) && message != ""
    ensures Refusal(status, message) == ErrorHandler(ApiError(status, message, Str(ErrorDataNotFound)))
  {
  }

  /** A token reply is a success with exactly the `token` key in its data. */
  lemma TokenReplyShape(status: int, message: string, token: string)
    requires IsSuccessStatus(status) && message != ""
    ensures Reply(status, message, Obj(map["token" := Str(token)]))
            == SuccessHandler(Obj(map["token" := Str(token)]), message, status)
  {
    assert KeyCount(Obj(map["token" := Str(token)])) > 0;
  }

  function TokenData(token: string): Payload {
    Obj(map["token" := Str(token)])
  }

  // ---------------------------------------------------------------- register

  /** `register` as written: the controller hashes the password and `UserService.create` hashes the
      result again; the token is signed with the configured key or the fallback one. */
  method Register(db: Database, body: RegisterBody, j: Jwt, secret: Option<string>, now: int) returns (o: Outcome)
    requires db.Valid()
    modifies db`users, db`nextUserId
    ensures db.Valid()
    ensures (forall u :: u in old(db.users) ==> u.email != body.email) <==> o.Responded?
    ensures o.Responded? ==>
      var u := User(old(db.nextUserId), body.nickname, body.email, Hash(Hash(Plain(body.password))));
      && db.users == old(db.users) + [u]
      && o.response == Reply(201, "User registered successfully",
                             Obj(map["user" := UserJson(u), "token" := Str(j.sign(ClaimsFor(u, now), KeyOrFallback(secret)))]))
    ensures o.Threw? ==>
      o.error == ApiError(500, "Error registering user", Str(DriverMessage(UniqueViolation("users", "email"))))
      && db.users == old(db.users)
    // the registered user can never log in, whatever password is offered
    ensures o.Responded? ==> forall q, t :: Login(db.users, body.email, q, j, secret, t) == Responded(Refusal(401, "Password does not match"))
  {
    var hashed := Hash(Plain(body.password));
    var created := UserService.Create(db, UserService.UserDto(body.nickname, body.email, hashed));
    if created.Err? {
      return Threw(ApiError(500, "Error registering user", Str(DriverMessage(created.error))));
    }
    var u := created.value;
    assert u in db.users;
    forall q, t ensures Login(db.users, body.email, q, j, secret, t) == Responded(Refusal(401, "Password does not match")) {
      LoginAfterRegisterFails(db.users, db.nextUserId, u, body.password, q, j, secret, t);
    }
    var token := j.sign(ClaimsFor(u, now), KeyOrFallback(secret));
    o := Responded(Reply(201, "User registered successfully", Obj(map["user" := UserJson(u), "token" := Str(token)])));
  }

  /** `register` with the controller passing the plain password on: the store hashes it once. */
  method RegisterHashOnce(db: Database, body: RegisterBody, j: Jwt, secret: Option<string>, now: int) returns (o: Outcome)
    requires db.Valid()
    modifies db`users, db`nextUserId
    ensures db.Valid()
    ensures (forall u :: u in old(db.users) ==> u.email != body.email) <==> o.Responded?
    ensures o.Responded? ==>
      var u := User(old(db.nextUserId), body.nickname, body.email, Hash(Plain(body.password)));
      && db.users == old(db.users) + [u]
      && o.response == Reply(201, "User registered successfully",
                             Obj(map["user" := UserJson(u), "token" := Str(j.sign(ClaimsFor(u, now), KeyOrFallback(secret)))]))
    ensures o.Threw? ==> db.users == old(db.users)
    // the registered password logs in, for as long as the key is usable
    ensures o.Responded? ==> forall t :: KeyUsable(secret) ==>
      var u := User(old(db.nextUserId), body.nickname, body.email, Hash(Plain(body.password)));
      Login(db.users, body.email, body.password, j, secret, t)
        == Responded(Reply(200, "Login successful", TokenData(j.sign(ClaimsFor(u, t), secret.value))))
  {
    var created := UserService.Create(db, UserService.UserDto(body.nickname, body.email, Plain(body.password)));
    if created.Err? {
      return Threw(ApiError(500, "Error registering user", Str(DriverMessage(created.error))));
    }
    var u := created.value;
    assert u in db.users;
    if KeyUsable(secret) {
      forall t ensures Login(db.users, body.email, body.password, j, secret, t)
                       == Responded(Reply(200, "Login successful", TokenData(j.sign(ClaimsFor(u, t), secret.value)))) {
        LoginAfterHashOnceSucceeds(db.users, db.nextUserId, u, body.password, j, secret, t);
      }
    }
    var token := j.sign(ClaimsFor(u, now), KeyOrFallback(secret));
    o := Responded(Reply(201, "User registered successfully", Obj(map["user" := UserJson(u), "token" := Str(token)])));
  }

  // ---------------------------------------------------------------- login

  /** `login`: unknown e-mail, wrong password, missing key, or a one-hour token. */
  function Login(users: seq<User>, email: string, password: string, j: Jwt, secret: Option<string>, now: int): (o: Outcome)
    ensures UserService.GetByEmail(users, email).None? ==> o == Responded(Refusal(401, "Invalid credentials"))
    ensures o == Responded(Refusal(401, "Password does not match")) <==>
            UserService.GetByEmail(users, email).Some? && !Compare(password, UserService.GetByEmail(users, email).value.password)
    ensures o.Threw? <==> UserService.GetByEmail(users, email).Some?
                          && Compare(password, UserService.GetByEmail(users, email).value.password) && !KeyUsable(secret)
    ensures o.Threw? ==> o.error == ApiError(500, "Error logging in", Str(SignKeyMissing))
  {
    var found := UserService.GetByEmail(users, email);
    if found.None? then Responded(Refusal(401, "Invalid credentials"))
    else if !Compare(password, found.value.password) then Responded(Refusal(401, "Password does not match"))
    else if !KeyUsable(secret) then Threw(ApiError(500, "Error logging in", Str(SignKeyMissing)))
    else Responded(Reply(200, "Login successful", TokenData(j.sign(ClaimsFor(found.value, now), secret.value))))
  }

  /** Login succeeds exactly for a stored e-mail whose stored secret is the hash of the password,
      under a usable key; the reply is a 200 carrying only the token for that user. */
  lemma LoginSucceedsExactly(users: seq<User>, next: int, email: string, password: string, j: Jwt, secret: Option<string>, now: int)
    requires UsersOk(users, next)
    ensures Login(users, email, password, j, secret, now).Responded? && Login(users, email, password, j, secret, now).response.status == 200
            <==> KeyUsable(secret) && exists u :: u in users && u.email == email && Compare(password, u.password)
    ensures (KeyUsable(secret) && exists u :: u in users && u.email == email && Compare(password, u.password)) ==>
            var u := UserService.GetByEmail(users, email).value;
            Login(users, email, password, j, secret, now)
              == Responded(SuccessHandler(TokenData(j.sign(ClaimsFor(u, now), secret.value)), "Login successful", 200))
  {
    RefusalShape(401, "Invalid credentials");
    RefusalShape(401, "Password does not match");
    if u :| u in users && u.email == email && Compare(password, u.password) {
      UserService.LookupsFindTheRow(users, next, u);
      if KeyUsable(secret) {
        TokenReplyShape(200, "Login successful", j.sign(ClaimsFor(u, now), secret.value));
      }
    }
  }

  /** The token from a successful login opens the gate, as `Bearer <token>` or under any other first
      word, for one hour, with the user's claims; after that the gate answers "Invalid token". */
  lemma LoginTokenPassesGate(users: seq<User>, next: int, u: User, password: string, j: Jwt, secret: Option<string>,
                             issued: int, now: int)
    requires Sound(j) && UsersOk(users, next) && u in users && Compare(password, u.password) && KeyUsable(secret)
    ensures var t := j.sign(ClaimsFor(u, issued), secret.value);
            && Login(users, u.email, password, j, secret, issued) == Responded(Reply(200, "Login successful", TokenData(t)))
            && Authenticate(Some(Join(["Bearer", t])), j, secret, now)
               == if now < issued + Lifetime then Ok(ClaimsFor(u, issued)) else Err(InvalidToken())
  {
    UserService.LookupsFindTheRow(users, next, u);
    var t := j.sign(ClaimsFor(u, issued), secret.value);
    SchemeIsIgnored("Bearer", t, []);
    assert ["Bearer", t] + [] == ["Bearer", t];
  }

  /** As written, no typed password logs in a freshly registered user: the stored secret is a hash
      of a hash, never the hash of a plain password. (Symbolic hashes have no text, so the hash
      text itself, typed as a password, is outside this statement.) */
  lemma LoginAfterRegisterFails(users: seq<User>, next: int, u: User, p: string, q: string, j: Jwt, secret: Option<string>, now: int)
    requires UsersOk(users, next) && u in users && u.password == Hash(Hash(Plain(p)))
    ensures Login(users, u.email, q, j, secret, now) == Responded(Refusal(401, "Password does not match"))
  {
    UserService.LookupsFindTheRow(users, next, u);
  }

  /** With the password hashed once, the registered password logs in (given a usable key). */
  lemma LoginAfterHashOnceSucceeds(users: seq<User>, next: int, u: User, p: string, j: Jwt, secret: Option<string>, now: int)
    requires UsersOk(users, next) && u in users && u.password == Hash(Plain(p)) && KeyUsable(secret)
    ensures Login(users, u.email, p, j, secret, now)
            == Responded(Reply(200, "Login successful", TokenData(j.sign(ClaimsFor(u, now), secret.value))))
  {
    UserService.LookupsFindTheRow(users, next, u);
  }

  /** A password changed through the users route is stored unhashed, so logging in with it fails. */
  lemma LoginAfterPasswordPatchFails(users: seq<User>, next: int, i: nat, patch: UserService.UserPatch,
                                     j: Jwt, secret: Option<string>, now: int)
    requires i < |users| && patch.password.Some?
    requires UsersOk(users[i := UserService.Patched(users[i], patch)], next)
    ensures var after := users[i := UserService.Patched(users[i], patch)];
            Login(after, after[i].email, patch.password.value, j, secret, now)
              == Responded(Refusal(401, "Password does not match"))
  {
    var after := users[i := UserService.Patched(users[i], patch)];
    UserService.LookupsFindTheRow(after, next, after[i]);
    UserService.PatchedPasswordIsNotAHash(users[i], patch);
  }

  // ---------------------------------------------------------------- me

  /** The key `Number(req.user?.id_user)` can query with: a missing id becomes NaN, which the
      driver refuses. */
  function SubjectOf(user: Option<Decoded>): Option<int> {
    if user.Some? && user.value.Claims? && user.value.idUser.Some? then Some(user.value.idUser.value) else None
  }

  /** `me`: 200 "Current user" with the stored user, or with null when the subject is gone; a claim
      set without an id makes the query throw. `queryError` is the driver's message for that. */
  function Me(users: seq<User>, user: Option<Decoded>, queryError: string): (o: Outcome)
    ensures SubjectOf(user).None? <==> o.Threw?
    ensures o.Threw? ==> o.error == ApiError(500, "Error getting current user", Str(queryError))
    ensures o.Responded? ==> o.response.status == 200 && o.response.body.success
                             && o.response.body.message == "Current user"
    ensures o.Responded? ==>
      var found := UserService.GetById(users, SubjectOf(user).value);
      o.response.body.data == if found.Some? then UserJson(found.value) else Null
  {
    var id := SubjectOf(user);
    if id.None? then Threw(ApiError(500, "Error getting current user", Str(queryError)))
    else
      var found := UserService.GetById(users, id.value);
      Responded(Reply(200, "Current user", if found.Some? then UserJson(found.value) else Null))
  }

  /** For the claims this application issues, `me` answers 200 with the subject as now stored,
      or null once the subject has been deleted. */
  lemma MeForIssuedClaims(users: seq<User>, next: int, u: User, issued: int, queryError: string)
    requires UsersOk(users, next)
    ensures var o := Me(users, Some(ClaimsFor(u, issued)), queryError);
            && o.Responded?
            && (u in users ==> o.response.body.data == UserJson(u))
            && ((forall v :: v in users ==> v.idUser != u.idUser) ==> o.response.body.data == Null)
  {
    if u in users {
      UserService.LookupsFindTheRow(users, next, u);
    }
  }

  // ---------------------------------------------------------------- refresh

  /** `refresh`: the token is taken from the header again and verified again; a payload without an
      `id_user`, or a subject that no longer exists, is 401 "Unauthorized"; otherwise a new token is
      signed from the user as currently stored. A throwing `verify` or `sign` lands in the catch. */
  function Refresh(users: seq<User>, header: Option<string>, j: Jwt, secret: Option<string>, now: int): (o: Outcome)
    ensures ExtractToken(header).None? ==> o == Responded(Refusal(401, "Unauthorized"))
    ensures o.Threw? ==> o.error.statusCode == 500 && o.error.message == "Error refreshing token"
    ensures o.Threw? <==> ExtractToken(header).Some?
                          && (!KeyUsable(secret) || j.verify(ExtractToken(header).value, secret.value, now).Rejected?)
    ensures o == Responded(Refusal(401, "Unauthorized")) <==>
      || ExtractToken(header).None?
      || (&& KeyUsable(secret)
          && j.verify(ExtractToken(header).value, secret.value, now).Verified?
          && var id := SubjectOf(Some(j.verify(ExtractToken(header).value, secret.value, now).payload));
             id.None? || UserService.GetById(users, id.value).None?)
    ensures o.Responded? && o != Responded(Refusal(401, "Unauthorized")) ==> o.response.status == 200
    ensures o.Responded? && o.response.status == 200 ==>
      && Authenticate(header, j, secret, now).Ok?
      && SubjectOf(Some(Authenticate(header, j, secret, now).value)).Some?
      && var u := UserService.GetById(users, SubjectOf(Some(Authenticate(header, j, secret, now).value)).value);
      && u.Some?
      && o.response == Reply(200, "Token refreshed", TokenData(j.sign(ClaimsFor(u.value, now), secret.value)))
  {
    var token := ExtractToken(header);
    if token.None? then Responded(Refusal(401, "Unauthorized"))
    else if !KeyUsable(secret) then Threw(ApiError(500, "Error refreshing token", Str(VerifyKeyMissing)))
    else
      match j.verify(token.value, secret.value, now)
      case Rejected(reason) => Threw(ApiError(500, "Error refreshing token", Str(reason)))
      case Verified(d) =>
        var id := SubjectOf(Some(d));
        if id.None? then Responded(Refusal(401, "Unauthorized"))
        else
          var found := UserService.GetById(users, id.value);
          if found.None? then Responded(Refusal(401, "Unauthorized"))
          else Responded(Reply(200, "Token refreshed", TokenData(j.sign(ClaimsFor(found.value, now), secret.value))))
  }

  /** Behind the gate (same header, same instant) `refresh` never reaches its catch. */
  lemma RefreshBehindGateNeverThrows(users: seq<User>, header: Option<string>, j: Jwt, secret: Option<string>, now: int)
    requires Authenticate(header, j, secret, now).Ok?
    ensures Refresh(users, header, j, secret, now).Responded?
  {
  }

  /** A valid token whose subject was deleted is refused with 401 "Unauthorized". */
  lemma RefreshForDeletedSubject(users: seq<User>, header: Option<string>, j: Jwt, secret: Option<string>, now: int, id: int)
    requires Authenticate(header, j, secret, now).Ok?
    requires SubjectOf(Some(Authenticate(header, j, secret, now).value)) == Some(id)
    requires forall u :: u in users ==> u.idUser != id
    ensures Refresh(users, header, j, secret, now) == Responded(Refusal(401, "Unauthorized"))
  {
  }

  /** A refreshed token carries the subject's current e-mail and a fresh hour, and itself passes the gate. */
  lemma RefreshedTokenPassesGate(users: seq<User>, next: int, header: Option<string>, j: Jwt, secret: Option<string>,
                                 now: int, later: int, u: User, issued: int)
    requires Sound(j) && UsersOk(users, next) && u in users
    requires Authenticate(header, j, secret, now) == Ok(ClaimsFor(u, issued))
    ensures var t := j.sign(ClaimsFor(u, now), secret.value);
            && Refresh(users, header, j, secret, now) == Responded(Reply(200, "Token refreshed", TokenData(t)))
            && (later < now + Lifetime ==> Authenticate(Some(Join(["Bearer", t])), j, secret, later) == Ok(ClaimsFor(u, now)))
  {
    UserService.LookupsFindTheRow(users, next, u);
    var t := j.sign(ClaimsFor(u, now), secret.value);
    SchemeIsIgnored("Bearer", t, []);
    assert ["Bearer", t] + [] == ["Bearer", t];
  }

  // ---------------------------------------------------------------- logout

  /** `logout`: always 200 "Logout successful" with null data; tokens stay valid. */
  function Logout(): (o: Outcome)
    ensures o.Responded? && o.response.status == 200 && o.response.body.success
    ensures o.response.body.message == "Logout successful" && o.response.body.data == Null
  {
    Responded(Reply(200, "Logout successful", Undefined))
  }

  /** Without a usable key nothing passes the gate, and a correct login ends in the catch. */
  lemma MissingKeyLocksEveryone(header: Option<string>, users: seq<User>, email: string, password: string,
                                j: Jwt, secret: Option<string>, now: int)
    requires !KeyUsable(secret)
    ensures Authenticate(header, j, secret, now).Err?
    ensures Login(users, email, password, j, secret, now).Responded? ==>
            Login(users, email, password, j, secret, now).response.status == 401
  {
  }
}
