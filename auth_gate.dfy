/**
  `authMiddleware`: take the second space-separated word of the `Authorization` header, verify
  it, attach the claims to the request and call `next`. The first word is never looked at, so
  the `Bearer` scheme of section 2.1 of RFC 6750 is not enforced. Also the guarded-route table.
 */
module AuthGate {
  import opened Wrappers
  import opened Json
  import opened Envelope
  import opened Tokens

  // ---------------------------------------------------------------- splitting on " "

  /** `s.split(" ")`: the words between single spaces, empty words included. */
  function Split(s: string): (parts: seq<string>)
    ensures |parts| >= 1
    ensures forall i :: 0 <= i < |parts| ==> ' ' !in parts[i]
    ensures Join(parts) == s
  {
    if ' ' !in s then [s]
    else
      var i := SpaceAt(s);
      [s[..i]] + Split(s[i + 1..])
  }

  /** The position of the first space. */
  function SpaceAt(s: string): (i: nat)
    requires ' ' in s
    ensures i < |s| && s[i] == ' ' && ' ' !in s[..i]
  {
    if s[0] == ' ' then 0 else 1 + SpaceAt(s[1..])
  }

  /** `parts.join(" ")`. */
  function Join(parts: seq<string>): string
    requires |parts| >= 1
  {
    if |parts| == 1 then parts[0] else parts[0] + " " + Join(parts[1..])
  }

  /** Splitting undoes joining words that contain no space. */
  lemma {:induction false} SplitJoin(parts: seq<string>)
    requires |parts| >= 1 && forall i :: 0 <= i < |parts| ==> ' ' !in parts[i]
    ensures Split(Join(parts)) == parts
  {
    if |parts| > 1 {
      var s := Join(parts);
      var w := parts[0];
      assert s == w + (" " + Join(parts[1..]));
      assert s[|w|] == ' ';
      assert ' ' !in s[..|w|] by { assert s[..|w|] == w; }
      var i := SpaceAt(s);
      assert i == |w|;
      assert s[i + 1..] == Join(parts[1..]);
      SplitJoin(parts[1..]);
    }
  }

  // ---------------------------------------------------------------- the gate

  /** `req.headers.authorization?.split(" ")[1]`, and `!token`: an absent or empty second word is no token. */
  function ExtractToken(header: Option<string>): (t: Option<string>)
    ensures t.Some? ==> t.value != "" && ' ' !in t.value
  {
    if header.None? then None
    else
      var parts := Split(header.value);
      if |parts| >= 2 && parts[1] != "" then Some(parts[1]) else None
  }

  /** The token of a header of space-free words is its second word, when there is a non-empty one. */
  lemma TokenOfJoin(parts: seq<string>)
    requires |parts| >= 2 && parts[1] != ""
    requires forall i :: 0 <= i < |parts| ==> ' ' !in parts[i]
    ensures ExtractToken(Some(Join(parts))) == Some(parts[1])
  {
    SplitJoin(parts);
  }

  /** Prefixing two space-free words keeps every word space-free. */
  lemma NoSpaceInAnyWord(scheme: string, token: string, rest: seq<string>)
    requires ' ' !in scheme && ' ' !in token
    requires forall i :: 0 <= i < |rest| ==> ' ' !in rest[i]
    ensures forall i :: 0 <= i < |[scheme, token] + rest| ==> ' ' !in ([scheme, token] + rest)[i]
  {
  }

  /** Any first word works: the token of `"<scheme> <token>"` is `<token>`, and so it is with more words after. */
  lemma SchemeIsIgnored(scheme: string, token: string, rest: seq<string>)
    requires ' ' !in scheme && ' ' !in token && token != ""
    requires forall i :: 0 <= i < |rest| ==> ' ' !in rest[i]
    ensures ExtractToken(Some(Join([scheme, token] + rest))) == Some(token)
  {
    NoSpaceInAnyWord(scheme, token, rest);
    TokenOfJoin([scheme, token] + rest);
  }

  /** A header of one word, or with an empty second word, carries no token. */
  lemma NoSecondWord(header: string)
    requires ' ' !in header || (exists w :: ' ' !in w && header == w + " ")
    ensures ExtractToken(Some(header)) == None
  {
    if ' ' in header {
      var w :| ' ' !in w && header == w + " ";
      assert header == Join([w, ""]);
      SplitJoin([w, ""]);
    }
  }

  function TokenNotProvided(): ApiError { ApiError(401, "Token not provided", Undefined) }
  function InvalidToken(): ApiError { ApiError(401, "Invalid token", Undefined) }

  /** The decision the middleware takes before `next`: the verified claims, or the 401 it throws.
      `jwt.verify` throws on an unusable key, which the catch also turns into "Invalid token". */
  function Authenticate(header: Option<string>, j: Jwt, secret: Option<string>, now: int): (r: Result<Decoded, ApiError>)
    ensures ExtractToken(header).None? <==> r == Err(TokenNotProvided())
    ensures r.Ok? <==> ExtractToken(header).Some? && KeyUsable(secret)
                       && j.verify(ExtractToken(header).value, secret.value, now).Verified?
    ensures r.Ok? ==> r.value == j.verify(ExtractToken(header).value, secret.value, now).payload
    ensures r.Err? ==> r.error.statusCode == 401
  {
    var token := ExtractToken(header);
    if token.None? then Err(TokenNotProvided())
    else if !KeyUsable(secret) then Err(InvalidToken())
    else
      match j.verify(token.value, secret.value, now)
      case Verified(d) => Ok(d)
      case Rejected(_) => Err(InvalidToken())
  }

  /** Only a token this application signed under the configured key, and still within its hour, passes. */
  lemma PassingMeansSigned(header: Option<string>, j: Jwt, secret: Option<string>, now: int)
    requires Sound(j) && Authenticate(header, j, secret, now).Ok?
    ensures var d := Authenticate(header, j, secret, now).value;
            ExtractToken(header) == Some(j.sign(d, secret.value)) && !Expired(d, now)
  {
  }

  /** The incoming request: its `Authorization` header and the `user` slot the gate fills. */
  class Request {
    var authorization: Option<string>
    var user: Option<Decoded>

    constructor (authorization: Option<string>)
      ensures this.authorization == authorization && user == None
    {
      this.authorization := authorization;
      user := None;
    }
  }

  datatype GateOutcome = Continued | Stopped(error: ApiError)

  /** `authMiddleware(req, res, next)`. `nextThrows` says whether the downstream handler throws
      synchronously out of `next()`; the catch reports that as "Invalid token" as well. */
  method AuthMiddleware(req: Request, j: Jwt, secret: Option<string>, now: int, nextThrows: bool)
    returns (outcome: GateOutcome, nextCalls: nat)
    modifies req`user
    ensures Authenticate(req.authorization, j, secret, now).Err? ==>
      outcome == Stopped(Authenticate(req.authorization, j, secret, now).error) && nextCalls == 0
      && req.user == old(req.user)
    ensures Authenticate(req.authorization, j, secret, now).Ok? ==>
      req.user == Some(Authenticate(req.authorization, j, secret, now).value) && nextCalls == 1
      && outcome == (if nextThrows then Stopped(InvalidToken()) else Continued)
  {
    var decision := Authenticate(req.authorization, j, secret, now);
    if decision.Err? {
      return Stopped(decision.error), 0;
    }
    req.user := Some(decision.value);
    nextCalls := 1;
    outcome := if nextThrows then Stopped(InvalidToken()) else Continued;
  }

  // ---------------------------------------------------------------- guarded routes

  datatype Verb = Get | Post | Put | Patch | Delete

  /** The routes mounted behind the gate, as path segments below `/api`: everything under
      `/authors`, `/books` and `/users`, and `GET /auth/me`, `GET /auth/refresh`, `POST /auth/logout`. */
  predicate IsGuarded(verb: Verb, path: seq<string>) {
    || (|path| >= 1 && path[0] in {"authors", "books", "users"})
    || (verb == Get && path == ["auth", "me"])
    || (verb == Get && path == ["auth", "refresh"])
    || (verb == Post && path == ["auth", "logout"])
  }

  /** Registration and login are the only auth routes reachable without a token. */
  lemma GuardedAuthRoutes(verb: Verb, name: string)
    ensures IsGuarded(verb, ["auth", name]) <==>
            (verb == Get && name in {"me", "refresh"}) || (verb == Post && name == "logout")
  {
  }

  /** Every route below `/authors`, `/books` and `/users`, whatever the verb and the rest of the path,
      goes through the gate; of the `/auth` routes only the three above do. */
  lemma ResourceRoutesGuarded(verb: Verb, resource: string, rest: seq<string>)
    ensures resource in {"authors", "books", "users"} ==> IsGuarded(verb, [resource] + rest)
    ensures resource !in {"authors", "books", "users", "auth"} ==> !IsGuarded(verb, [resource] + rest)
  {
    assert ([resource] + rest)[0] == resource;
  }
}
