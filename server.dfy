/**
 * The account store and REST handlers of server.js. The MongoDB collection is a
 * table `users: map<UserId, User>` held by a `Server` object; every handler is a
 * method that reads or replaces one entry and returns the HTTP status and JSON body
 * it sends. bcrypt and jsonwebtoken are not modelled: the server is given their
 * four operations as functions when it is constructed.
 */
module AccountServer {

  import opened Wrappers

  /** A document `_id`; the store hands them out in increasing order. */
  type UserId = nat

  /** The random salt bcrypt draws for one call of `bcrypt.hash`. */
  type Salt = nat

  /** The clock reading, in seconds, that `jwt.sign` stamps into a token as `iat`. */
  type Seconds = nat

  /** One element of a user's `buttons` array; `kind` is the schema's `type` field. */
  datatype Button = Button(id: string, name: string, points: int, kind: string)

  /** A stored user document; `password` holds the bcrypt hash, never the secret. */
  datatype User = User(username: string, password: string, points: int, buttons: seq<Button>)

  type Table = map<UserId, User>

  /** The JSON bodies the handlers send. */
  datatype Body =
    | Failure(error: string)
    | Message(message: string)
    | PointsBody(points: int)
    | ButtonsBody(buttons: seq<Button>)
    | UserData(points: int, buttons: seq<Button>)
    | Session(token: string, points: int, buttons: seq<Button>)

  datatype Response = Response(status: nat, body: Body)

  /** The decision of the `authenticateToken` middleware. */
  datatype Gate = Deny(response: Response) | Proceed(userId: UserId)

  const DefaultUsername := "casimirdebonneval"
  const DefaultPassword := "pass"
  const DefaultJwtSecret := "default_secret"
  /** The cost factor passed to every `bcrypt.hash` call. */
  const SaltRounds := 10

  const InvalidCredentials := Response(401, Failure("Invalid credentials"))
  const NoToken := Response(401, Failure("No token provided"))
  const InvalidToken := Response(403, Failure("Invalid token"))
  const UserNotFound := Response(404, Failure("User not found"))
  const UsernameExists := Response(400, Failure("Username already exists"))
  const ServerError := Response(500, Failure("Server error"))
  const UserCreated := Response(201, Message("User created successfully"))

  /** `Math.max(0, points)`: the stored value is the least non-negative bound of the input. */
  function Clamp(points: int): (r: int)
    ensures r >= 0 && r >= points
    ensures r == 0 || r == points
  {
    if points < 0 then 0 else points
  }

  /** `process.env.JWT_SECRET || 'default_secret'`: an unset or empty variable falls back. */
  function SigningKey(env: Option<string>): (key: string)
    ensures key != ""
    ensures env.Some? && env.value != "" ==> key == env.value
    ensures env.None? || env.value == "" ==> key == DefaultJwtSecret
  {
    match env
    case Some(k) => if k != "" then k else DefaultJwtSecret
    case None => DefaultJwtSecret
  }

  // ---------------------------------------------------------------------------
  // `header.split(' ')`, from which the middleware takes the second field

  /** The fields of `parts` joined back together with single spaces. */
  function Join(parts: seq<string>): string
    requires |parts| >= 1
  {
    if |parts| == 1 then parts[0] else parts[0] + " " + Join(parts[1..])
  }

  /** JavaScript's `s.split(' ')`: the pieces between single spaces, empty pieces kept. */
  function Split(s: string): (parts: seq<string>)
    ensures |parts| >= 1
    ensures forall i :: 0 <= i < |parts| ==> ' ' !in parts[i]
    ensures Join(parts) == s
  {
    if s == [] then [""]
    else
      var rest := Split(s[1..]);
      if s[0] == ' ' then
        assert Join([""] + rest) == " " + Join(rest) by {
          assert ([""] + rest)[1..] == rest;
        }
        [""] + rest
      else
        var parts := [[s[0]] + rest[0]] + rest[1..];
        assert parts[1..] == rest[1..];
        assert s == [s[0]] + s[1..];
        parts
  }

  lemma {:induction false} SplitNoSpace(a: string)
    requires ' ' !in a
    ensures Split(a) == [a]
  {
    if a != [] {
      SplitNoSpace(a[1..]);
      assert [a[0]] + a[1..] == a;
    }
  }

  lemma {:induction false} SplitField(a: string, r: string)
    requires ' ' !in a
    ensures Split(a + " " + r) == [a] + Split(r)
  {
    var s := a + " " + r;
    if a == [] {
      assert s[1..] == r;
    } else {
      assert s[1..] == a[1..] + " " + r;
      SplitField(a[1..], r);
      assert [a[0]] + a[1..] == a;
    }
  }

  /** Splitting undoes joining fields that hold no space. */
  lemma {:induction false} SplitJoin(parts: seq<string>)
    requires |parts| >= 1
    requires forall i :: 0 <= i < |parts| ==> ' ' !in parts[i]
    ensures Split(Join(parts)) == parts
  {
    if |parts| == 1 {
      SplitNoSpace(parts[0]);
    } else {
      SplitJoin(parts[1..]);
      SplitField(parts[0], Join(parts[1..]));
      assert [parts[0]] + parts[1..] == parts;
    }
  }

  /** `authorization?.split(' ')[1]`: absent when there is no header or no second field. */
  function BearerToken(authorization: Option<string>): (token: Option<string>)
    ensures token.Some? ==> authorization.Some? && ' ' !in token.value
    ensures authorization.Some? && ' ' !in authorization.value ==> token.None?
    ensures authorization.Some? && ' ' in authorization.value ==> token.Some?
  {
    match authorization
    case None => None
    case Some(h) =>
      var fields := Split(h);
      assert |fields| == 1 ==> Join(fields) == fields[0];
      if |fields| >= 2 then Some(fields[1])
      else None
  }

  /** A header `"<scheme> <token>"` yields exactly its token. */
  lemma SchemeAndToken(scheme: string, token: string)
    requires ' ' !in scheme && ' ' !in token
    ensures BearerToken(Some(scheme + " " + token)) == Some(token)
  {
    SplitJoin([scheme, token]);
    assert Join([scheme, token]) == scheme + " " + token by {
      assert [scheme, token][1..] == [token];
    }
  }

  /** The token is the text between the first and the second space; whatever follows
      the second space is ignored. */
  lemma SchemeTokenAndRest(scheme: string, token: string, rest: string)
    requires ' ' !in scheme && ' ' !in token
    ensures BearerToken(Some(scheme + " " + token + " " + rest)) == Some(token)
  {
    SplitField(scheme, token + " " + rest);
    SplitField(token, rest);
    assert scheme + " " + token + " " + rest == scheme + " " + (token + " " + rest);
  }

  // ---------------------------------------------------------------------------
  // The table and its invariants

  predicate UsernameTaken(users: Table, username: string)
  {
    exists id :: id in users && users[id].username == username
  }

  /** The schema's `unique: true` on `username`. */
  ghost predicate UniqueUsernames(users: Table)
  {
    forall a, b :: a in users && b in users && users[a].username == users[b].username ==> a == b
  }

  /** Every stored user satisfies the schema's `required` username and has points >= 0. */
  ghost predicate WellFormed(users: Table)
  {
    forall id :: id in users ==> users[id].username != "" && users[id].points >= 0
  }

  /** The table after `user.points = Math.max(0, points); user.save()`. */
  function WithPoints(users: Table, id: UserId, points: int): (t: Table)
    requires id in users
    ensures t.Keys == users.Keys
    ensures t[id].points >= 0
  {
    users[id := users[id].(points := Clamp(points))]
  }

  /** The table after `user.buttons = buttons; user.save()`. */
  function WithButtons(users: Table, id: UserId, buttons: seq<Button>): (t: Table)
    requires id in users
    ensures t.Keys == users.Keys
  {
    users[id := users[id].(buttons := buttons)]
  }

  /** What GET /api/points sends for an authenticated id. */
  function PointsOf(users: Table, id: UserId): (r: Response)
    ensures r.status == 200 <==> id in users
    ensures id !in users ==> r == UserNotFound
  {
    if id in users then Response(200, PointsBody(users[id].points)) else UserNotFound
  }

  /** What GET /api/user-data sends for an authenticated id (`user.buttons || []`). */
  function UserDataOf(users: Table, id: UserId): (r: Response)
    ensures r.status == 200 <==> id in users
    ensures id !in users ==> r == UserNotFound
  {
    if id in users then Response(200, UserData(users[id].points, users[id].buttons)) else UserNotFound
  }

  /** Writing points stores the clamped value, keeps every other field and every other user. */
  lemma WithPointsFrame(users: Table, id: UserId, points: int, other: UserId)
    requires id in users && other in users
    ensures WithPoints(users, id, points)[id] == users[id].(points := Clamp(points))
    ensures other != id ==> WithPoints(users, id, points)[other] == users[other]
  {
  }

  /** Writing the same points twice leaves the same table as writing them once. */
  lemma WithPointsIdempotent(users: Table, id: UserId, points: int)
    requires id in users
    ensures WithPoints(WithPoints(users, id, points), id, points) == WithPoints(users, id, points)
  {
  }

  /** Writing points keeps the table's invariants. */
  lemma WithPointsKeepsInvariants(users: Table, id: UserId, points: int)
    requires id in users && UniqueUsernames(users) && WellFormed(users)
    ensures UniqueUsernames(WithPoints(users, id, points)) && WellFormed(WithPoints(users, id, points))
  {
  }

  /** A points write followed by a points read gives back the clamped value. */
  lemma PointsRoundTrip(users: Table, id: UserId, points: int)
    requires id in users
    ensures PointsOf(WithPoints(users, id, points), id) == Response(200, PointsBody(Clamp(points)))
  {
  }

  /** Replacing the buttons keeps every other field and every other user. */
  lemma WithButtonsFrame(users: Table, id: UserId, buttons: seq<Button>, other: UserId)
    requires id in users && other in users
    ensures WithButtons(users, id, buttons)[id] == users[id].(buttons := buttons)
    ensures other != id ==> WithButtons(users, id, buttons)[other] == users[other]
  {
  }

  /** Replacing the buttons keeps the table's invariants. */
  lemma WithButtonsKeepsInvariants(users: Table, id: UserId, buttons: seq<Button>)
    requires id in users && UniqueUsernames(users) && WellFormed(users)
    ensures UniqueUsernames(WithButtons(users, id, buttons)) && WellFormed(WithButtons(users, id, buttons))
  {
  }

  /** A buttons write followed by a user-data read gives back exactly that list, points unchanged. */
  lemma ButtonsRoundTrip(users: Table, id: UserId, buttons: seq<Button>)
    requires id in users
    ensures UserDataOf(WithButtons(users, id, buttons), id) == Response(200, UserData(users[id].points, buttons))
  {
  }

  /** Adding a user under a fresh id and a free, non-empty username keeps the invariants. */
  lemma AddUserKeepsInvariants(users: Table, id: UserId, u: User)
    requires UniqueUsernames(users) && WellFormed(users)
    requires id !in users && !UsernameTaken(users, u.username)
    requires u.username != "" && u.points >= 0
    ensures UniqueUsernames(users[id := u]) && WellFormed(users[id := u])
  {
  }

  // ---------------------------------------------------------------------------
  // The server

  class Server {
    /** The `User` collection. */
    var users: Table
    /** A bound above every `_id` handed out so far. */
    var nextId: UserId

    /** The key every token is signed and verified with. */
    const jwtSecret: string
    /** `bcrypt.hash(password, rounds)` with the salt it draws. */
    const hash: (string, nat, Salt) -> string
    /** `bcrypt.compare(password, storedHash)`. */
    const compare: (string, string) -> bool
    /** `jwt.sign({ userId }, key)` at a given time, which it records as `iat`. */
    const sign: (UserId, Seconds, string) -> string
    /** `jwt.verify(token, key)`: the payload's `userId`, or None on any error. */
    const verify: (string, string) -> Option<UserId>

    ghost predicate Valid()
      reads this
    {
      && (forall id :: id in users ==> id < nextId)
      && UniqueUsernames(users)
      && WellFormed(users)
    }

    /** An empty collection; the environment's JWT_SECRET and the crypto library are given. */
    constructor (jwtEnv: Option<string>,
                 hash: (string, nat, Salt) -> string,
                 compare: (string, string) -> bool,
                 sign: (UserId, Seconds, string) -> string,
                 verify: (string, string) -> Option<UserId>)
      ensures Valid()
      ensures users == map[] && jwtSecret == SigningKey(jwtEnv)
      ensures this.hash == hash && this.compare == compare && this.sign == sign && this.verify == verify
    {
      users := map[];
      nextId := 0;
      jwtSecret := SigningKey(jwtEnv);
      this.hash := hash;
      this.compare := compare;
      this.sign := sign;
      this.verify := verify;
    }

    /** The `authenticateToken` middleware. */
    function Authenticate(authorization: Option<string>): (g: Gate)
      ensures g.Deny? ==> g.response in {NoToken, InvalidToken}
      ensures g == Deny(NoToken) <==> BearerToken(authorization) in {None, Some("")}
      ensures g.Proceed? ==> verify(BearerToken(authorization).value, jwtSecret) == Some(g.userId)
      ensures (BearerToken(authorization).Some? && BearerToken(authorization).value != "" &&
               verify(BearerToken(authorization).value, jwtSecret).Some?) ==>
        g == Proceed(verify(BearerToken(authorization).value, jwtSecret).value)
    {
      match BearerToken(authorization)
      case None => Deny(NoToken)
      case Some(token) =>
        if token == "" then Deny(NoToken)
        else match verify(token, jwtSecret)
          case None => Deny(InvalidToken)
          case Some(id) => Proceed(id)
    }

    /** A token this server signs at login, sent as `Bearer <token>`, lets the request
        through as its user, provided the library's verify accepts what its sign made
        and tokens hold no space (true of the dot-separated base64url form). */
    lemma IssuedTokenAuthenticates(id: UserId, issuedAt: Seconds)
      requires verify(sign(id, issuedAt, jwtSecret), jwtSecret) == Some(id)
      requires sign(id, issuedAt, jwtSecret) != "" && ' ' !in sign(id, issuedAt, jwtSecret)
      ensures Authenticate(Some("Bearer " + sign(id, issuedAt, jwtSecret))) == Proceed(id)
    {
      var token := sign(id, issuedAt, jwtSecret);
      SchemeAndToken("Bearer", token);
      assert "Bearer" + " " + token == "Bearer " + token;
    }

    /** A request without a header, or whose header has no second field, is refused with 401. */
    lemma MissingTokenRefused(authorization: Option<string>)
      requires authorization.None? || ' ' !in authorization.value
      ensures Authenticate(authorization) == Deny(NoToken)
    {
    }

    /** `createDefaultUser`: adds the built-in account unless its username is taken. */
    method CreateDefaultUser(salt: Salt)
      requires Valid()
      modifies this
      ensures Valid()
      ensures UsernameTaken(old(users), DefaultUsername) ==> users == old(users)
      ensures !UsernameTaken(old(users), DefaultUsername) ==>
        old(nextId) !in old(users) &&
        users == old(users)[old(nextId) := User(DefaultUsername, hash(DefaultPassword, SaltRounds, salt), 0, [])]
    {
      if !UsernameTaken(users, DefaultUsername) {
        var u := User(DefaultUsername, hash(DefaultPassword, SaltRounds, salt), 0, []);
        AddUserKeepsInvariants(users, nextId, u);
        users := users[nextId := u];
        nextId := nextId + 1;
      }
    }

    /** POST /api/signup. */
    method Signup(username: string, password: string, salt: Salt) returns (r: Response)
      requires Valid()
      modifies this
      ensures Valid()
      ensures UsernameTaken(old(users), username) ==> r == UsernameExists && users == old(users)
      ensures !UsernameTaken(old(users), username) && username == "" ==> r == ServerError && users == old(users)
      ensures !UsernameTaken(old(users), username) && username != "" ==>
        && r == UserCreated
        && old(nextId) !in old(users)
        && users == old(users)[old(nextId) := User(username, hash(password, SaltRounds, salt), 0, [])]
    {
      if UsernameTaken(users, username) {
        return UsernameExists;
      }
      if username == "" {
        // the schema's `required` validator refuses an empty string, so `save` throws
        return ServerError;
      }
      var u := User(username, hash(password, SaltRounds, salt), 0, []);
      AddUserKeepsInvariants(users, nextId, u);
      users := users[nextId := u];
      nextId := nextId + 1;
      r := UserCreated;
    }

    /** POST /api/login: one answer for an unknown username and for a wrong password. */
    method Login(username: string, password: string, now: Seconds) returns (r: Response)
      requires Valid()
      ensures !UsernameTaken(users, username) ==> r == InvalidCredentials
      ensures forall id :: id in users && users[id].username == username ==>
        r == if compare(password, users[id].password)
             then Response(200, Session(sign(id, now, jwtSecret), users[id].points, users[id].buttons))
             else InvalidCredentials
    {
      if !UsernameTaken(users, username) {
        return InvalidCredentials;
      }
      var id :| id in users && users[id].username == username;
      var user := users[id];
      if !compare(password, user.password) {
        return InvalidCredentials;
      }
      r := Response(200, Session(sign(id, now, jwtSecret), user.points, user.buttons));
    }

    /** POST /api/points. */
    method PostPoints(authorization: Option<string>, points: int) returns (r: Response)
      requires Valid()
      modifies this
      ensures Valid() && nextId == old(nextId)
      ensures Authenticate(authorization).Deny? ==>
        r == Authenticate(authorization).response && users == old(users)
      ensures Authenticate(authorization).Proceed? && Authenticate(authorization).userId !in old(users) ==>
        r == UserNotFound && users == old(users)
      ensures Authenticate(authorization).Proceed? && Authenticate(authorization).userId in old(users) ==>
        && users == WithPoints(old(users), Authenticate(authorization).userId, points)
        && r == Response(200, PointsBody(Clamp(points)))
    {
      var gate := Authenticate(authorization);
      if gate.Deny? {
        return gate.response;
      }
      var id := gate.userId;
      if id !in users {
        return UserNotFound;
      }
      WithPointsKeepsInvariants(users, id, points);
      users := WithPoints(users, id, points);
      r := Response(200, PointsBody(users[id].points));
    }

    /** GET /api/points. */
    method GetPoints(authorization: Option<string>) returns (r: Response)
      requires Valid()
      ensures Authenticate(authorization).Deny? ==> r == Authenticate(authorization).response
      ensures Authenticate(authorization).Proceed? ==> r == PointsOf(users, Authenticate(authorization).userId)
    {
      var gate := Authenticate(authorization);
      if gate.Deny? {
        return gate.response;
      }
      if gate.userId !in users {
        return UserNotFound;
      }
      r := Response(200, PointsBody(users[gate.userId].points));
    }

    /** GET /api/user-data. */
    method GetUserData(authorization: Option<string>) returns (r: Response)
      requires Valid()
      ensures Authenticate(authorization).Deny? ==> r == Authenticate(authorization).response
      ensures Authenticate(authorization).Proceed? ==> r == UserDataOf(users, Authenticate(authorization).userId)
    {
      var gate := Authenticate(authorization);
      if gate.Deny? {
        return gate.response;
      }
      if gate.userId !in users {
        return UserNotFound;
      }
      var user := users[gate.userId];
      r := Response(200, UserData(user.points, user.buttons));
    }

    /** POST /api/buttons: the stored list is replaced wholesale. */
    method PostButtons(authorization: Option<string>, buttons: seq<Button>) returns (r: Response)
      requires Valid()
      modifies this
      ensures Valid() && nextId == old(nextId)
      ensures Authenticate(authorization).Deny? ==>
        r == Authenticate(authorization).response && users == old(users)
      ensures Authenticate(authorization).Proceed? && Authenticate(authorization).userId !in old(users) ==>
        r == UserNotFound && users == old(users)
      ensures Authenticate(authorization).Proceed? && Authenticate(authorization).userId in old(users) ==>
        && users == WithButtons(old(users), Authenticate(authorization).userId, buttons)
        && r == Response(200, ButtonsBody(buttons))
    {
      var gate := Authenticate(authorization);
      if gate.Deny? {
        return gate.response;
      }
      var id := gate.userId;
      if id !in users {
        return UserNotFound;
      }
      WithButtonsKeepsInvariants(users, id, buttons);
      users := WithButtons(users, id, buttons);
      r := Response(200, ButtonsBody(users[id].buttons));
    }
  }

  /** Signing up and logging in, derived from the handlers' contracts alone, for a
      store that starts empty and a bcrypt that accepts the right password and
      refuses a wrong one. */
  method SignUpAndLogIn(s: Server, salt: Salt, now: Seconds) returns (rs: seq<Response>)
    requires s.Valid() && s.users == map[]
    requires s.compare("secret123", s.hash("secret123", SaltRounds, salt))
    requires !s.compare("wrongpass", s.hash("secret123", SaltRounds, salt))
    modifies s
    ensures s.Valid() && old(s.nextId) in s.users
    ensures s.users[old(s.nextId)] == User("alice", s.hash("secret123", SaltRounds, salt), 0, [])
    ensures rs == [UserCreated,
                   Response(200, Session(s.sign(old(s.nextId), now, s.jwtSecret), 0, [])),
                   InvalidCredentials,
                   InvalidCredentials]
  {
    var id := s.nextId;
    var created := s.Signup("alice", "secret123", salt);
    assert id in s.users && s.users[id].username == "alice";
    var session := s.Login("alice", "secret123", now);
    var wrong := s.Login("alice", "wrongpass", now);
    assert !UsernameTaken(s.users, "nosuchuser");
    var unknown := s.Login("nosuchuser", "x", now);
    rs := [created, session, wrong, unknown];
  }

  /** Writing buttons, reading them back and writing points twice with a header that
      authenticates as a stored user, derived from the handlers' contracts alone. */
  method UseSession(s: Server, header: Option<string>, id: UserId, chore: Button) returns (rs: seq<Response>)
    requires s.Valid() && id in s.users
    requires s.Authenticate(header) == Proceed(id)
    modifies s
    ensures s.Valid() && id in s.users
    ensures s.users[id] == old(s.users[id]).(points := 0, buttons := [chore])
    ensures rs == [Response(200, ButtonsBody([chore])),
                   Response(200, UserData(old(s.users[id].points), [chore])),
                   Response(200, PointsBody(10)),
                   Response(200, PointsBody(0))]
  {
    var saved := s.PostButtons(header, [chore]);
    var data := s.GetUserData(header);
    var ten := s.PostPoints(header, 10);
    var floored := s.PostPoints(header, -5);
    rs := [saved, data, ten, floored];
  }

  /** The whole sequence a new user goes through: sign up, log in, and use the issued
      token, given a jsonwebtoken whose verify accepts what its sign made. */
  method Walkthrough(s: Server, salt: Salt, chore: Button, now: Seconds) returns (rs: seq<Response>)
    requires s.Valid() && s.users == map[]
    requires s.compare("secret123", s.hash("secret123", SaltRounds, salt))
    requires !s.compare("wrongpass", s.hash("secret123", SaltRounds, salt))
    requires s.verify(s.sign(s.nextId, now, s.jwtSecret), s.jwtSecret) == Some(s.nextId)
    requires s.sign(s.nextId, now, s.jwtSecret) != "" && ' ' !in s.sign(s.nextId, now, s.jwtSecret)
    modifies s
    ensures rs == [UserCreated,
                   Response(200, Session(s.sign(old(s.nextId), now, s.jwtSecret), 0, [])),
                   InvalidCredentials,
                   InvalidCredentials,
                   Response(200, ButtonsBody([chore])),
                   Response(200, UserData(0, [chore])),
                   Response(200, PointsBody(10)),
                   Response(200, PointsBody(0))]
  {
    var id := s.nextId;
    var first := SignUpAndLogIn(s, salt, now);
    s.IssuedTokenAuthenticates(id, now);
    var second := UseSession(s, Some("Bearer " + s.sign(id, now, s.jwtSecret)), id, chore);
    rs := first + second;
  }
}
