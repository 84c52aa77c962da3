/**
  The auth route's pure parts: the registration conflict query, login over
  the users table, and the JWT payload it issues. Hashing, verification and
  signing are not modelled: password_hash and password_verify come in as
  function parameters and the response carries the unsigned payload.
*/
module AuthRoutes {
  import opened Schema

  const Issuer: string := "yourcode"
  /** 60 * 60 * 24 seconds. */
  const TokenLifetime: int := 86400

  datatype TokenUser = TokenUser(id: int, username: string, email: string)

  datatype TokenPayload = TokenPayload(iss: string, aud: string, iat: Timestamp, exp: Timestamp, data: TokenUser)

  /** The user object a successful login returns: the selected row without
      its password column. */
  datatype LoginUser = LoginUser(id: int, username: string, email: string, profileImage: Option<string>, bio: Option<string>)

  datatype LoginResponse = LoginResponse(token: TokenPayload, user: LoginUser)

  /** generateJWT's payload as written: iat and exp each read the clock,
      so they see two readings, first <= second. */
  function AsWrittenPayload(id: int, username: string, email: string, first: Timestamp, second: Timestamp): (t: TokenPayload)
    requires first <= second
    ensures t.exp - t.iat >= TokenLifetime
  {
    TokenPayload(Issuer, Issuer, first, second + 60 * 60 * 24, TokenUser(id, username, email))
  }

  /** The clock can tick between the two readings: the token then lives one
      second longer than 24 hours. */
  lemma AsWrittenLifetimeCanDrift()
    ensures var t := AsWrittenPayload(7, "alice", "alice@example.com", 1000, 1001);
      t.exp - t.iat == TokenLifetime + 1
  {
  }

  /** The payload with one clock reading: exp is exactly 24 hours after iat. */
  function Payload(id: int, username: string, email: string, now: Timestamp): (t: TokenPayload)
    ensures t.iss == Issuer && t.aud == Issuer
    ensures t.iat == now && t.exp == t.iat + TokenLifetime
    ensures t.data == TokenUser(id, username, email)
  {
    TokenPayload(Issuer, Issuer, now, now + TokenLifetime, TokenUser(id, username, email))
  }

  /** When both readings agree the code as written issues exactly Payload. */
  lemma AsWrittenAgreesWhenClockStill(id: int, username: string, email: string, now: Timestamp)
    ensures AsWrittenPayload(id, username, email, now, now) == Payload(id, username, email, now)
  {
  }

  /** register's existence query: some row has this email or this username. */
  predicate Taken(users: seq<User>, username: string, email: string) {
    exists i :: 0 <= i < |users| && (users[i].email == email || users[i].username == username)
  }

  /** login's WHERE clause: the identifier is the username or the email. */
  predicate LoginMatch(u: User, identifier: string) {
    u.username == identifier || u.email == identifier
  }

  /** The index of the first row, from `from` on, that the login query
      returns; fetch() reads only that one. */
  function FirstLoginRow(users: seq<User>, identifier: string, from: nat): (r: Option<nat>)
    requires from <= |users|
    ensures r.Some? ==> from <= r.value < |users| && LoginMatch(users[r.value], identifier)
    ensures r.Some? ==> forall j :: from <= j < r.value ==> !LoginMatch(users[j], identifier)
    ensures r.None? ==> forall j :: from <= j < |users| ==> !LoginMatch(users[j], identifier)
    decreases |users| - from
  {
    if from == |users| then None
    else if LoginMatch(users[from], identifier) then Some(from)
    else FirstLoginRow(users, identifier, from + 1)
  }

  const InvalidCredentials: string := "Invalid credentials"

  /** POST auth?action=login. verify stands for password_verify. */
  function Login(users: seq<User>, identifier: Option<string>, password: Option<string>,
                 verify: (string, string) -> bool, now: Timestamp): (r: Outcome<LoginResponse>)
    ensures Blank(identifier) || Blank(password) ==> r == Fail(BadRequest, "Missing username or password")
    ensures !Blank(identifier) && !Blank(password) && r.Fail? ==> r == Fail(Unauthorized, InvalidCredentials)
    ensures r.Ok? <==>
      && !Blank(identifier) && !Blank(password)
      && exists i :: 0 <= i < |users| && LoginMatch(users[i], identifier.value)
                     && (forall j :: 0 <= j < i ==> !LoginMatch(users[j], identifier.value))
                     && verify(password.value, users[i].passwordHash)
    ensures r.Ok? ==> exists i :: (
      && 0 <= i < |users| && LoginMatch(users[i], identifier.value)
      && (forall j :: 0 <= j < i ==> !LoginMatch(users[j], identifier.value))
      && verify(password.value, users[i].passwordHash)
      && r.value.user == LoginUser(users[i].id, users[i].username, users[i].email, users[i].profileImage, users[i].bio)
      && r.value.token == Payload(users[i].id, users[i].username, users[i].email, now))
  {
    if Blank(identifier) || Blank(password) then Fail(BadRequest, "Missing username or password")
    else match FirstLoginRow(users, identifier.value, 0)
      case None => Fail(Unauthorized, InvalidCredentials)
      case Some(i) =>
        var u := users[i];
        if verify(password.value, u.passwordHash) then
          Ok(LoginResponse(Payload(u.id, u.username, u.email, now), LoginUser(u.id, u.username, u.email, u.profileImage, u.bio)))
        else Fail(Unauthorized, InvalidCredentials)
  }

  /** Usernames and emails are unique per column but not across columns, and
      login checks only the first row its query returns: here the second
      user's correct password is refused when they sign in with their email. */
  lemma LoginChecksOnlyFirstRow()
    ensures var users := [
        User(1, "bob@mail.test", "amy@mail.test", "h:amy", None, None, None, 0),
        User(2, "bob", "bob@mail.test", "h:bob", None, None, None, 0)];
      var verify := (pw: string, hash: string) => hash == "h:" + pw;
      && UniqueLogins(users)
      && verify("bob", users[1].passwordHash)
      && Login(users, Some("bob@mail.test"), Some("bob"), verify, 0) == Fail(Unauthorized, InvalidCredentials)
  {
    var users := [
        User(1, "bob@mail.test", "amy@mail.test", "h:amy", None, None, None, 0),
        User(2, "bob", "bob@mail.test", "h:bob", None, None, None, 0)];
    assert FirstLoginRow(users, "bob@mail.test", 0) == Some(0);
  }
}
