/**
 * AuthController: `login` reuses the user's unexpired token or issues a new
 * one that expires in 30 days; `logout` deletes the api_tokens row the
 * TokenAuth middleware attached to the request.
 */
module Auth {
  import opened Support
  import opened Schema
  import opened TokenAuth

  /** `now()->addDays(30)`, with times counted in seconds. */
  const TokenLifetime: int := 30 * 24 * 60 * 60

  /** The width of the `token` column. */
  const MaxTokenLength: nat := 64

  const InvalidCredentials: string := "Invalid credentials"
  const Reused: string := "Existing token reused"
  const Issued: string := "New token issued"

  /** The JSON body of a successful login: the token, the user's id, login and role name, and the message. */
  datatype LoginReply = LoginReply(token: string, userId: Id, login: string, role: Option<string>, message: string)

  /** `User::where('login', $login)->first()`; logins are unique, so it is the one user holding it. */
  function UserByLogin(users: Table<User>, login: string): (r: Option<Id>)
    requires users.Valid()
    ensures r.Some? ==> r.value in users.rows && users.rows[r.value].login == login
    ensures r.None? ==> forall u :: u in users.rows ==> users.rows[u].login != login
  {
    FirstId(users.rows, (u: User) => u.login == login, 0, users.next)
  }

  /**
   * `ApiToken::where('user_id', $user)->where(<unexpired>)->first()`: the
   * lowest-id unexpired token of the user, or none when all of the user's
   * tokens have expired.
   */
  function ActiveToken(tokens: Table<ApiToken>, user: Id, now: int): (r: Option<Id>)
    requires tokens.Valid()
    ensures r.Some? ==>
      && r.value in tokens.rows && tokens.rows[r.value].userId == user && Unexpired(tokens.rows[r.value], now)
      && forall t :: t in tokens.rows && t < r.value && tokens.rows[t].userId == user ==> !Unexpired(tokens.rows[t], now)
    ensures r.None? ==> forall t :: t in tokens.rows && tokens.rows[t].userId == user ==> !Unexpired(tokens.rows[t], now)
  {
    FirstId(tokens.rows, (t: ApiToken) => t.userId == user && Unexpired(t, now), 0, tokens.next)
  }

  /** Some row already holds the token value (the `unique` index would refuse a second). */
  predicate ValueTaken(tokens: Table<ApiToken>, value: string) {
    exists t :: t in tokens.rows && tokens.rows[t].token == value
  }

  /** `$user->role?->name`. */
  function RoleName(roles: map<Id, string>, role: Id): Option<string> {
    if role in roles then Some(roles[role]) else None
  }

  /** `'login' => 'required|string', 'password' => 'required|string'`. */
  predicate LoginAccepted(login: Option<string>, password: Option<string>) {
    login.Some? && Required(login.value) && password.Some? && Required(password.value)
  }

  /**
   * `login`, as the reply and the new token table. `check` is `Hash::check`
   * and `generated` the value `ApiToken::generateToken()` returns.
   *  - A rule violation is a 422 and no user with that login and a matching
   *    password a 401, both leaving the tokens alone.
   *  - A user with an unexpired token gets that token back, tokens unchanged.
   *  - Otherwise exactly one token is added for the user, expiring in 30
   *    days, unless the generated value is taken or too long for the column:
   *    then the insert fails, a 500, and nothing changes.
   * In every successful case the returned value is the user's first
   * unexpired token in the resulting table.
   */
  function LoginOutcome(
    users: Table<User>, roles: map<Id, string>, tokens: Table<ApiToken>,
    login: Option<string>, password: Option<string>, check: (string, string) -> bool,
    now: int, generated: string): (res: (Result<LoginReply>, Table<ApiToken>))
    requires UsersValid(users) && TokensValid(tokens, users)
    ensures TokensValid(res.1, users)
    ensures !LoginAccepted(login, password) ==> res.0 == Err(ValidationFailed)
    ensures LoginAccepted(login, password)
      && (forall u :: u in users.rows && users.rows[u].login == login.value ==> !check(password.value, users.rows[u].password))
      ==> res.0 == Err(Unauthorized(InvalidCredentials))
    ensures res.0.Err? ==> res.1 == tokens
    ensures res.0.Ok? ==>
      var u := res.0.value.userId;
      && LoginAccepted(login, password)
      && u in users.rows && users.rows[u].login == login.value && check(password.value, users.rows[u].password)
      && res.0.value.login == login.value && res.0.value.role == RoleName(roles, users.rows[u].roleId)
      && ActiveToken(res.1, u, now).Some?
      && res.1.rows[ActiveToken(res.1, u, now).value].token == res.0.value.token
    ensures res.0.Ok? && res.0.value.message == Reused ==> res.1 == tokens
    ensures res.0.Ok? && res.0.value.message != Reused ==>
      && res.0.value.message == Issued
      && ActiveToken(tokens, res.0.value.userId, now).None?
      && res.0.value.token == generated
      && res.1 == tokens.Insert(ApiToken(res.0.value.userId, generated, Some(now + TokenLifetime))).0
    ensures res.0 == Err(Internal) ==> ValueTaken(tokens, generated) || |generated| > MaxTokenLength
  {
    if !LoginAccepted(login, password) then (Err(ValidationFailed), tokens)
    else
      var found := UserByLogin(users, login.value);
      if found.None? || !check(password.value, users.rows[found.value].password) then
        (Err(Unauthorized(InvalidCredentials)), tokens)
      else
        GrantOutcome(users, roles, tokens, found.value, login.value, now, generated)
  }

  /**
   * The token step of `login` for the authenticated user `u`: an unexpired
   * token of `u` is returned as reused with the tokens unchanged; otherwise
   * one is issued, or the insert fails.
   */
  function GrantOutcome(
    users: Table<User>, roles: map<Id, string>, tokens: Table<ApiToken>,
    u: Id, login: string, now: int, generated: string): (res: (Result<LoginReply>, Table<ApiToken>))
    requires UsersValid(users) && TokensValid(tokens, users) && u in users.rows
    ensures TokensValid(res.1, users)
    ensures res.0.Err? ==>
      && res.0 == Err(Internal) && res.1 == tokens
      && ActiveToken(tokens, u, now).None? && (ValueTaken(tokens, generated) || |generated| > MaxTokenLength)
    ensures res.0.Ok? ==>
      && res.0.value.userId == u && res.0.value.login == login && res.0.value.role == RoleName(roles, users.rows[u].roleId)
      && ActiveToken(res.1, u, now).Some?
      && res.1.rows[ActiveToken(res.1, u, now).value].token == res.0.value.token
    ensures res.0.Ok? && res.0.value.message == Reused ==> res.1 == tokens
    ensures res.0.Ok? && res.0.value.message != Reused ==>
      && res.0.value.message == Issued
      && ActiveToken(tokens, u, now).None?
      && res.0.value.token == generated
      && res.1 == tokens.Insert(ApiToken(u, generated, Some(now + TokenLifetime))).0
  {
    var existing := ActiveToken(tokens, u, now);
    if existing.Some? then
      (Ok(LoginReply(tokens.rows[existing.value].token, u, login, RoleName(roles, users.rows[u].roleId), Reused)), tokens)
    else
      var issued := Issue(tokens, users, u, now, generated);
      if issued.None? then (Err(Internal), tokens)
      else (Ok(LoginReply(generated, u, login, RoleName(roles, users.rows[u].roleId), Issued)), issued.value)
  }

  /**
   * `ApiToken::create([...])` for a user without an unexpired token: the new
   * row expires 30 days after `now` and becomes the user's first unexpired
   * token. A value that is already taken or too long for the column makes
   * the insert fail.
   */
  function Issue(tokens: Table<ApiToken>, users: Table<User>, u: Id, now: int, generated: string): (r: Option<Table<ApiToken>>)
    requires TokensValid(tokens, users) && u in users.rows && ActiveToken(tokens, u, now).None?
    ensures r.None? <==> ValueTaken(tokens, generated) || |generated| > MaxTokenLength
    ensures r.Some? ==>
      && r.value == tokens.Insert(ApiToken(u, generated, Some(now + TokenLifetime))).0
      && TokensValid(r.value, users)
      && ActiveToken(r.value, u, now) == Some(tokens.next)
  {
    if ValueTaken(tokens, generated) || |generated| > MaxTokenLength then None
    else
      var t := tokens.Insert(ApiToken(u, generated, Some(now + TokenLifetime))).0;
      IssuedIsActive(tokens, t, u, now, generated);
      Some(t)
  }

  /**
   * A token added for a user who had no unexpired one, expiring after `now`,
   * is that user's first unexpired token.
   */
  lemma {:induction false} IssuedIsActive(tokens: Table<ApiToken>, tokens': Table<ApiToken>, u: Id, now: int, value: string)
    requires tokens.Valid() && ActiveToken(tokens, u, now).None?
    requires tokens' == tokens.Insert(ApiToken(u, value, Some(now + TokenLifetime))).0
    ensures ActiveToken(tokens', u, now) == Some(tokens.next)
  {
    assert Unexpired(tokens'.rows[tokens.next], now);
  }

  /** `login` on the database: the reply and the token table are those of `LoginOutcome`. */
  method Login(
    db: Database, login: Option<string>, password: Option<string>, check: (string, string) -> bool,
    now: int, generated: string) returns (r: Result<LoginReply>)
    requires db.Valid()
    modifies db`tokens
    ensures db.Valid()
    ensures (r, db.tokens) == LoginOutcome(db.users, db.roles, old(db.tokens), login, password, check, now, generated)
  {
    if !LoginAccepted(login, password) {
      return Err(ValidationFailed);
    }
    var found := UserByLogin(db.users, login.value);
    if found.None? || !check(password.value, db.users.rows[found.value].password) {
      return Err(Unauthorized(InvalidCredentials));
    }
    r := Grant(db, found.value, login.value, now, generated);
  }

  /** The part of `login` after the credentials were checked: reuse the user's unexpired token or issue one. */
  method Grant(db: Database, u: Id, login: string, now: int, generated: string) returns (r: Result<LoginReply>)
    requires db.Valid() && u in db.users.rows
    modifies db`tokens
    ensures db.Valid()
    ensures (r, db.tokens) == GrantOutcome(db.users, db.roles, old(db.tokens), u, login, now, generated)
  {
    var role := RoleName(db.roles, db.users.rows[u].roleId);
    var existing := ActiveToken(db.tokens, u, now);
    if existing.Some? {
      return Ok(LoginReply(db.tokens.rows[existing.value].token, u, login, role, Reused));
    }
    var issued := Issue(db.tokens, db.users, u, now, generated);
    if issued.None? {
      return Err(Internal);
    }
    db.SetTokens(issued.value);
    r := Ok(LoginReply(generated, u, login, role, Issued));
  }

  /**
   * Logging in twice at the same time with the same credentials returns the
   * same token, the second time as reused and without touching the tokens.
   */
  lemma {:induction false} RepeatedLogin(
    users: Table<User>, roles: map<Id, string>, tokens: Table<ApiToken>,
    login: Option<string>, password: Option<string>, check: (string, string) -> bool,
    now: int, generated: string, generated': string)
    requires UsersValid(users) && TokensValid(tokens, users)
    requires LoginOutcome(users, roles, tokens, login, password, check, now, generated).0.Ok?
    ensures var (first, tokens') := LoginOutcome(users, roles, tokens, login, password, check, now, generated);
      LoginOutcome(users, roles, tokens', login, password, check, now, generated') ==
        (Ok(first.value.(message := Reused)), tokens')
  {
    var (first, tokens') := LoginOutcome(users, roles, tokens, login, password, check, now, generated);
    var u := first.value.userId;
    var found := UserByLogin(users, login.value);
    assert found == Some(u);
    var existing := ActiveToken(tokens', u, now);
    assert existing.Some? && tokens'.rows[existing.value].token == first.value.token;
  }

  /** The token a successful login returns authenticates its user at that time, unless PHP reads it as false. */
  lemma LoginThenAuthenticate(
    users: Table<User>, roles: map<Id, string>, tokens: Table<ApiToken>,
    login: Option<string>, password: Option<string>, check: (string, string) -> bool,
    now: int, generated: string)
    requires UsersValid(users) && TokensValid(tokens, users)
    requires LoginOutcome(users, roles, tokens, login, password, check, now, generated).0.Ok?
    requires !Empty(Some(LoginOutcome(users, roles, tokens, login, password, check, now, generated).0.value.token))
    ensures var (reply, tokens') := LoginOutcome(users, roles, tokens, login, password, check, now, generated);
      var a := Authenticate(tokens', Some(reply.value.token), now);
      a.Ok? && tokens'.rows[a.value].userId == reply.value.userId
  {
    var (reply, tokens') := LoginOutcome(users, roles, tokens, login, password, check, now, generated);
    var id := ActiveToken(tokens', reply.value.userId, now).value;
    AuthenticatesAs(tokens', users, id, now);
  }

  /**
   * `logout`: without an attached token record a 400 "No active token" and
   * nothing changes; otherwise exactly that api_tokens row is deleted.
   */
  method Logout(db: Database, ctx: RequestContext) returns (r: Result<string>)
    requires db.Valid()
    modifies db`tokens
    ensures db.Valid()
    ensures ctx.tokenRecord.None? ==> r == Err(BadRequest("No active token")) && db.tokens == old(db.tokens)
    ensures ctx.tokenRecord.Some? ==>
      r == Ok("Token revoked") && db.tokens == old(db.tokens).(rows := old(db.tokens.rows) - {ctx.tokenRecord.value})
  {
    if ctx.tokenRecord.None? {
      return Err(BadRequest("No active token"));
    }
    var tokens := Revoke(db.tokens, db.users, ctx.tokenRecord.value);
    db.SetTokens(tokens);
    r := Ok("Token revoked");
  }

  /** Deleting a token keeps the token constraints. */
  function Revoke(tokens: Table<ApiToken>, users: Table<User>, id: Id): (t: Table<ApiToken>)
    requires TokensValid(tokens, users)
    ensures TokensValid(t, users)
    ensures t == tokens.(rows := tokens.rows - {id})
  {
    tokens.(rows := tokens.rows - {id})
  }

  /** After `logout`, the revoked value no longer authenticates: no other row holds it. */
  lemma RevokedFails(tokens: Table<ApiToken>, users: Table<User>, id: Id, now: int)
    requires TokensValid(tokens, users) && id in tokens.rows
    ensures Authenticate(Revoke(tokens, users, id), Some(tokens.rows[id].token), now).Err?
  {
  }
}
