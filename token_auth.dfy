/**
 * The TokenAuth middleware: a bearer token authenticates a request when an
 * api_tokens row holds exactly that value and has not expired (a null
 * `expires_at` never expires); the owner is logged in and the matched row is
 * attached to the request as `auth_token_record`. The token table is only read.
 */
module TokenAuth {
  import opened Support
  import opened Schema

  const MissingToken: string := "Unauthorized: missing token"
  const InvalidToken: string := "Unauthorized: invalid or expired token"

  /** `whereNull('expires_at')->orWhere('expires_at', '>', now())`. */
  predicate Unexpired(t: ApiToken, now: int) {
    t.expiresAt.None? || t.expiresAt.value > now
  }

  /**
   * `ApiToken::where('token', $value)->where(<unexpired>)->first()`: an
   * unexpired row holding the value, or none when every row holding it has
   * expired.
   */
  function Lookup(tokens: Table<ApiToken>, value: string, now: int): (r: Option<Id>)
    requires tokens.Valid()
    ensures r.Some? ==> r.value in tokens.rows && tokens.rows[r.value].token == value && Unexpired(tokens.rows[r.value], now)
    ensures r.None? ==> forall t :: t in tokens.rows && tokens.rows[t].token == value ==> !Unexpired(tokens.rows[t], now)
  {
    FirstId(tokens.rows, (t: ApiToken) => t.token == value && Unexpired(t, now), 0, tokens.next)
  }

  /**
   * The decision of `handle`: a missing bearer token (absent, or a value PHP
   * reads as false: "" and "0") is a 401 "missing token"; a value with no
   * unexpired row is a 401 "invalid or expired token"; otherwise the
   * matching row.
   */
  function Authenticate(tokens: Table<ApiToken>, bearer: Option<string>, now: int): (r: Result<Id>)
    requires tokens.Valid()
    ensures Empty(bearer) ==> r == Err(Unauthorized(MissingToken))
    ensures !Empty(bearer) && r.Err? ==>
      && r.error == Unauthorized(InvalidToken)
      && forall t :: t in tokens.rows && tokens.rows[t].token == bearer.value ==> !Unexpired(tokens.rows[t], now)
    ensures r.Ok? ==>
      && !Empty(bearer)
      && r.value in tokens.rows
      && tokens.rows[r.value].token == bearer.value
      && Unexpired(tokens.rows[r.value], now)
  {
    if Empty(bearer) then Err(Unauthorized(MissingToken))
    else
      var found := Lookup(tokens, bearer.value, now);
      if found.None? then Err(Unauthorized(InvalidToken)) else Ok(found.value)
  }

  /** Token values are unique, so a value authenticates as the one row holding it whenever that row is unexpired. */
  lemma AuthenticatesAs(tokens: Table<ApiToken>, users: Table<User>, id: Id, now: int)
    requires TokensValid(tokens, users) && id in tokens.rows
    requires Unexpired(tokens.rows[id], now) && !Empty(Some(tokens.rows[id].token))
    ensures Authenticate(tokens, Some(tokens.rows[id].token), now) == Ok(id)
  {
    var r := Authenticate(tokens, Some(tokens.rows[id].token), now);
    assert r.Ok?;
    assert tokens.rows[r.value].token == tokens.rows[id].token;
  }

  /** The request attributes the middleware sets. */
  class RequestContext {
    /** The user `Auth::login` logged in. */
    var user: Option<Id>
    /** `auth_token_record`: the id of the matched api_tokens row. */
    var tokenRecord: Option<Id>

    constructor ()
      ensures user == None && tokenRecord == None
    {
      user, tokenRecord := None, None;
    }
  }

  /**
   * `handle`: decides by `Authenticate`; on success logs in the token's
   * owner, who exists because tokens cascade with their user, and attaches
   * the row. The database is not modified.
   */
  method Handle(db: Database, ctx: RequestContext, bearer: Option<string>, now: int) returns (r: Result<Id>)
    requires db.Valid()
    modifies ctx
    ensures r == Authenticate(db.tokens, bearer, now)
    ensures r.Err? ==> ctx.user == old(ctx.user) && ctx.tokenRecord == old(ctx.tokenRecord)
    ensures r.Ok? ==>
      && ctx.tokenRecord == Some(r.value)
      && ctx.user == Some(db.tokens.rows[r.value].userId)
      && db.tokens.rows[r.value].userId in db.users.rows
  {
    r := Authenticate(db.tokens, bearer, now);
    if r.Ok? {
      ctx.user := Some(db.tokens.rows[r.value].userId);
      ctx.tokenRecord := Some(r.value);
    }
  }
}
