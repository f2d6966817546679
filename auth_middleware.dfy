/**
 * pkg/middleware/auth.go: the bearer-token gates and the typed context getters.
 *
 * A gate either rejects, writing an error response without calling the next
 * handler, or calls the next handler exactly once with a request context.
 * Token validation is the abstract ValidateJWT of the token codec; the user
 * store is not an input of any gate.
 */
module AuthMiddleware {
  import opened Common
  import opened Jwt
  import opened Response

  /** The dynamically typed values a context can hold under a key. */
  datatype CtxValue = UintValue(n: nat) | StringValue(s: string) | BoolValue(b: bool) | OtherValue

  /** A request context, from key to value. */
  type Context = map<string, CtxValue>

  const UserIDKey: string := "user_id"
  const UserEmailKey: string := "user_email"
  const IsAdminKey: string := "is_admin"

  const BearerPrefix: string := "Bearer "

  datatype Gate = Reject(response: HttpResponse<()>) | Next(ctx: Context)

  /** strings.HasPrefix: case-sensitive, character for character. */
  predicate HasPrefix(s: string, prefix: string) {
    |prefix| <= |s| && s[..|prefix|] == prefix
  }

  /** strings.TrimPrefix: remove one leading copy of `prefix`, if there is one. */
  function TrimPrefix(s: string, prefix: string): (r: string)
    ensures HasPrefix(s, prefix) ==> prefix + r == s
    ensures !HasPrefix(s, prefix) ==> r == s
  {
    if HasPrefix(s, prefix) then s[|prefix|..] else s
  }

  /** The three context.WithValue calls that attach a token's identity. */
  function WithIdentity(ctx: Context, c: Claims): Context {
    ctx[UserIDKey := UintValue(c.userId)][UserEmailKey := StringValue(c.email)][IsAdminKey := BoolValue(c.isAdmin)]
  }

  function Unauthorized(message: string): HttpResponse<()> {
    WriteErrorResponse(401, message, None)
  }

  /** JWTAuth: four reasons to answer 401, in this order; otherwise forward the token's identity. */
  function JWTAuth(validate: (string, string) -> Result<Claims>, secret: string,
                   authHeader: string, ctx: Context): (g: Gate)
    ensures g.Reject? ==> g.response.status == 401 && !g.response.body.success
  {
    if authHeader == "" then Reject(Unauthorized("Authorization header required"))
    else if !HasPrefix(authHeader, BearerPrefix) then Reject(Unauthorized("Invalid authorization header format"))
    else
      var token := TrimPrefix(authHeader, BearerPrefix);
      if token == "" then Reject(Unauthorized("Token required"))
      else match validate(token, secret)
        case Err(_) => Reject(Unauthorized("Invalid token"))
        case Ok(claims) => Next(WithIdentity(ctx, claims))
  }

  /** OptionalAuth: the same steps, but every failure forwards the request untouched. */
  function OptionalAuth(validate: (string, string) -> Result<Claims>, secret: string,
                        authHeader: string, ctx: Context): Context
  {
    if authHeader == "" then ctx
    else if !HasPrefix(authHeader, BearerPrefix) then ctx
    else
      var token := TrimPrefix(authHeader, BearerPrefix);
      if token == "" then ctx
      else match validate(token, secret)
        case Err(_) => ctx
        case Ok(claims) => WithIdentity(ctx, claims)
  }

  /** RequireAdmin: 403 unless the context holds is_admin as a boolean true. */
  function RequireAdmin(ctx: Context): (g: Gate)
    ensures g.Next? ==> g.ctx == ctx
  {
    var (isAdmin, ok) := GetIsAdminFromContext(ctx);
    if !ok || !isAdmin then Reject(WriteErrorResponse(403, "Admin access required", None))
    else Next(ctx)
  }

  /** `ctx.Value(UserIDKey).(uint)`: the zero value and false when absent or not a uint. */
  function GetUserIDFromContext(ctx: Context): (nat, bool) {
    if UserIDKey in ctx && ctx[UserIDKey].UintValue? then (ctx[UserIDKey].n, true) else (0, false)
  }

  function GetUserEmailFromContext(ctx: Context): (string, bool) {
    if UserEmailKey in ctx && ctx[UserEmailKey].StringValue? then (ctx[UserEmailKey].s, true) else ("", false)
  }

  function GetIsAdminFromContext(ctx: Context): (bool, bool) {
    if IsAdminKey in ctx && ctx[IsAdminKey].BoolValue? then (ctx[IsAdminKey].b, true) else (false, false)
  }

  // ---------------------------------------------------------------------------
  // Properties
  // ---------------------------------------------------------------------------

  /** Each malformed header is refused with its own 401 message and the next handler is not called. */
  lemma JWTAuthRejections(validate: (string, string) -> Result<Claims>, secret: string,
                          authHeader: string, ctx: Context)
    ensures authHeader == "" ==>
      JWTAuth(validate, secret, authHeader, ctx) == Reject(Unauthorized("Authorization header required"))
    ensures authHeader != "" && !HasPrefix(authHeader, BearerPrefix) ==>
      JWTAuth(validate, secret, authHeader, ctx) == Reject(Unauthorized("Invalid authorization header format"))
    ensures authHeader == BearerPrefix ==>
      JWTAuth(validate, secret, authHeader, ctx) == Reject(Unauthorized("Token required"))
    ensures forall t :: t != "" && authHeader == BearerPrefix + t && validate(t, secret).Err? ==>
      JWTAuth(validate, secret, authHeader, ctx) == Reject(Unauthorized("Invalid token"))
  {
    forall t | t != "" && authHeader == BearerPrefix + t
      ensures HasPrefix(authHeader, BearerPrefix) && TrimPrefix(authHeader, BearerPrefix) == t
    {
      assert authHeader[..|BearerPrefix|] == BearerPrefix;
    }
  }

  /**
   * JWTAuth forwards iff the header is "Bearer " followed by a non-empty token
   * the validator accepts, and then the context getters return exactly that
   * token's claims; only the claims are consulted, never the user store.
   */
  lemma JWTAuthForwardsClaims(validate: (string, string) -> Result<Claims>, secret: string,
                              token: string, ctx: Context)
    ensures JWTAuth(validate, secret, BearerPrefix + token, ctx).Next? <==>
      token != "" && validate(token, secret).Ok?
    ensures token != "" && validate(token, secret).Ok? ==>
      var c := validate(token, secret).value;
      var out := JWTAuth(validate, secret, BearerPrefix + token, ctx).ctx;
      && GetUserIDFromContext(out) == (c.userId, true)
      && GetUserEmailFromContext(out) == (c.email, true)
      && GetIsAdminFromContext(out) == (c.isAdmin, true)
  {
    var h := BearerPrefix + token;
    assert h[..|BearerPrefix|] == BearerPrefix;
    assert TrimPrefix(h, BearerPrefix) == token;
  }

  /**
   * The scheme is matched case-sensitively with exactly one space: "bearer t" is
   * refused, and after "Bearer  t" the validator sees " t" (one prefix is stripped).
   */
  lemma BearerIsExact(validate: (string, string) -> Result<Claims>, secret: string, ctx: Context)
    ensures JWTAuth(validate, secret, "bearer t", ctx) == Reject(Unauthorized("Invalid authorization header format"))
    ensures JWTAuth(validate, secret, "Bearer  t", ctx) ==
      (match validate(" t", secret)
       case Err(_) => Reject(Unauthorized("Invalid token"))
       case Ok(c) => Next(WithIdentity(ctx, c)))
  {
    assert "bearer t"[..7] != BearerPrefix by { assert "bearer t"[0] == 'b'; }
    assert "Bearer  t"[..7] == BearerPrefix;
    assert TrimPrefix("Bearer  t", BearerPrefix) == " t";
  }

  /**
   * OptionalAuth never rejects: it forwards exactly the context JWTAuth would
   * forward, and the untouched context wherever JWTAuth would reject.
   */
  lemma OptionalAuthIsLenientJWTAuth(validate: (string, string) -> Result<Claims>, secret: string,
                                     authHeader: string, ctx: Context)
    ensures var g := JWTAuth(validate, secret, authHeader, ctx);
      OptionalAuth(validate, secret, authHeader, ctx) == if g.Next? then g.ctx else ctx
  {
  }

  /** After JWTAuth forwards, RequireAdmin lets the request through iff the token says admin. */
  lemma RequireAdminAfterJWTAuth(validate: (string, string) -> Result<Claims>, secret: string,
                                 authHeader: string, ctx: Context)
    requires JWTAuth(validate, secret, authHeader, ctx).Next?
    ensures var out := JWTAuth(validate, secret, authHeader, ctx).ctx;
      RequireAdmin(out).Next? <==> validate(TrimPrefix(authHeader, BearerPrefix), secret).value.isAdmin
  {
  }

  /** RequireAdmin refuses with 403 exactly when is_admin is missing, not a boolean, or false. */
  lemma RequireAdminRefusals(ctx: Context)
    ensures RequireAdmin(ctx).Reject? <==> !(IsAdminKey in ctx && ctx[IsAdminKey] == BoolValue(true))
    ensures RequireAdmin(ctx).Reject? ==>
      RequireAdmin(ctx).response == WriteErrorResponse(403, "Admin access required", None)
  {
  }

  /** The getters report absence, and a value of the wrong type, as not found. */
  lemma GettersRejectAbsentAndMistyped(ctx: Context, v: CtxValue)
    ensures UserIDKey !in ctx ==> GetUserIDFromContext(ctx) == (0, false)
    ensures !v.UintValue? ==> GetUserIDFromContext(ctx[UserIDKey := v]) == (0, false)
    ensures IsAdminKey !in ctx ==> GetIsAdminFromContext(ctx) == (false, false)
    ensures !v.BoolValue? ==> GetIsAdminFromContext(ctx[IsAdminKey := v]) == (false, false)
    ensures GetUserIDFromContext(ctx[UserIDKey := UintValue(7)]) == (7, true)
  {
  }
}
