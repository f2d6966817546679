/**
 * internal/services/auth_service.go: the token service. Token generation and
 * refresh wrap the codec with the configured secret and lifetime; validation
 * parses the token, then reads the user it names from a snapshot of the user
 * table, refusing a missing or deactivated account.
 */
module AuthService {
  import opened Common
  import opened Jwt
  import opened UserModel
  import opened UserRepository
  import AuthMiddleware

  /** authService: the JWT configuration and the codec it calls. */
  datatype Authenticator = Authenticator(cfg: JwtConfig, codec: Codec)

  function GenerateToken(a: Authenticator, userId: nat, email: string, isAdmin: bool): Result<string> {
    match a.codec.generate(userId, email, isAdmin, a.cfg.secret, a.cfg.expiry)
    case Err(e) => Err("failed to generate token: " + e)
    case Ok(token) => Ok(token)
  }

  function RefreshToken(a: Authenticator, token: string): Result<string> {
    match a.codec.refresh(token, a.cfg.secret, a.cfg.expiry)
    case Err(e) => Err("failed to refresh token: " + e)
    case Ok(renewed) => Ok(renewed)
  }

  /**
   * ValidateToken: a token the codec refuses, a failed lookup, a missing user
   * and a deactivated user are four distinct failures; otherwise the stored
   * record that the token names.
   */
  function ValidateToken(a: Authenticator, s: Store, token: string): (r: Result<User>)
    ensures r.Ok? ==> a.codec.validate(token, a.cfg.secret).Ok? &&
                      r.value.id == a.codec.validate(token, a.cfg.secret).value.userId &&
                      r.value in s.rows && Live(r.value) && r.value.isActive
  {
    match a.codec.validate(token, a.cfg.secret)
    case Err(e) => Err("invalid token: " + e)
    case Ok(claims) =>
      match GetResult(s, OpGetByID, ById(claims.userId))
      case Err(e) => Err("failed to validate user: " + e)
      case Ok(found) =>
        if found.None? then Err("user not found")
        else if !found.value.isActive then Err("user account is deactivated")
        else Ok(found.value)
  }

  // ---------------------------------------------------------------------------
  // Properties
  // ---------------------------------------------------------------------------

  /** Both wrappers hand the configured secret and lifetime to the codec and fail exactly when it does. */
  lemma WrappersUseConfig(a: Authenticator, userId: nat, email: string, isAdmin: bool, token: string)
    ensures var inner := a.codec.generate(userId, email, isAdmin, a.cfg.secret, a.cfg.expiry);
      GenerateToken(a, userId, email, isAdmin) ==
        if inner.Ok? then inner else Err("failed to generate token: " + inner.msg)
    ensures var inner := a.codec.refresh(token, a.cfg.secret, a.cfg.expiry);
      RefreshToken(a, token) == if inner.Ok? then inner else Err("failed to refresh token: " + inner.msg)
  {
  }

  /** A token the codec refuses is reported as invalid and the store is never read. */
  lemma BadTokenNeverReadsStore(a: Authenticator, s1: Store, s2: Store, token: string)
    requires a.codec.validate(token, a.cfg.secret).Err?
    ensures ValidateToken(a, s1, token) == ValidateToken(a, s2, token)
    ensures ValidateToken(a, s1, token) == Err("invalid token: " + a.codec.validate(token, a.cfg.secret).msg)
  {
  }

  /**
   * For a good token, the outcome by the state of the store: a failing read is a
   * failure rather than a user; no live row is "user not found"; an inactive
   * row is "user account is deactivated"; an active one is returned.
   */
  lemma ValidateTokenOutcomes(a: Authenticator, s: Store, token: string)
    requires a.codec.validate(token, a.cfg.secret).Ok?
    ensures var id := a.codec.validate(token, a.cfg.secret).value.userId;
      var r := ValidateToken(a, s, token);
      && (OpGetByID in s.faults ==> r == Err("failed to validate user: " + s.faults[OpGetByID]))
      && (OpGetByID !in s.faults && !AnyLive(s.rows, ById(id)) ==> r == Err("user not found"))
      && (var found := FirstLive(s.rows, ById(id));
          OpGetByID !in s.faults && found.Some? && !found.value.isActive ==> r == Err("user account is deactivated"))
  {
  }

  /**
   * On a well-formed table, ValidateToken accepts exactly the live, active row
   * whose id the token carries.
   */
  lemma ValidateTokenAcceptsExactly(a: Authenticator, s: Store, token: string, u: User)
    requires WellFormed(s) && OpGetByID !in s.faults
    ensures ValidateToken(a, s, token) == Ok(u) <==>
      && a.codec.validate(token, a.cfg.secret).Ok?
      && u.id == a.codec.validate(token, a.cfg.secret).value.userId
      && u in s.rows && Live(u) && u.isActive
  {
    if a.codec.validate(token, a.cfg.secret).Ok? {
      var id := a.codec.validate(token, a.cfg.secret).value.userId;
      LookupIsUnique(s, ById(id), u);
    }
  }

  /**
   * The request gate trusts the token alone: for a token naming a deactivated
   * account, JWTAuth forwards the token's identity while ValidateToken refuses.
   */
  lemma GateAdmitsDeactivatedAccount(a: Authenticator, s: Store, token: string, ctx: AuthMiddleware.Context, u: User)
    requires WellFormed(s) && OpGetByID !in s.faults && token != ""
    requires a.codec.validate(token, a.cfg.secret).Ok?
    requires u in s.rows && Live(u) && !u.isActive && u.id == a.codec.validate(token, a.cfg.secret).value.userId
    ensures AuthMiddleware.JWTAuth(a.codec.validate, a.cfg.secret, AuthMiddleware.BearerPrefix + token, ctx).Next?
    ensures ValidateToken(a, s, token) == Err("user account is deactivated")
  {
    AuthMiddleware.JWTAuthForwardsClaims(a.codec.validate, a.cfg.secret, token, ctx);
    LookupIsUnique(s, ById(u.id), u);
  }
}
