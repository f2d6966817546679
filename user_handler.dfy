/**
 * internal/handlers/user_handler.go: the HTTP handlers for users and sessions.
 *
 * A handler is a guard chain from the request to one response. The request is
 * given as the path and query strings, the request context, and the outcome of
 * decoding the JSON body; the validator is a function from a decoded request to
 * its error text, if any; the service calls are functions from their arguments
 * to their results.
 */
module UserHandlers {
  import opened Common
  import opened UserModel
  import opened Response
  import opened AuthMiddleware
  import opened UserService
  import opened UserRepository

  /** What json.Decoder.Decode produced from the body. */
  datatype Decoded<T> = InvalidJson | Json(value: T)

  /** The data of a successful login: `{"access_token": …, "user": …}`. */
  datatype LoginData = LoginData(accessToken: string, user: UserResponse)

  // ---------------------------------------------------------------------------
  // strconv
  // ---------------------------------------------------------------------------

  predicate IsDigit(c: char) {
    '0' <= c <= '9'
  }

  predicate AllDigits(s: string) {
    forall i :: 0 <= i < |s| ==> IsDigit(s[i])
  }

  /** The value of a string of decimal digits, most significant first. */
  function DecimalValue(s: string): nat
    requires AllDigits(s)
  {
    if s == [] then 0
    else DecimalValue(s[..|s| - 1]) * 10 + (s[|s| - 1] as int - '0' as int)
  }

  const MaxUint32: nat := 0xFFFF_FFFF

  /** strconv.ParseUint(s, 10, 32): one or more decimal digits, no sign, at most 2^32 - 1. */
  function ParseUint32(s: string): (r: Option<nat>)
    ensures r.Some? <==> s != "" && AllDigits(s) && DecimalValue(s) <= MaxUint32
    ensures r.Some? ==> r.value == DecimalValue(s)
  {
    if s == "" || !AllDigits(s) then None
    else if DecimalValue(s) > MaxUint32 then None
    else Some(DecimalValue(s))
  }

  /** strconv.FormatUint(n, 10): the shortest decimal representation. */
  function FormatUint(n: nat): (s: string)
    ensures s != "" && AllDigits(s)
  {
    var d := ['0' + (n % 10) as char];
    if n < 10 then d else FormatUint(n / 10) + d
  }

  lemma {:induction false} DecimalOfFormat(n: nat)
    ensures DecimalValue(FormatUint(n)) == n
  {
    var s := FormatUint(n);
    if n >= 10 {
      DecimalOfFormat(n / 10);
      assert s[..|s| - 1] == FormatUint(n / 10);
    }
  }

  /** Every id a client can be given parses back to itself. */
  lemma ParseFormatRoundTrip(n: nat)
    requires n <= MaxUint32
    ensures ParseUint32(FormatUint(n)) == Some(n)
  {
    DecimalOfFormat(n);
  }

  /** Appending a digit multiplies the value by ten and adds the digit. */
  lemma DecimalSnoc(s: string, c: char)
    requires AllDigits(s) && IsDigit(c)
    ensures AllDigits(s + [c])
    ensures DecimalValue(s + [c]) == DecimalValue(s) * 10 + (c as int - '0' as int)
  {
    assert (s + [c])[..|s|] == s;
  }

  /** Malformed ids are refused and a small one is read. */
  lemma ParseUint32Examples()
    ensures ParseUint32("") == None
    ensures ParseUint32("-1") == None
    ensures ParseUint32("abc") == None
    ensures ParseUint32("42") == Some(42)
  {
    assert !IsDigit("-1"[0]);
    assert !IsDigit("abc"[0]);
    DecimalSnoc("", '4');
    assert "" + ['4'] == "4";
    DecimalSnoc("4", '2');
    assert "4" + ['2'] == "42";
  }

  /** 2^32 does not fit in 32 bits. */
  lemma ParseUint32RejectsTwoToThe32()
    ensures ParseUint32("4294967296") == None
  {
    assert FormatUint(4) == "4";
    assert FormatUint(42) == "42";
    assert FormatUint(429) == "429";
    assert FormatUint(4294) == "4294";
    assert FormatUint(42949) == "42949";
    assert FormatUint(429496) == "429496";
    assert FormatUint(4294967) == "4294967";
    assert FormatUint(42949672) == "42949672";
    assert FormatUint(429496729) == "429496729";
    assert FormatUint(4294967296) == "4294967296";
    DecimalOfFormat(0x1_0000_0000);
  }

  /** strconv.Atoi on a 64-bit platform: an optional sign, one or more digits, within int64. */
  function Atoi(s: string): (r: Option<int>)
    ensures s != "" && IsDigit(s[0]) ==>
      (r.Some? <==> AllDigits(s) && InInt64(DecimalValue(s))) && (r.Some? ==> r.value == DecimalValue(s))
    ensures s != "" && s[0] == '+' ==>
      (r.Some? <==> |s| > 1 && AllDigits(s[1..]) && InInt64(DecimalValue(s[1..]))) &&
      (r.Some? ==> r.value == DecimalValue(s[1..]))
    ensures s != "" && s[0] == '-' ==>
      (r.Some? <==> |s| > 1 && AllDigits(s[1..]) && InInt64(0 - DecimalValue(s[1..]))) &&
      (r.Some? ==> r.value == 0 - DecimalValue(s[1..]))
    ensures (s == "" || !(IsDigit(s[0]) || s[0] == '+' || s[0] == '-')) ==> r.None?
  {
    var neg := s != "" && s[0] == '-';
    var digits := if s != "" && (s[0] == '-' || s[0] == '+') then s[1..] else s;
    if digits == "" || !AllDigits(digits) then None
    else
      var magnitude: int := DecimalValue(digits);
      var v := if neg then -magnitude else magnitude;
      if InInt64(v) then Some(v) else None
  }

  /** The decimal form of n, bare or signed, is read back as n exactly when the signed value fits int64. */
  lemma AtoiOfFormat(n: nat)
    ensures Atoi(FormatUint(n)) == if n < 0x8000_0000_0000_0000 then Some(n) else None
    ensures Atoi("+" + FormatUint(n)) == if n < 0x8000_0000_0000_0000 then Some(n) else None
    ensures Atoi("-" + FormatUint(n)) == if n <= 0x8000_0000_0000_0000 then Some(-(n as int)) else None
  {
    var d := FormatUint(n);
    DecimalOfFormat(n);
    assert ("+" + d)[1..] == d;
    assert ("-" + d)[1..] == d;
  }

  /** A sign, a bare sign, the empty string, and the edges of int64. */
  lemma AtoiExamples()
    ensures Atoi("-5") == Some(-5)
    ensures Atoi("+7") == Some(7)
    ensures Atoi("") == None
    ensures Atoi("-") == None
    ensures Atoi("x1") == None
  {
    assert "-5"[1..] == "5";
    DecimalSnoc("", '5');
    assert "" + ['5'] == "5";
    assert "+7"[1..] == "7";
    DecimalSnoc("", '7');
    assert "" + ['7'] == "7";
  }

  /** The decimal forms of the leading digits of 2^63, in three stretches. */
  lemma FormatLeading7()
    ensures FormatUint(9223372) == "9223372"
  {
    assert FormatUint(9) == "9";
    assert FormatUint(92) == "92";
    assert FormatUint(922) == "922";
    assert FormatUint(9223) == "9223";
    assert FormatUint(92233) == "92233";
    assert FormatUint(922337) == "922337";
    assert FormatUint(9223372) == "9223372";
  }

  lemma FormatLeading13()
    ensures FormatUint(9223372036854) == "9223372036854"
  {
    FormatLeading7();
    assert FormatUint(92233720) == "92233720";
    assert FormatUint(922337203) == "922337203";
    assert FormatUint(9223372036) == "9223372036";
    assert FormatUint(92233720368) == "92233720368";
    assert FormatUint(922337203685) == "922337203685";
    assert FormatUint(9223372036854) == "9223372036854";
  }

  /** The decimal form of 2^63. */
  lemma FormatTwoToThe63()
    ensures FormatUint(0x8000_0000_0000_0000) == "9223372036854775808"
  {
    FormatLeading13();
    assert FormatUint(92233720368547) == "92233720368547";
    assert FormatUint(922337203685477) == "922337203685477";
    assert FormatUint(9223372036854775) == "9223372036854775";
    assert FormatUint(92233720368547758) == "92233720368547758";
    assert FormatUint(922337203685477580) == "922337203685477580";
    assert FormatUint(9223372036854775808) == "9223372036854775808";
  }

  /** 2^63 is one past the largest int64; with a minus sign it is the smallest. */
  lemma AtoiInt64Edges()
    ensures Atoi("9223372036854775808") == None
    ensures Atoi("-" + "9223372036854775808") == Some(-0x8000_0000_0000_0000)
  {
    FormatTwoToThe63();
    AtoiOfFormat(0x8000_0000_0000_0000);
  }

  // ---------------------------------------------------------------------------
  // Query parameters and the owner-or-admin rule
  // ---------------------------------------------------------------------------

  /** `page`: 1 unless the parameter is an integer above 0. */
  function PageParam(pageStr: string): (page: int)
    ensures 1 <= page && InInt64(page)
    ensures pageStr != "" && Atoi(pageStr).Some? && Atoi(pageStr).value > 0 ==> page == Atoi(pageStr).value
    ensures !(pageStr != "" && Atoi(pageStr).Some? && Atoi(pageStr).value > 0) ==> page == 1
  {
    if pageStr != "" && Atoi(pageStr).Some? && Atoi(pageStr).value > 0 then Atoi(pageStr).value else 1
  }

  /** `limit`: 10 unless the parameter is an integer from 1 to 100. */
  function LimitParam(limitStr: string): (limit: int)
    ensures 1 <= limit <= 100
    ensures limitStr != "" && Atoi(limitStr).Some? && 0 < Atoi(limitStr).value <= 100 ==> limit == Atoi(limitStr).value
    ensures !(limitStr != "" && Atoi(limitStr).Some? && 0 < Atoi(limitStr).value <= 100) ==> limit == 10
  {
    if limitStr != "" && Atoi(limitStr).Some? && 0 < Atoi(limitStr).value <= 100 then Atoi(limitStr).value else 10
  }

  /** The caller may act on `id` if it is the caller's own id or the caller is an administrator. */
  predicate MayActOn(ctx: Context, id: nat) {
    GetUserIDFromContext(ctx).0 == id || GetIsAdminFromContext(ctx).0
  }

  // ---------------------------------------------------------------------------
  // Handlers
  // ---------------------------------------------------------------------------

  function CreateHandler(body: Decoded<CreateRequest>, invalid: CreateRequest -> Option<string>,
                         create: CreateRequest -> Result<UserResponse>): HttpResponse<UserResponse>
  {
    if body.InvalidJson? then WriteErrorResponse(400, "Invalid JSON", None)
    else if invalid(body.value).Some? then WriteErrorResponse(400, "Validation failed", invalid(body.value))
    else match create(body.value)
      case Err(e) => WriteErrorResponse(400, e, None)
      case Ok(user) => WriteSuccessResponse(201, "User created successfully", Some(user))
  }

  function GetByIDHandler(idStr: string, get: nat -> Result<UserResponse>): HttpResponse<UserResponse> {
    match ParseUint32(idStr)
    case None => WriteErrorResponse(400, "Invalid user ID", None)
    case Some(id) =>
      match get(id)
      case Err(e) => WriteErrorResponse(404, e, None)
      case Ok(user) => WriteSuccessResponse(200, "User retrieved successfully", Some(user))
  }

  function UpdateHandler(idStr: string, ctx: Context, body: Decoded<UpdateRequest>,
                         invalid: UpdateRequest -> Option<string>,
                         update: (nat, UpdateRequest) -> Result<UserResponse>): HttpResponse<UserResponse>
  {
    match ParseUint32(idStr)
    case None => WriteErrorResponse(400, "Invalid user ID", None)
    case Some(id) =>
      if !MayActOn(ctx, id) then WriteErrorResponse(403, "You can only update your own profile", None)
      else if body.InvalidJson? then WriteErrorResponse(400, "Invalid JSON", None)
      else if invalid(body.value).Some? then WriteErrorResponse(400, "Validation failed", invalid(body.value))
      else match update(id, body.value)
        case Err(e) => WriteErrorResponse(400, e, None)
        case Ok(user) => WriteSuccessResponse(200, "User updated successfully", Some(user))
  }

  function DeleteHandler(idStr: string, ctx: Context, delete: nat -> Option<string>): HttpResponse<()> {
    match ParseUint32(idStr)
    case None => WriteErrorResponse(400, "Invalid user ID", None)
    case Some(id) =>
      if !MayActOn(ctx, id) then WriteErrorResponse(403, "You can only delete your own profile", None)
      else match delete(id)
        case Some(e) => WriteErrorResponse(400, e, None)
        case None => WriteSuccessResponse(200, "User deleted successfully", None)
  }

  function ListHandler(pageStr: string, limitStr: string, list: (int, int) -> Result<UserPage>)
    : HttpResponse<Pagination<seq<UserResponse>>>
  {
    var page := PageParam(pageStr);
    var limit := LimitParam(limitStr);
    match list(page, limit)
    case Err(_) => WriteErrorResponse(500, "Failed to retrieve users", None)
    case Ok(p) => WritePaginatedResponse(200, "Users retrieved successfully", p.users, p.total, page, limit)
  }

  function LoginHandler(body: Decoded<LoginRequest>, invalid: LoginRequest -> Option<string>,
                        login: LoginRequest -> Result<Session>): HttpResponse<LoginData>
  {
    if body.InvalidJson? then WriteErrorResponse(400, "Invalid JSON", None)
    else if invalid(body.value).Some? then WriteErrorResponse(400, "Validation failed", invalid(body.value))
    else match login(body.value)
      case Err(e) => WriteErrorResponse(401, e, None)
      case Ok(session) => WriteSuccessResponse(200, "Login successful", Some(LoginData(session.token, session.user)))
  }

  function LogoutHandler(ctx: Context, logout: nat -> Option<string>): HttpResponse<()> {
    var (userId, ok) := GetUserIDFromContext(ctx);
    if !ok then WriteErrorResponse(401, "User not authenticated", None)
    else match logout(userId)
      case Some(_) => WriteErrorResponse(500, "Logout failed", None)
      case None => WriteSuccessResponse(200, "Logout successful", None)
  }

  function ProfileHandler(ctx: Context, get: nat -> Result<UserResponse>): HttpResponse<UserResponse> {
    var (userId, ok) := GetUserIDFromContext(ctx);
    if !ok then WriteErrorResponse(401, "User not authenticated", None)
    else match get(userId)
      case Err(e) => WriteErrorResponse(404, e, None)
      case Ok(user) => WriteSuccessResponse(200, "Profile retrieved successfully", Some(user))
  }

  // ---------------------------------------------------------------------------
  // Properties
  // ---------------------------------------------------------------------------

  /** A path id that is not a 32-bit unsigned decimal is refused with 400 before any service call. */
  lemma BadIdRejectedBeforeService(idStr: string, ctx: Context, body: Decoded<UpdateRequest>,
                                   invalid: UpdateRequest -> Option<string>,
                                   get: nat -> Result<UserResponse>, update: (nat, UpdateRequest) -> Result<UserResponse>,
                                   delete: nat -> Option<string>)
    requires ParseUint32(idStr).None?
    ensures GetByIDHandler(idStr, get) == WriteErrorResponse(400, "Invalid user ID", None)
    ensures UpdateHandler(idStr, ctx, body, invalid, update) == WriteErrorResponse(400, "Invalid user ID", None)
    ensures DeleteHandler(idStr, ctx, delete) == WriteErrorResponse(400, "Invalid user ID", None)
  {
  }

  /**
   * Update and Delete go on only for the target user or an administrator: any
   * other caller gets 403 whatever the body holds, before it is decoded, and
   * the service is not called.
   */
  lemma OwnerOrAdminOnly(idStr: string, ctx: Context, body: Decoded<UpdateRequest>,
                         invalid: UpdateRequest -> Option<string>,
                         update: (nat, UpdateRequest) -> Result<UserResponse>, delete: nat -> Option<string>)
    requires ParseUint32(idStr).Some?
    ensures var id := ParseUint32(idStr).value;
      !MayActOn(ctx, id) ==>
        && UpdateHandler(idStr, ctx, body, invalid, update) == WriteErrorResponse(403, "You can only update your own profile", None)
        && DeleteHandler(idStr, ctx, delete) == WriteErrorResponse(403, "You can only delete your own profile", None)
    ensures var id := ParseUint32(idStr).value;
      MayActOn(ctx, id) <==> (UserIDKey in ctx && ctx[UserIDKey] == UintValue(id)) ||
                             (IsAdminKey in ctx && ctx[IsAdminKey] == BoolValue(true)) ||
                             (id == 0 && !(UserIDKey in ctx && ctx[UserIDKey].UintValue?))
  {
  }

  /**
   * A request with no identity reads as user 0 and no administrator, so it is
   * refused for every real id, yet it passes the owner rule for path id 0.
   */
  lemma AnonymousCallerReadsAsUserZero(id: nat)
    ensures MayActOn(map[], id) <==> id == 0
  {
  }

  /** Update and Delete answer 400 with the service's error text, and 200 on success. */
  lemma MutationStatusMapping(idStr: string, ctx: Context, req: UpdateRequest,
                              invalid: UpdateRequest -> Option<string>,
                              update: (nat, UpdateRequest) -> Result<UserResponse>, delete: nat -> Option<string>)
    requires ParseUint32(idStr).Some? && MayActOn(ctx, ParseUint32(idStr).value)
    ensures var id := ParseUint32(idStr).value;
      var r := UpdateHandler(idStr, ctx, Json(req), invalid, update);
      && (invalid(req).Some? ==> r == WriteErrorResponse(400, "Validation failed", invalid(req)))
      && (invalid(req).None? && update(id, req).Err? ==> r == WriteErrorResponse(400, update(id, req).msg, None))
      && (invalid(req).None? && update(id, req).Ok? ==> r.status == 200 && r.body.data == Some(update(id, req).value))
    ensures var id := ParseUint32(idStr).value;
      var r := DeleteHandler(idStr, ctx, delete);
      && (delete(id).Some? ==> r == WriteErrorResponse(400, delete(id).value, None))
      && (delete(id).None? ==> r.status == 200 && r.body.success)
  {
  }

  /** Create answers 201 only for a decoded, valid request the service accepted, otherwise 400. */
  lemma CreateStatusMapping(body: Decoded<CreateRequest>, invalid: CreateRequest -> Option<string>,
                            create: CreateRequest -> Result<UserResponse>)
    ensures var r := CreateHandler(body, invalid, create);
      && (r.status == 201 <==> body.Json? && invalid(body.value).None? && create(body.value).Ok?)
      && (r.status != 201 ==> r.status == 400 && !r.body.success)
      && (r.status == 201 ==> r.body.data == Some(create(body.value).value))
  {
  }

  /**
   * With a validator that accepts exactly the requests meeting the payload's
   * tags, the service is only handed requests within the column bounds.
   */
  lemma CreatedRequestsMeetTags(body: Decoded<CreateRequest>, invalid: CreateRequest -> Option<string>,
                                create: CreateRequest -> Result<UserResponse>, isEmail: string -> bool)
    requires forall req :: invalid(req).None? <==> CreateRequestValid(req, isEmail)
    ensures CreateHandler(body, invalid, create).status == 201 ==> CreateRequestValid(body.value, isEmail)
  {
  }

  /** GetByID answers 404 with the service's error text, and 200 with the user on success. */
  lemma GetByIDStatusMapping(idStr: string, get: nat -> Result<UserResponse>)
    requires ParseUint32(idStr).Some?
    ensures var id := ParseUint32(idStr).value;
      && (get(id).Err? ==> GetByIDHandler(idStr, get) == WriteErrorResponse(404, get(id).msg, None))
      && (get(id).Ok? ==>
            GetByIDHandler(idStr, get) == WriteSuccessResponse(200, "User retrieved successfully", Some(get(id).value)))
  {
  }

  /** Profile reads the caller's own record: 404 with the service's error text, or 200 with the user. */
  lemma ProfileStatusMapping(ctx: Context, get: nat -> Result<UserResponse>)
    requires UserIDKey in ctx && ctx[UserIDKey].UintValue?
    ensures var id := ctx[UserIDKey].n;
      && (get(id).Err? ==> ProfileHandler(ctx, get) == WriteErrorResponse(404, get(id).msg, None))
      && (get(id).Ok? ==>
            ProfileHandler(ctx, get) == WriteSuccessResponse(200, "Profile retrieved successfully", Some(get(id).value)))
  {
  }

  /**
   * Login answers 400 for a body that does not decode or validate, 401 with the
   * service's error text, and 200 with the token and the user on success.
   */
  lemma LoginStatusMapping(body: Decoded<LoginRequest>, invalid: LoginRequest -> Option<string>,
                           login: LoginRequest -> Result<Session>)
    ensures var r := LoginHandler(body, invalid, login);
      && (body.InvalidJson? ==> r == WriteErrorResponse(400, "Invalid JSON", None))
      && (body.Json? && invalid(body.value).Some? ==> r == WriteErrorResponse(400, "Validation failed", invalid(body.value)))
      && (body.Json? && invalid(body.value).None? && login(body.value).Err? ==>
            r == WriteErrorResponse(401, login(body.value).msg, None))
      && (body.Json? && invalid(body.value).None? && login(body.value).Ok? ==>
            r == WriteSuccessResponse(200, "Login successful",
                                      Some(LoginData(login(body.value).value.token, login(body.value).value.user))))
  {
  }

  /** Without a user id in the context, Logout and Profile answer 401 and call no service. */
  lemma SessionRoutesNeedIdentity(ctx: Context, logout: nat -> Option<string>, get: nat -> Result<UserResponse>)
    requires !(UserIDKey in ctx && ctx[UserIDKey].UintValue?)
    ensures LogoutHandler(ctx, logout) == WriteErrorResponse(401, "User not authenticated", None)
    ensures ProfileHandler(ctx, get) == WriteErrorResponse(401, "User not authenticated", None)
  {
  }

  /** Logout over the service always succeeds once the caller is identified. */
  lemma LogoutOverService(ctx: Context)
    requires UserIDKey in ctx && ctx[UserIDKey].UintValue?
    ensures LogoutHandler(ctx, Logout) == WriteSuccessResponse(200, "Logout successful", None)
  {
  }

  /**
   * List over the service: a failing store read is a 500 without data; otherwise
   * 200 with at most `limit` users, 1 <= page, 1 <= limit <= 100, total the
   * number of live users and totalPages its ceiling over limit.
   */
  lemma ListOverService(s: Store, pageStr: string, limitStr: string)
    ensures var r := ListHandler(pageStr, limitStr, (p, l) => ListOutcome(s, p, l));
      && (OpList in s.faults || OpCount in s.faults ==>
            r == WriteErrorResponse(500, "Failed to retrieve users", None))
      && (OpList !in s.faults && OpCount !in s.faults ==>
            && r.status == 200 && r.body.data.Some?
            && var p := r.body.data.value;
            && 1 <= p.page && 1 <= p.limit <= 100
            && |p.data| <= p.limit
            && p.total == |LiveRows(s.rows)|
            && p.totalPages == TotalPages(p.total, p.limit))
  {
    var page := PageParam(pageStr);
    var limit := LimitParam(limitStr);
    if OpList !in s.faults && OpCount !in s.faults {
      OffsetNonNegative(page, limit);
      ListPage(s, Offset(page, limit), limit);
    }
  }
}
