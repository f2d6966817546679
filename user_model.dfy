/**
 * internal/models/user.go: the user record, its outward projection and the
 * bounds the request payloads are validated against.
 */
module UserModel {
  import opened Common
  import opened Validation

  /** A row of the `users` table; `deletedAt` is the soft-delete marker. */
  datatype User = User(
    id: nat,
    email: string,
    username: string,
    password: string,
    firstName: string,
    lastName: string,
    isActive: bool,
    isAdmin: bool,
    lastLogin: Option<Time>,
    createdAt: Time,
    updatedAt: Time,
    deletedAt: Option<Time>)

  /** What is serialised outward: no password hash and no deletion marker. */
  datatype UserResponse = UserResponse(
    id: nat,
    email: string,
    username: string,
    firstName: string,
    lastName: string,
    isActive: bool,
    isAdmin: bool,
    lastLogin: Option<Time>,
    createdAt: Time,
    updatedAt: Time)

  function ToResponse(u: User): UserResponse {
    UserResponse(u.id, u.email, u.username, u.firstName, u.lastName,
                 u.isActive, u.isAdmin, u.lastLogin, u.createdAt, u.updatedAt)
  }

  /** The record a response was projected from, given the two fields it hides. */
  function FromResponse(r: UserResponse, password: string, deletedAt: Option<Time>): User {
    User(r.id, r.email, r.username, password, r.firstName, r.lastName,
         r.isActive, r.isAdmin, r.lastLogin, r.createdAt, r.updatedAt, deletedAt)
  }

  /**
   * The projection loses exactly the password and the deletion marker: it and
   * FromResponse are inverse to each other.
   */
  lemma ToResponseRoundTrip(u: User, r: UserResponse, password: string, deletedAt: Option<Time>)
    ensures FromResponse(ToResponse(u), u.password, u.deletedAt) == u
    ensures ToResponse(FromResponse(r, password, deletedAt)) == r
  {
  }

  /** Two records give the same response iff they differ at most in password and deletion marker. */
  lemma ToResponseHidesSecrets(u: User, v: User)
    ensures ToResponse(u) == ToResponse(v) <==> u.(password := v.password, deletedAt := v.deletedAt) == v
  {
    if ToResponse(u) == ToResponse(v) {
      ToResponseRoundTrip(u, ToResponse(v), v.password, v.deletedAt);
      ToResponseRoundTrip(v, ToResponse(v), v.password, v.deletedAt);
    }
  }

  // ---------------------------------------------------------------------------
  // Request payloads and their validation tags
  // ---------------------------------------------------------------------------

  datatype CreateRequest = CreateRequest(
    email: string, username: string, password: string, firstName: string, lastName: string)

  /** Every field is a nullable pointer: None means "not sent". */
  datatype UpdateRequest = UpdateRequest(
    email: Option<string>, username: Option<string>, firstName: Option<string>,
    lastName: Option<string>, isActive: Option<bool>)

  datatype LoginRequest = LoginRequest(email: string, password: string)

  /** `min=lo,max=hi` on a string: its length lies in lo..hi. */
  predicate LengthIn(s: string, lo: nat, hi: nat) {
    lo <= |s| <= hi
  }

  /**
   * The tags of UserCreateRequest. `isEmail` is the validator library's own
   * `email` rule, which this model does not define.
   */
  predicate CreateRequestValid(req: CreateRequest, isEmail: string -> bool) {
    && req.email != "" && isEmail(req.email)
    && LengthIn(req.username, 3, 50)
    && |req.password| >= 6
    && LengthIn(req.firstName, 1, 100)
    && LengthIn(req.lastName, 1, 100)
  }

  /** `omitempty`: an absent field passes; a present one is held to the create bounds. */
  predicate UpdateRequestValid(req: UpdateRequest, isEmail: string -> bool) {
    && (req.email.Some? ==> isEmail(req.email.value))
    && (req.username.Some? ==> LengthIn(req.username.value, 3, 50))
    && (req.firstName.Some? ==> LengthIn(req.firstName.value, 1, 100))
    && (req.lastName.Some? ==> LengthIn(req.lastName.value, 1, 100))
  }

  predicate LoginRequestValid(req: LoginRequest, isEmail: string -> bool) {
    req.email != "" && isEmail(req.email) && req.password != ""
  }

  /** The update request that sends every field of a create request (and any is_active). */
  function AsUpdate(req: CreateRequest, isActive: Option<bool>): UpdateRequest {
    UpdateRequest(Some(req.email), Some(req.username), Some(req.firstName), Some(req.lastName), isActive)
  }

  /**
   * An update request with no field passes validation, and one that sends every
   * field passes exactly when a create request with those values (and an
   * acceptable password) does: present update fields are held to the create bounds.
   */
  lemma UpdateBoundsMatchCreate(req: CreateRequest, isActive: Option<bool>, isEmail: string -> bool)
    requires |req.password| >= 6
    requires !isEmail("")
    ensures UpdateRequestValid(UpdateRequest(None, None, None, None, isActive), isEmail)
    ensures UpdateRequestValid(AsUpdate(req, isActive), isEmail) <==> CreateRequestValid(req, isEmail)
  {
  }

  /**
   * A create request that passes validation also passes the utility checks on its
   * password, and its username has the length IsValidUsername asks for (the
   * request tags do not restrict the username's characters).
   */
  lemma CreateRequestMeetsUtilityChecks(req: CreateRequest, isEmail: string -> bool)
    requires CreateRequestValid(req, isEmail)
    ensures IsValidPassword(req.password)
    ensures IsValidUsername(req.username) <==> AllWord(req.username)
  {
  }

  /**
   * A login request needs both fields: an empty email or an empty password is
   * refused, and otherwise only the email rule decides. The password has no
   * length bound at login, unlike at sign-up.
   */
  lemma LoginRequestNeedsBothFields(req: LoginRequest, isEmail: string -> bool)
    requires !isEmail("")
    ensures req.password == "" ==> !LoginRequestValid(req, isEmail)
    ensures req.email == "" ==> !LoginRequestValid(req, isEmail)
    ensures req.password != "" ==> (LoginRequestValid(req, isEmail) <==> isEmail(req.email))
    ensures isEmail("a@b.io") ==> LoginRequestValid(LoginRequest("a@b.io", "x"), isEmail)
  {
  }

  /** The create tags accept a username IsValidUsername rejects. */
  lemma CreateRequestAllowsNonWordUsername(isEmail: string -> bool)
    requires isEmail("a@b.io")
    ensures var req := CreateRequest("a@b.io", "a b", "secret", "A", "B");
      CreateRequestValid(req, isEmail) && !IsValidUsername(req.username)
  {
    var req := CreateRequest("a@b.io", "a b", "secret", "A", "B");
    assert !IsWordChar(req.username[1]);
  }
}
