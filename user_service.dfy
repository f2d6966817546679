/**
 * internal/services/user_service.go: the account rules over the user table.
 *
 * Each operation is first written as an outcome function of the table's state
 * (what the call answers and the table it leaves), and then as a method of
 * Service that drives the UserTable call by call in the order the source does
 * and is proved to produce that outcome. Password hashing is abstract (Hasher).
 */
module UserService {
  import opened Common
  import opened UserModel
  import opened UserRepository
  import opened AuthService

  /** bcrypt as two abstract functions: hashing may fail; `matches(hash, plain)` is a successful compare. */
  datatype Hasher = Hasher(hash: string -> Result<string>, matches: (string, string) -> bool)

  /** What a successful login answers: the access token and the user. */
  datatype Session = Session(token: string, user: UserResponse)

  /** A page of users and the number of users in the table. */
  datatype UserPage = UserPage(users: seq<UserResponse>, total: int)

  function Or<T>(o: Option<T>, default: T): T {
    if o.Some? then o.value else default
  }

  // ---------------------------------------------------------------------------
  // Outcomes as functions of the table
  // ---------------------------------------------------------------------------

  /** The record Create builds: active, never an administrator, holding the hash. */
  function NewUser(req: CreateRequest, hashed: string): User {
    User(0, req.email, req.username, hashed, req.firstName, req.lastName, true, false, None, 0, 0, None)
  }

  function CreateOutcome(s: Store, h: Hasher, req: CreateRequest, now: Time): (Result<UserResponse>, Store) {
    match ExistsResult(s, OpExistsByEmail, ByEmail(req.email))
    case Err(e) => (Err("failed to check user existence: " + e), s)
    case Ok(emailTaken) =>
      if emailTaken then (Err("user with this email already exists"), s)
      else match ExistsResult(s, OpExistsByUsername, ByUsername(req.username))
        case Err(e) => (Err("failed to check username availability: " + e), s)
        case Ok(usernameTaken) =>
          if usernameTaken then (Err("username is already taken"), s)
          else match h.hash(req.password)
            case Err(e) => (Err("failed to hash password: " + e), s)
            case Ok(hashed) =>
              var (r, s') := CreateStep(s, NewUser(req, hashed), now);
              if r.Err? then (Err("failed to create user: " + r.msg), s')
              else (Ok(ToResponse(r.value)), s')
  }

  /** GetByID and GetByEmail: a failed read and a missing user are distinct errors. */
  function GetOutcome(s: Store, op: Op, k: Key): Result<UserResponse> {
    match GetResult(s, op, k)
    case Err(e) => Err("failed to get user: " + e)
    case Ok(found) => if found.None? then Err("user not found") else Ok(ToResponse(found.value))
  }

  /** A new email is applied only after it is found free; an unchanged or absent one is not checked. */
  function WithEmail(s: Store, user: User, email: Option<string>): Result<User> {
    if email.Some? && email.value != user.email then
      match ExistsResult(s, OpExistsByEmail, ByEmail(email.value))
      case Err(e) => Err("failed to check email availability: " + e)
      case Ok(taken) => if taken then Err("email is already taken") else Ok(user.(email := email.value))
    else Ok(user)
  }

  function WithUsername(s: Store, user: User, username: Option<string>): Result<User> {
    if username.Some? && username.value != user.username then
      match ExistsResult(s, OpExistsByUsername, ByUsername(username.value))
      case Err(e) => Err("failed to check username availability: " + e)
      case Ok(taken) => if taken then Err("username is already taken") else Ok(user.(username := username.value))
    else Ok(user)
  }

  /** The unchecked fields: each present one overwrites. */
  function WithProfile(user: User, req: UpdateRequest): User {
    user.(firstName := Or(req.firstName, user.firstName),
          lastName := Or(req.lastName, user.lastName),
          isActive := Or(req.isActive, user.isActive))
  }

  /** Save stamps updated_at on the record it is given, so the response shows the new time. */
  function UpdateOutcome(s: Store, id: nat, req: UpdateRequest, now: Time): (Result<UserResponse>, Store) {
    match GetResult(s, OpGetByID, ById(id))
    case Err(e) => (Err("failed to get user: " + e), s)
    case Ok(found) =>
      if found.None? then (Err("user not found"), s)
      else match WithEmail(s, found.value, req.email)
        case Err(e) => (Err(e), s)
        case Ok(u1) =>
          match WithUsername(s, u1, req.username)
          case Err(e) => (Err(e), s)
          case Ok(u2) =>
            var u3 := WithProfile(u2, req);
            var (err, s') := UpdateStep(s, u3, now);
            if err.Some? then (Err("failed to update user: " + err.value), s')
            else (Ok(ToResponse(u3.(updatedAt := now))), s')
  }

  function DeleteOutcome(s: Store, id: nat, now: Time): (Option<string>, Store) {
    match GetResult(s, OpGetByID, ById(id))
    case Err(e) => (Some("failed to get user: " + e), s)
    case Ok(found) =>
      if found.None? then (Some("user not found"), s)
      else
        var (err, s') := DeleteStep(s, id, now);
        if err.Some? then (Some("failed to delete user: " + err.value), s') else (None, s')
  }

  /** The rows of the page that starts (page - 1) * limit rows into the listing. */
  function Offset(page: int, limit: int): int {
    (page - 1) * limit
  }

  /** One response per user, in the same order. */
  function Responses(users: seq<User>): (r: seq<UserResponse>)
    ensures |r| == |users| && forall i :: 0 <= i < |users| ==> r[i] == ToResponse(users[i])
  {
    seq(|users|, i requires 0 <= i < |users| => ToResponse(users[i]))
  }

  /** List once the offset is known: the page of users, then the count. */
  function ListAt(s: Store, offset: int, limit: int): Result<UserPage> {
    match ListResult(s, limit, offset)
    case Err(e) => Err("failed to list users: " + e)
    case Ok(users) =>
      match CountResult(s)
      case Err(e) => Err("failed to count users: " + e)
      case Ok(total) => Ok(UserPage(Responses(users), total))
  }

  function ListOutcome(s: Store, page: int, limit: int): Result<UserPage> {
    ListAt(s, Offset(page, limit), limit)
  }

  /**
   * Login: a read failure; then "invalid credentials" for a missing user; a
   * deactivated account before the password is compared; the same "invalid
   * credentials" for a wrong password; a token failure, wrapped a second time.
   * The last-login stamp may fail silently; the response shows the user as read.
   */
  function LoginOutcome(s: Store, h: Hasher, a: Authenticator, req: LoginRequest, now: Time): (Result<Session>, Store) {
    match GetResult(s, OpGetByEmail, ByEmail(req.email))
    case Err(e) => (Err("failed to authenticate: " + e), s)
    case Ok(found) =>
      if found.None? then (Err("invalid credentials"), s)
      else
        var user := found.value;
        if !user.isActive then (Err("account is deactivated"), s)
        else if !h.matches(user.password, req.password) then (Err("invalid credentials"), s)
        else match GenerateToken(a, user.id, user.email, user.isAdmin)
          case Err(e) => (Err("failed to generate token: " + e), s)
          case Ok(token) => (Ok(Session(token, ToResponse(user))), UpdateLastLoginStep(s, user.id, now).1)
  }

  /** Logout keeps no session state, so it cannot fail. */
  function Logout(userId: nat): (err: Option<string>)
    ensures err.None?
  {
    None
  }

  // ---------------------------------------------------------------------------
  // The service
  // ---------------------------------------------------------------------------

  class Service {
    const repo: UserTable
    const auth: Authenticator
    const hasher: Hasher

    constructor (repo: UserTable, auth: Authenticator, hasher: Hasher)
      ensures this.repo == repo && this.auth == auth && this.hasher == hasher
    {
      this.repo := repo;
      this.auth := auth;
      this.hasher := hasher;
    }

    method Create(req: CreateRequest, now: Time) returns (r: Result<UserResponse>)
      requires repo.Valid()
      modifies repo
      ensures repo.Valid()
      ensures (r, repo.State()) == CreateOutcome(old(repo.State()), hasher, req, now)
    {
      var taken := repo.ExistsByEmail(req.email);
      if taken.Err? {
        return Err("failed to check user existence: " + taken.msg);
      }
      if taken.value {
        return Err("user with this email already exists");
      }
      taken := repo.ExistsByUsername(req.username);
      if taken.Err? {
        return Err("failed to check username availability: " + taken.msg);
      }
      if taken.value {
        return Err("username is already taken");
      }
      var hashed := hasher.hash(req.password);
      if hashed.Err? {
        return Err("failed to hash password: " + hashed.msg);
      }
      var user := User(0, req.email, req.username, hashed.value, req.firstName, req.lastName,
                       true, false, None, 0, 0, None);
      var saved := repo.Create(user, now);
      if saved.Err? {
        return Err("failed to create user: " + saved.msg);
      }
      return Ok(ToResponse(saved.value));
    }

    method GetByID(id: nat) returns (r: Result<UserResponse>)
      ensures r == GetOutcome(repo.State(), OpGetByID, ById(id))
    {
      var user := repo.GetByID(id);
      if user.Err? {
        return Err("failed to get user: " + user.msg);
      }
      if user.value.None? {
        return Err("user not found");
      }
      return Ok(ToResponse(user.value.value));
    }

    method GetByEmail(email: string) returns (r: Result<UserResponse>)
      ensures r == GetOutcome(repo.State(), OpGetByEmail, ByEmail(email))
    {
      var user := repo.GetByEmail(email);
      if user.Err? {
        return Err("failed to get user: " + user.msg);
      }
      if user.value.None? {
        return Err("user not found");
      }
      return Ok(ToResponse(user.value.value));
    }

    /** The fetched record is changed field by field, then saved whole. */
    method Update(id: nat, req: UpdateRequest, now: Time) returns (r: Result<UserResponse>)
      requires repo.Valid()
      modifies repo
      ensures repo.Valid()
      ensures (r, repo.State()) == UpdateOutcome(old(repo.State()), id, req, now)
    {
      var found := repo.GetByID(id);
      if found.Err? {
        return Err("failed to get user: " + found.msg);
      }
      if found.value.None? {
        return Err("user not found");
      }
      var user := found.value.value;
      var checked := ChangeEmail(user, req.email);
      if checked.Err? {
        return Err(checked.msg);
      }
      checked := ChangeUsername(checked.value, req.username);
      if checked.Err? {
        return Err(checked.msg);
      }
      user := checked.value;
      if req.firstName.Some? {
        user := user.(firstName := req.firstName.value);
      }
      if req.lastName.Some? {
        user := user.(lastName := req.lastName.value);
      }
      if req.isActive.Some? {
        user := user.(isActive := req.isActive.value);
      }
      var err := repo.Update(user, now);
      if err.Some? {
        return Err("failed to update user: " + err.value);
      }
      return Ok(ToResponse(user.(updatedAt := now)));
    }

    /** Update's email step: a changed email is applied only once it is found free. */
    method ChangeEmail(user: User, email: Option<string>) returns (r: Result<User>)
      ensures r == WithEmail(repo.State(), user, email)
    {
      if email.Some? && email.value != user.email {
        var taken := repo.ExistsByEmail(email.value);
        if taken.Err? {
          return Err("failed to check email availability: " + taken.msg);
        }
        if taken.value {
          return Err("email is already taken");
        }
        return Ok(user.(email := email.value));
      }
      return Ok(user);
    }

    method ChangeUsername(user: User, username: Option<string>) returns (r: Result<User>)
      ensures r == WithUsername(repo.State(), user, username)
    {
      if username.Some? && username.value != user.username {
        var taken := repo.ExistsByUsername(username.value);
        if taken.Err? {
          return Err("failed to check username availability: " + taken.msg);
        }
        if taken.value {
          return Err("username is already taken");
        }
        return Ok(user.(username := username.value));
      }
      return Ok(user);
    }

    method Delete(id: nat, now: Time) returns (err: Option<string>)
      requires repo.Valid()
      modifies repo
      ensures repo.Valid()
      ensures (err, repo.State()) == DeleteOutcome(old(repo.State()), id, now)
    {
      var user := repo.GetByID(id);
      if user.Err? {
        return Some("failed to get user: " + user.msg);
      }
      if user.value.None? {
        return Some("user not found");
      }
      var failed := repo.Delete(id, now);
      if failed.Some? {
        return Some("failed to delete user: " + failed.value);
      }
      return None;
    }

    /** The page is converted into responses one user at a time. */
    method List(page: int, limit: int) returns (r: Result<UserPage>)
      ensures r == ListOutcome(repo.State(), page, limit)
    {
      var offset := (page - 1) * limit;
      var users := repo.List(limit, offset);
      if users.Err? {
        return Err("failed to list users: " + users.msg);
      }
      var total := repo.Count();
      if total.Err? {
        return Err("failed to count users: " + total.msg);
      }
      var rows := users.value;
      var responses := new UserResponse[|rows|];
      var i := 0;
      while i < |rows|
        invariant 0 <= i <= |rows|
        invariant forall j :: 0 <= j < i ==> responses[j] == ToResponse(rows[j])
      {
        responses[i] := ToResponse(rows[i]);
        i := i + 1;
      }
      assert responses[..] == Responses(rows);
      return Ok(UserPage(responses[..], total.value));
    }

    method Login(req: LoginRequest, now: Time) returns (r: Result<Session>)
      requires repo.Valid()
      modifies repo
      ensures repo.Valid()
      ensures (r, repo.State()) == LoginOutcome(old(repo.State()), hasher, auth, req, now)
    {
      var found := repo.GetByEmail(req.email);
      if found.Err? {
        return Err("failed to authenticate: " + found.msg);
      }
      if found.value.None? {
        return Err("invalid credentials");
      }
      var user := found.value.value;
      if !user.isActive {
        return Err("account is deactivated");
      }
      if !hasher.matches(user.password, req.password) {
        return Err("invalid credentials");
      }
      var token := GenerateToken(auth, user.id, user.email, user.isAdmin);
      if token.Err? {
        return Err("failed to generate token: " + token.msg);
      }
      // A failed stamp is only logged.
      var _ := repo.UpdateLastLogin(user.id, now);
      return Ok(Session(token.value, ToResponse(user)));
    }
  }

  // ---------------------------------------------------------------------------
  // Properties
  // ---------------------------------------------------------------------------

  /**
   * A taken email ends Create before anything else: the username check, the
   * hash and the insert are not reached (a failing username check or another
   * hasher change nothing), and the table is left as it was.
   */
  lemma CreateEmailTakenStops(s: Store, h: Hasher, h2: Hasher, req: CreateRequest, now: Time, e: string)
    requires ExistsResult(s, OpExistsByEmail, ByEmail(req.email)) == Ok(true)
    ensures CreateOutcome(s, h, req, now) == (Err("user with this email already exists"), s)
    ensures var s2 := s.(faults := s.faults[OpExistsByUsername := e]);
      CreateOutcome(s2, h2, req, now) == (Err("user with this email already exists"), s2)
  {
    var s2 := s.(faults := s.faults[OpExistsByUsername := e]);
    assert ExistsResult(s2, OpExistsByEmail, ByEmail(req.email)) == Ok(true);
  }

  /** A free email with a taken username fails before hashing, and nothing is stored. */
  lemma CreateUsernameTakenStops(s: Store, h: Hasher, h2: Hasher, req: CreateRequest, now: Time)
    requires ExistsResult(s, OpExistsByEmail, ByEmail(req.email)) == Ok(false)
    requires ExistsResult(s, OpExistsByUsername, ByUsername(req.username)) == Ok(true)
    ensures CreateOutcome(s, h, req, now) == (Err("username is already taken"), s)
    ensures CreateOutcome(s, h2, req, now) == CreateOutcome(s, h, req, now)
  {
  }

  /**
   * A successful Create appends exactly one row: active, not an administrator,
   * holding the hash of the password rather than the password, with the
   * request's email, username and names; the response is that row's projection.
   */
  lemma CreateSuccessStoresHash(s: Store, h: Hasher, req: CreateRequest, now: Time)
    requires CreateOutcome(s, h, req, now).0.Ok?
    ensures var (r, s') := CreateOutcome(s, h, req, now);
      && h.hash(req.password).Ok?
      && |s'.rows| == |s.rows| + 1 && s'.rows[..|s.rows|] == s.rows
      && var u := s'.rows[|s.rows|];
      && u.isActive && !u.isAdmin && u.password == h.hash(req.password).value
      && u.email == req.email && u.username == req.username
      && u.firstName == req.firstName && u.lastName == req.lastName
      && u.id == s.nextId && u.createdAt == now && u.lastLogin.None? && Live(u)
      && r.value == ToResponse(u)
  {
    var (r, s') := CreateOutcome(s, h, req, now);
    assert s'.rows[..|s.rows|] == s.rows;
  }

  /**
   * Between them, Create's checks and the database refuse every duplicate: on a
   * well-formed table a successful Create leaves no other row, live or
   * soft-deleted, with the new email or username.
   */
  lemma CreateKeepsAccountsUnique(s: Store, h: Hasher, req: CreateRequest, now: Time)
    requires WellFormed(s) && CreateOutcome(s, h, req, now).0.Ok?
    ensures var s' := CreateOutcome(s, h, req, now).1;
      WellFormed(s') &&
      forall i :: 0 <= i < |s.rows| ==> s'.rows[i].email != req.email && s'.rows[i].username != req.username
  {
    var hashed := h.hash(req.password).value;
    var u := NewUser(req, hashed);
    assert CreateStep(s, u, now).0.Ok?;
    assert IndexClash(s.rows, u, -1).None?;
    CreatePreservesWellFormed(s, u, now);
  }

  /** Update of an id with no live row fails with "user not found" and changes nothing. */
  lemma UpdateMissingUser(s: Store, id: nat, req: UpdateRequest, now: Time)
    requires GetResult(s, OpGetByID, ById(id)) == Ok(None)
    ensures UpdateOutcome(s, id, req, now) == (Err("user not found"), s)
  {
  }

  /**
   * An email equal to the current one, or none, is not checked again: the
   * outcome is the same whether or not the email check would fail. Likewise
   * for the username.
   */
  lemma UpdateChecksOnlyChanges(s: Store, id: nat, req: UpdateRequest, now: Time, e: string)
    requires GetResult(s, OpGetByID, ById(id)).Ok? && GetResult(s, OpGetByID, ById(id)).value.Some?
    ensures var user := GetResult(s, OpGetByID, ById(id)).value.value;
      var s2 := s.(faults := s.faults[OpExistsByEmail := e]);
      (req.email.None? || req.email == Some(user.email)) ==>
        UpdateOutcome(s2, id, req, now) == (UpdateOutcome(s, id, req, now).0, UpdateOutcome(s, id, req, now).1.(faults := s2.faults))
  {
    var user := GetResult(s, OpGetByID, ById(id)).value.value;
    var s2 := s.(faults := s.faults[OpExistsByEmail := e]);
    if req.email.None? || req.email == Some(user.email) {
      assert GetResult(s2, OpGetByID, ById(id)) == GetResult(s, OpGetByID, ById(id));
      assert WithEmail(s2, user, req.email) == WithEmail(s, user, req.email) == Ok(user);
      assert WithUsername(s2, user, req.username) == WithUsername(s, user, req.username);
    }
  }

  /** A changed email that an existing user holds is refused and nothing is saved. */
  lemma UpdateEmailTaken(s: Store, id: nat, req: UpdateRequest, now: Time)
    requires GetResult(s, OpGetByID, ById(id)).Ok? && GetResult(s, OpGetByID, ById(id)).value.Some?
    requires req.email.Some? && req.email.value != GetResult(s, OpGetByID, ById(id)).value.value.email
    requires ExistsResult(s, OpExistsByEmail, ByEmail(req.email.value)) == Ok(true)
    ensures UpdateOutcome(s, id, req, now) == (Err("email is already taken"), s)
  {
  }

  /**
   * A successful Update stores the fetched record with exactly the present
   * fields overwritten: absent fields, id, password, the administrator flag,
   * last login and creation time keep their values; updated_at becomes now.
   * A later read by id returns that record, which is also what is answered.
   */
  lemma UpdateOverwritesPresentFields(s: Store, id: nat, req: UpdateRequest, now: Time)
    requires OpGetByID !in s.faults
    requires UpdateOutcome(s, id, req, now).0.Ok?
    ensures var (r, s') := UpdateOutcome(s, id, req, now);
      var old_ := FirstLive(s.rows, ById(id)).value;
      var u := old_.(email := Or(req.email, old_.email), username := Or(req.username, old_.username),
                     firstName := Or(req.firstName, old_.firstName), lastName := Or(req.lastName, old_.lastName),
                     isActive := Or(req.isActive, old_.isActive), updatedAt := now);
      && u.id == id && u.password == old_.password && u.isAdmin == old_.isAdmin
      && GetResult(s', OpGetByID, ById(id)) == Ok(Some(u))
      && r == Ok(ToResponse(u))
  {
    var user := FirstLive(s.rows, ById(id)).value;
    var e := WithEmail(s, user, req.email);
    WithEmailApplies(s, user, req.email);
    var n := WithUsername(s, e.value, req.username);
    WithUsernameApplies(s, e.value, req.username);
    var u3 := WithProfile(n.value, req);
    UpdateThenGet(s, u3, now);
  }

  /** A successful email step yields the record with the requested email, if any. */
  lemma WithEmailApplies(s: Store, user: User, email: Option<string>)
    ensures WithEmail(s, user, email).Ok? ==> WithEmail(s, user, email).value == user.(email := Or(email, user.email))
  {
  }

  /** A successful username step yields the record with the requested username, if any. */
  lemma WithUsernameApplies(s: Store, user: User, username: Option<string>)
    ensures WithUsername(s, user, username).Ok? ==>
      WithUsername(s, user, username).value == user.(username := Or(username, user.username))
  {
  }

  /** Delete of an id with no live row fails with "user not found" and the store's delete is never called. */
  lemma DeleteMissingUser(s: Store, id: nat, now: Time, e: string)
    requires GetResult(s, OpGetByID, ById(id)) == Ok(None)
    ensures DeleteOutcome(s, id, now) == (Some("user not found"), s)
    ensures var s2 := s.(faults := s.faults[OpDelete := e]);
      DeleteOutcome(s2, id, now) == (Some("user not found"), s2)
  {
    var s2 := s.(faults := s.faults[OpDelete := e]);
    assert GetResult(s2, OpGetByID, ById(id)) == Ok(None);
  }

  /** A successful Delete hides the user from every later read by id. */
  lemma DeleteThenNotFound(s: Store, id: nat, now: Time)
    requires OpGetByID !in s.faults && DeleteOutcome(s, id, now).0.None?
    ensures GetOutcome(DeleteOutcome(s, id, now).1, OpGetByID, ById(id)) == Err("user not found")
  {
    SoftDeleteHides(s, id, now);
  }

  /**
   * List answers the page that starts `offset` rows into the live users sorted
   * newest first, one response per user in that order, and the number of live
   * users as total. For page >= 1 and limit > 0 the offset (page - 1) * limit
   * is not negative (OffsetNonNegative).
   */
  lemma ListPage(s: Store, offset: int, limit: int)
    requires OpList !in s.faults && OpCount !in s.faults && offset >= 0 && limit > 0
    ensures var all := NewestFirst(s.rows);
      var from := Min(offset, |all|);
      var upto := Min(from + limit, |all|);
      ListAt(s, offset, limit) == Ok(UserPage(Responses(all[from..upto]), |LiveRows(s.rows)|))
  {
    var all := NewestFirst(s.rows);
    var from := Min(offset, |all|);
    var upto := Min(from + limit, |all|);
    ListIsSlice(s, limit, offset);
    CountIsLiveRows(s);
    var users := all[from..upto];
    var total := |LiveRows(s.rows)|;
    assert ListResult(s, limit, offset) == Ok(users);
    assert CountResult(s) == Ok(total);
    assert ListAt(s, offset, limit) == Ok(UserPage(Responses(users), total));
  }

  lemma OffsetNonNegative(page: int, limit: int)
    requires page >= 1 && limit > 0
    ensures Offset(page, limit) >= 0
  {
    assert (page - 1) * limit >= 0 * limit;
  }

  /** A missing user and a wrong password give the same answer, so the error does not reveal which. */
  lemma LoginHidesWhichCredentialFailed(s: Store, h: Hasher, a: Authenticator, req: LoginRequest, now: Time)
    requires GetResult(s, OpGetByEmail, ByEmail(req.email)).Ok?
    ensures var found := GetResult(s, OpGetByEmail, ByEmail(req.email)).value;
      (found.None? || (found.value.isActive && !h.matches(found.value.password, req.password))) ==>
        LoginOutcome(s, h, a, req, now) == (Err("invalid credentials"), s)
  {
  }

  /** The deactivated check comes before the password: the answer is the same for any hasher. */
  lemma LoginChecksActiveFirst(s: Store, h: Hasher, h2: Hasher, a: Authenticator, req: LoginRequest, now: Time)
    requires GetResult(s, OpGetByEmail, ByEmail(req.email)).Ok?
    requires var found := GetResult(s, OpGetByEmail, ByEmail(req.email)).value;
      found.Some? && !found.value.isActive
    ensures LoginOutcome(s, h, a, req, now) == (Err("account is deactivated"), s)
    ensures LoginOutcome(s, h2, a, req, now) == LoginOutcome(s, h, a, req, now)
  {
  }

  /**
   * A successful login answers the token the codec issued for the user's id,
   * email and administrator flag, and the user as read; whether the last-login
   * stamp then fails does not change the answer.
   */
  lemma LoginSuccessIgnoresStampFailure(s: Store, h: Hasher, a: Authenticator, req: LoginRequest, now: Time, e: string)
    requires LoginOutcome(s, h, a, req, now).0.Ok?
    ensures var user := GetResult(s, OpGetByEmail, ByEmail(req.email)).value.value;
      var r := LoginOutcome(s, h, a, req, now).0;
      && user.isActive && h.matches(user.password, req.password)
      && r == Ok(Session(a.codec.generate(user.id, user.email, user.isAdmin, a.cfg.secret, a.cfg.expiry).value,
                         ToResponse(user)))
      && LoginOutcome(s.(faults := s.faults[OpUpdateLastLogin := e]), h, a, req, now).0 == r
  {
    var s2 := s.(faults := s.faults[OpUpdateLastLogin := e]);
    assert GetResult(s2, OpGetByEmail, ByEmail(req.email)) == GetResult(s, OpGetByEmail, ByEmail(req.email));
  }

  /** A token failure at login is wrapped twice, once by the token service and once by Login. */
  lemma LoginTokenErrorWrappedTwice(s: Store, h: Hasher, a: Authenticator, req: LoginRequest, now: Time)
    requires GetResult(s, OpGetByEmail, ByEmail(req.email)).Ok?
    requires var found := GetResult(s, OpGetByEmail, ByEmail(req.email)).value;
      found.Some? && found.value.isActive && h.matches(found.value.password, req.password) &&
      a.codec.generate(found.value.id, found.value.email, found.value.isAdmin, a.cfg.secret, a.cfg.expiry).Err?
    ensures var u := GetResult(s, OpGetByEmail, ByEmail(req.email)).value.value;
      LoginOutcome(s, h, a, req, now) ==
        (Err("failed to generate token: failed to generate token: " +
             a.codec.generate(u.id, u.email, u.isAdmin, a.cfg.secret, a.cfg.expiry).msg), s)
  {
    var u := GetResult(s, OpGetByEmail, ByEmail(req.email)).value.value;
    var e := a.codec.generate(u.id, u.email, u.isAdmin, a.cfg.secret, a.cfg.expiry).msg;
    assert "failed to generate token: " + ("failed to generate token: " + e) ==
           "failed to generate token: failed to generate token: " + e;
  }

  // ---------------------------------------------------------------------------
  // Finding: the page offset in 64-bit arithmetic
  // ---------------------------------------------------------------------------

  /** List as written: `offset := (page - 1) * limit` is computed in Go's 64-bit int and wraps. */
  function ListOutcomeAsWritten(s: Store, page: int, limit: int): Result<UserPage> {
    ListAt(s, Wrap64(Offset(page, limit)), limit)
  }

  /**
   * A page and limit the handler lets through (page 2^62 + 1, limit 4) make the
   * offset wrap to 0, so the caller is served the first page; the intended
   * offset lies past every row of any table smaller than 2^64 rows, so the
   * intended page is empty.
   */
  lemma OffsetWrapServesFirstPage(s: Store)
    requires OpList !in s.faults && OpCount !in s.faults && |s.rows| < 0x1_0000_0000_0000_0000
    ensures Wrap64(Offset(0x4000_0000_0000_0001, 4)) == 0
    ensures ListOutcomeAsWritten(s, 0x4000_0000_0000_0001, 4) == ListOutcome(s, 1, 4)
    ensures ListOutcome(s, 0x4000_0000_0000_0001, 4).value.users == []
  {
    assert Offset(0x4000_0000_0000_0001, 4) == 0x1_0000_0000_0000_0000;
    ListPage(s, 0x1_0000_0000_0000_0000, 4);
  }
}
