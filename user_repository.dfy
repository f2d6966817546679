/**
 * internal/repository/user_repository.go: the `users` table behind GORM, as an
 * in-memory table with soft delete.
 *
 * Every row ever inserted stays in `rows`, in insertion order, which is also
 * primary-key order; a soft-deleted row has `deletedAt` set and is invisible to
 * every query. A driver failure of a call is an input: `faults` maps a call to
 * the error it fails with, and a failing call changes nothing. The clock is
 * the `now` parameter.
 */
module UserRepository {
  import opened Common
  import opened UserModel

  /** The repository calls. */
  datatype Op = OpCreate | OpGetByID | OpGetByEmail | OpGetByUsername | OpUpdate | OpDelete
              | OpList | OpCount | OpExistsByEmail | OpExistsByUsername | OpUpdateLastLogin

  /** The table as a value: its rows, the next auto-increment id and the faults in force. */
  datatype Store = Store(rows: seq<User>, nextId: nat, faults: map<Op, string>)

  /** GORM's soft-delete scope: a row is visible while `deleted_at IS NULL`. */
  predicate Live(u: User) {
    u.deletedAt.None?
  }

  /** The column a lookup filters on. */
  datatype Key = ById(id: nat) | ByEmail(email: string) | ByUsername(username: string)

  predicate Matches(u: User, k: Key) {
    match k
    case ById(id) => u.id == id
    case ByEmail(email) => u.email == email
    case ByUsername(username) => u.username == username
  }

  predicate LiveMatch(u: User, k: Key) {
    Live(u) && Matches(u, k)
  }

  ghost predicate AnyLive(rows: seq<User>, k: Key) {
    exists i :: 0 <= i < |rows| && LiveMatch(rows[i], k)
  }

  /** `First`: the live matching row with the smallest primary key, if any. */
  function FirstLive(rows: seq<User>, k: Key): (r: Option<User>)
    ensures r.None? <==> !AnyLive(rows, k)
    ensures r.Some? ==> exists i :: 0 <= i < |rows| && rows[i] == r.value && LiveMatch(r.value, k) &&
                                    forall j :: 0 <= j < i ==> !LiveMatch(rows[j], k)
  {
    if rows == [] then None
    else if LiveMatch(rows[0], k) then Some(rows[0])
    else
      var r := FirstLive(rows[1..], k);
      assert forall i :: 0 <= i < |rows| - 1 ==> rows[1..][i] == rows[i + 1];
      if r.Some? then
        ghost var i :| 0 <= i < |rows| - 1 && rows[1..][i] == r.value && LiveMatch(r.value, k) &&
                       forall j :: 0 <= j < i ==> !LiveMatch(rows[1..][j], k);
        assert rows[i + 1] == r.value;
        r
      else r
  }

  /**
   * The row invariant: positive, increasing ids below the counter, and the unique indexes on email and username hold
   * over every row, soft-deleted ones included.
   */
  ghost predicate WellFormed(s: Store) {
    && s.nextId >= 1
    && (forall i :: 0 <= i < |s.rows| ==> 1 <= s.rows[i].id < s.nextId)
    && (forall i, j :: 0 <= i < j < |s.rows| ==> s.rows[i].id < s.rows[j].id)
    && (forall i, j :: 0 <= i < j < |s.rows| ==>
          s.rows[i].email != s.rows[j].email && s.rows[i].username != s.rows[j].username)
  }

  /**
   * The unique index a write of `u` would break, judged against every row whose
   * id is not `except`: the email index first, then the username index.
   */
  function IndexClash(rows: seq<User>, u: User, except: int): (r: Option<string>)
    ensures r.None? <==> forall i :: 0 <= i < |rows| && rows[i].id != except ==>
                                       rows[i].email != u.email && rows[i].username != u.username
  {
    if exists i :: 0 <= i < |rows| && rows[i].id != except && rows[i].email == u.email then
      Some("email")
    else if exists i :: 0 <= i < |rows| && rows[i].id != except && rows[i].username == u.username then
      Some("username")
    else None
  }

  /** The driver's error for a unique-index violation, in SQLite's wording. */
  function UniqueViolation(column: string): string {
    "UNIQUE constraint failed: users." + column
  }

  // ---------------------------------------------------------------------------
  // What each call does, as a function of the table
  // ---------------------------------------------------------------------------

  /**
   * The row Create inserts: the next id, both timestamps set to now, and, since
   * GORM writes the column default for a zero-valued field that has a `default`
   * tag, is_active stored as true whatever the caller set.
   */
  function Inserted(u: User, id: nat, now: Time): User {
    u.(id := id, isActive := true, createdAt := now, updatedAt := now)
  }

  function CreateStep(s: Store, u: User, now: Time): (Result<User>, Store) {
    if OpCreate in s.faults then (Err(s.faults[OpCreate]), s)
    else if IndexClash(s.rows, u, -1).Some? then (Err(UniqueViolation(IndexClash(s.rows, u, -1).value)), s)
    else
      var saved := Inserted(u, s.nextId, now);
      (Ok(saved), s.(rows := s.rows + [saved], nextId := s.nextId + 1))
  }

  /** GetByID, GetByEmail and GetByUsername: "not found" is Ok(None), not an error. */
  function GetResult(s: Store, op: Op, k: Key): Result<Option<User>> {
    if op in s.faults then Err(s.faults[op]) else Ok(FirstLive(s.rows, k))
  }

  /** ExistsByEmail and ExistsByUsername: `COUNT(*) > 0` over the live rows. */
  function ExistsResult(s: Store, op: Op, k: Key): Result<bool> {
    if op in s.faults then Err(s.faults[op]) else Ok(FirstLive(s.rows, k).Some?)
  }

  /** Save: every column of the live row with the record's id is overwritten; updated_at becomes now. */
  function Saved(rows: seq<User>, u: User, now: Time): (r: seq<User>)
    ensures |r| == |rows|
  {
    seq(|rows|, i requires 0 <= i < |rows| =>
      if LiveMatch(rows[i], ById(u.id)) then u.(updatedAt := now) else rows[i])
  }

  /** A Save that writes a row can break a unique index; one that matches no live row writes nothing. */
  function UpdateStep(s: Store, u: User, now: Time): (Option<string>, Store) {
    if OpUpdate in s.faults then (Some(s.faults[OpUpdate]), s)
    else if FirstLive(s.rows, ById(u.id)).Some? && IndexClash(s.rows, u, u.id).Some? then
      (Some(UniqueViolation(IndexClash(s.rows, u, u.id).value)), s)
    else (None, s.(rows := Saved(s.rows, u, now)))
  }

  /** Delete: stamp deleted_at on the live row with that id; nothing is removed. */
  function SoftDeleted(rows: seq<User>, id: nat, now: Time): (r: seq<User>)
    ensures |r| == |rows|
  {
    seq(|rows|, i requires 0 <= i < |rows| =>
      if LiveMatch(rows[i], ById(id)) then rows[i].(deletedAt := Some(now)) else rows[i])
  }

  function DeleteStep(s: Store, id: nat, now: Time): (Option<string>, Store) {
    if OpDelete in s.faults then (Some(s.faults[OpDelete]), s)
    else (None, s.(rows := SoftDeleted(s.rows, id, now)))
  }

  /** `Update("last_login", now)` on the live row with that id; GORM also stamps updated_at. */
  function LoginStamped(rows: seq<User>, id: nat, now: Time): (r: seq<User>)
    ensures |r| == |rows|
  {
    seq(|rows|, i requires 0 <= i < |rows| =>
      if LiveMatch(rows[i], ById(id)) then rows[i].(lastLogin := Some(now), updatedAt := now) else rows[i])
  }

  function UpdateLastLoginStep(s: Store, id: nat, now: Time): (Option<string>, Store) {
    if OpUpdateLastLogin in s.faults then (Some(s.faults[OpUpdateLastLogin]), s)
    else (None, s.(rows := LoginStamped(s.rows, id, now)))
  }

  /** The live rows, in primary-key order. */
  function LiveRows(rows: seq<User>): (r: seq<User>)
    ensures |r| <= |rows|
    ensures forall u :: u in r <==> u in rows && Live(u)
  {
    if rows == [] then []
    else if Live(rows[0]) then [rows[0]] + LiveRows(rows[1..])
    else LiveRows(rows[1..])
  }

  /** The filter keeps every live row as often as it is stored, and no other row. */
  lemma {:induction false} LiveRowsKeepsMultiplicity(rows: seq<User>)
    ensures forall u :: multiset(LiveRows(rows))[u] == if Live(u) then multiset(rows)[u] else 0
  {
    if rows != [] {
      assert rows == [rows[0]] + rows[1..];
      LiveRowsKeepsMultiplicity(rows[1..]);
    }
  }

  /** Filtering a row appended at the end appends it to the filtered rows iff it is live. */
  lemma {:induction false} LiveRowsSnoc(rows: seq<User>, x: User)
    ensures LiveRows(rows + [x]) == LiveRows(rows) + (if Live(x) then [x] else [])
  {
    if rows == [] {
      assert rows + [x] == [x];
      assert [x][1..] == [];
    } else {
      assert (rows + [x])[0] == rows[0];
      assert (rows + [x])[1..] == rows[1..] + [x];
      LiveRowsSnoc(rows[1..], x);
    }
  }

  /** The positions among the first n of `rows` holding a live row. */
  ghost function LiveIndices(rows: seq<User>, n: nat): set<nat>
    requires n <= |rows|
  {
    set i: nat | i < n && Live(rows[i])
  }

  /** Extending the prefix by one position adds that position iff it holds a live row. */
  lemma LiveIndicesStep(rows: seq<User>, n: nat)
    requires 0 < n <= |rows|
    ensures |LiveIndices(rows, n)| == |LiveIndices(rows, n - 1)| + if Live(rows[n - 1]) then 1 else 0
  {
    var before, after := LiveIndices(rows, n - 1), LiveIndices(rows, n);
    if Live(rows[n - 1]) {
      assert after == before + {n - 1} by {
        forall i: nat ensures i in after <==> i in before || i == n - 1 {
        }
      }
      assert n - 1 !in before;
    } else {
      assert after == before by {
        forall i: nat ensures i in after <==> i in before {
        }
      }
    }
  }

  /** As many rows survive the filter as there are positions holding a live row. */
  lemma {:induction false} LiveRowsCountsIndices(rows: seq<User>, n: nat)
    requires n <= |rows|
    ensures |LiveRows(rows[..n])| == |LiveIndices(rows, n)|
  {
    if n == 0 {
      assert LiveIndices(rows, 0) == {};
    } else {
      LiveRowsCountsIndices(rows, n - 1);
      assert rows[..n] == rows[..n - 1] + [rows[n - 1]];
      LiveRowsSnoc(rows[..n - 1], rows[n - 1]);
      LiveIndicesStep(rows, n);
    }
  }

  ghost predicate SortedDesc(s: seq<User>) {
    forall i, j :: 0 <= i < j < |s| ==> s[i].createdAt >= s[j].createdAt
  }

  /** Prepending a row created no earlier than every row of a sorted sequence keeps it sorted. */
  lemma ConsSorted(x: User, s: seq<User>)
    requires SortedDesc(s)
    requires forall k :: 0 <= k < |s| ==> s[k].createdAt <= x.createdAt
    ensures SortedDesc([x] + s)
  {
    var r := [x] + s;
    forall i, j | 0 <= i < j < |r|
      ensures r[i].createdAt >= r[j].createdAt
    {
      assert r[j] == s[j - 1];
      if i > 0 {
        assert r[i] == s[i - 1];
      }
    }
  }

  /** Place `x` before the first row created strictly earlier than it. */
  function InsertDesc(x: User, s: seq<User>): (r: seq<User>)
    requires SortedDesc(s)
    ensures SortedDesc(r) && multiset(r) == multiset(s) + multiset{x}
  {
    if s == [] then [x]
    else if x.createdAt >= s[0].createdAt then
      ConsSorted(x, s);
      [x] + s
    else
      var t := InsertDesc(x, s[1..]);
      assert s == [s[0]] + s[1..];
      forall k | 0 <= k < |t|
        ensures t[k].createdAt <= s[0].createdAt
      {
        assert t[k] in multiset(t);
        if t[k] != x {
          assert t[k] in multiset(s[1..]);
          var m :| 0 <= m < |s[1..]| && s[1..][m] == t[k];
          assert s[m + 1] == t[k];
        }
      }
      ConsSorted(s[0], t);
      [s[0]] + t
  }

  /** `ORDER BY created_at DESC`: the order among rows created at the same instant is left to the database. */
  function SortDesc(s: seq<User>): (r: seq<User>)
    ensures SortedDesc(r) && multiset(r) == multiset(s)
  {
    if s == [] then []
    else
      assert s == [s[0]] + s[1..];
      InsertDesc(s[0], SortDesc(s[1..]))
  }

  /** The live rows, newest first. */
  function NewestFirst(rows: seq<User>): (r: seq<User>)
    ensures SortedDesc(r)
    ensures forall u :: u in r <==> u in rows && Live(u)
    ensures multiset(r) == multiset(LiveRows(rows))
  {
    var l := LiveRows(rows);
    var r := SortDesc(l);
    assert forall u :: u in r <==> u in multiset(l);
    r
  }

  /** The newest-first listing holds every live row as often as it is stored, and no other row. */
  lemma NewestFirstKeepsMultiplicity(rows: seq<User>)
    ensures forall u :: multiset(NewestFirst(rows))[u] == if Live(u) then multiset(rows)[u] else 0
  {
    LiveRowsKeepsMultiplicity(rows);
  }

  /** The clauses of a SELECT: LIMIT and OFFSET are each present or absent. */
  datatype Query = Query(limit: Option<int>, offset: Option<int>)

  /** Apply a query's clauses to an ordered result: skip OFFSET rows, then keep at most LIMIT. */
  function Paged(all: seq<User>, q: Query): seq<User> {
    var skipped := if q.offset.Some? && 0 <= q.offset.value then all[Min(q.offset.value, |all|)..] else all;
    if q.limit.Some? && 0 <= q.limit.value then skipped[..Min(q.limit.value, |skipped|)] else skipped
  }

  /** Run a query over the table: the live rows newest first, then the clauses. */
  function Find(rows: seq<User>, q: Query): seq<User> {
    Paged(NewestFirst(rows), q)
  }

  function Min(a: int, b: int): int {
    if a <= b then a else b
  }

  /** List: the limit is applied only when positive, and so is the offset. */
  function ListQuery(limit: int, offset: int): Query {
    Query(if limit > 0 then Some(limit) else None, if offset > 0 then Some(offset) else None)
  }

  function ListResult(s: Store, limit: int, offset: int): Result<seq<User>> {
    if OpList in s.faults then Err(s.faults[OpList]) else Ok(Find(s.rows, ListQuery(limit, offset)))
  }

  function CountResult(s: Store): Result<int> {
    if OpCount in s.faults then Err(s.faults[OpCount]) else Ok(|NewestFirst(s.rows)|)
  }

  // ---------------------------------------------------------------------------
  // The table
  // ---------------------------------------------------------------------------

  class UserTable {
    /** Every row ever inserted, soft-deleted ones included, in insertion order. */
    var rows: seq<User>
    /** The next auto-increment primary key. */
    var nextId: nat
    /** The driver failures in force: a call listed here fails with that message. */
    const faults: map<Op, string>

    ghost function State(): Store
      reads this
    {
      Store(rows, nextId, faults)
    }

    ghost predicate Valid()
      reads this
    {
      WellFormed(State())
    }

    /** An empty table whose calls fail as `faults` says. */
    constructor (faults: map<Op, string>)
      ensures Valid() && rows == [] && nextId == 1 && this.faults == faults
    {
      rows := [];
      nextId := 1;
      this.faults := faults;
    }

    /** Insert `u`; the returned record carries the assigned id and timestamps. */
    method Create(u: User, now: Time) returns (r: Result<User>)
      requires Valid()
      modifies this
      ensures Valid()
      ensures (r, State()) == CreateStep(old(State()), u, now)
    {
      if OpCreate in faults {
        return Err(faults[OpCreate]);
      }
      var clash := IndexClash(rows, u, -1);
      if clash.Some? {
        return Err(UniqueViolation(clash.value));
      }
      var saved := u.(id := nextId, isActive := true, createdAt := now, updatedAt := now);
      rows := rows + [saved];
      nextId := nextId + 1;
      r := Ok(saved);
      CreatePreservesWellFormed(old(State()), u, now);
    }

    method GetByID(id: nat) returns (r: Result<Option<User>>)
      ensures r == GetResult(State(), OpGetByID, ById(id))
    {
      if OpGetByID in faults {
        return Err(faults[OpGetByID]);
      }
      return Ok(FirstLive(rows, ById(id)));
    }

    method GetByEmail(email: string) returns (r: Result<Option<User>>)
      ensures r == GetResult(State(), OpGetByEmail, ByEmail(email))
    {
      if OpGetByEmail in faults {
        return Err(faults[OpGetByEmail]);
      }
      return Ok(FirstLive(rows, ByEmail(email)));
    }

    method GetByUsername(username: string) returns (r: Result<Option<User>>)
      ensures r == GetResult(State(), OpGetByUsername, ByUsername(username))
    {
      if OpGetByUsername in faults {
        return Err(faults[OpGetByUsername]);
      }
      return Ok(FirstLive(rows, ByUsername(username)));
    }

    method Update(u: User, now: Time) returns (err: Option<string>)
      requires Valid()
      modifies this
      ensures Valid()
      ensures (err, State()) == UpdateStep(old(State()), u, now)
    {
      if OpUpdate in faults {
        return Some(faults[OpUpdate]);
      }
      if FirstLive(rows, ById(u.id)).Some? {
        var clash := IndexClash(rows, u, u.id);
        if clash.Some? {
          return Some(UniqueViolation(clash.value));
        }
      }
      rows := Saved(rows, u, now);
      err := None;
      UpdatePreservesWellFormed(old(State()), u, now);
    }

    method Delete(id: nat, now: Time) returns (err: Option<string>)
      requires Valid()
      modifies this
      ensures Valid()
      ensures (err, State()) == DeleteStep(old(State()), id, now)
    {
      if OpDelete in faults {
        return Some(faults[OpDelete]);
      }
      rows := SoftDeleted(rows, id, now);
      err := None;
    }

    /** The query is assembled clause by clause, then run. */
    method List(limit: int, offset: int) returns (r: Result<seq<User>>)
      ensures r == ListResult(State(), limit, offset)
    {
      var query := Query(None, None);
      if limit > 0 {
        query := query.(limit := Some(limit));
      }
      if offset > 0 {
        query := query.(offset := Some(offset));
      }
      if OpList in faults {
        return Err(faults[OpList]);
      }
      return Ok(Find(rows, query));
    }

    method Count() returns (r: Result<int>)
      ensures r == CountResult(State())
    {
      if OpCount in faults {
        return Err(faults[OpCount]);
      }
      return Ok(|NewestFirst(rows)|);
    }

    method ExistsByEmail(email: string) returns (r: Result<bool>)
      ensures r == ExistsResult(State(), OpExistsByEmail, ByEmail(email))
    {
      if OpExistsByEmail in faults {
        return Err(faults[OpExistsByEmail]);
      }
      return Ok(FirstLive(rows, ByEmail(email)).Some?);
    }

    method ExistsByUsername(username: string) returns (r: Result<bool>)
      ensures r == ExistsResult(State(), OpExistsByUsername, ByUsername(username))
    {
      if OpExistsByUsername in faults {
        return Err(faults[OpExistsByUsername]);
      }
      return Ok(FirstLive(rows, ByUsername(username)).Some?);
    }

    method UpdateLastLogin(userId: nat, now: Time) returns (err: Option<string>)
      requires Valid()
      modifies this
      ensures Valid()
      ensures (err, State()) == UpdateLastLoginStep(old(State()), userId, now)
    {
      if OpUpdateLastLogin in faults {
        return Some(faults[OpUpdateLastLogin]);
      }
      rows := LoginStamped(rows, userId, now);
      err := None;
    }
  }

  // ---------------------------------------------------------------------------
  // Properties
  // ---------------------------------------------------------------------------

  lemma CreatePreservesWellFormed(s: Store, u: User, now: Time)
    requires WellFormed(s)
    ensures WellFormed(CreateStep(s, u, now).1)
  {
  }

  /** Save writes the one row with the record's id, and only when no other row holds its email or username. */
  lemma UpdatePreservesWellFormed(s: Store, u: User, now: Time)
    requires WellFormed(s)
    ensures WellFormed(UpdateStep(s, u, now).1)
  {
    var (err, s') := UpdateStep(s, u, now);
    if err.None? && OpUpdate !in s.faults {
      var r := s'.rows;
      assert r == Saved(s.rows, u, now);
      forall i | 0 <= i < |r| ensures r[i].id == s.rows[i].id {
      }
      if FirstLive(s.rows, ById(u.id)).Some? {
        assert IndexClash(s.rows, u, u.id).None?;
        forall i, j | 0 <= i < j < |r|
          ensures r[i].email != r[j].email && r[i].username != r[j].username
        {
          if LiveMatch(s.rows[i], ById(u.id)) {
            assert s.rows[j].id != u.id;
          } else if LiveMatch(s.rows[j], ById(u.id)) {
            assert s.rows[i].id != u.id;
          }
        }
      } else {
        forall i | 0 <= i < |r| ensures r[i] == s.rows[i] {
        }
      }
    }
  }

  /** Under the unique indexes, a lookup by id, email or username finds the one live row that has it. */
  lemma LookupIsUnique(s: Store, k: Key, u: User)
    requires WellFormed(s)
    ensures FirstLive(s.rows, k) == Some(u) <==> u in s.rows && LiveMatch(u, k)
  {
    if u in s.rows && LiveMatch(u, k) {
      var i :| 0 <= i < |s.rows| && s.rows[i] == u;
      var r := FirstLive(s.rows, k);
      var j :| 0 <= j < |s.rows| && s.rows[j] == r.value && LiveMatch(r.value, k) &&
               forall m :: 0 <= m < j ==> !LiveMatch(s.rows[m], k);
      assert j == i;
    }
  }

  lemma {:induction false} FirstLiveAppend(rows: seq<User>, x: User, k: Key)
    requires !AnyLive(rows, k)
    ensures FirstLive(rows + [x], k) == if LiveMatch(x, k) then Some(x) else None
  {
    if rows != [] {
      assert (rows + [x])[1..] == rows[1..] + [x];
      assert !LiveMatch(rows[0], k);
      assert !AnyLive(rows[1..], k) by {
        forall i | 0 <= i < |rows| - 1 ensures !LiveMatch(rows[1..][i], k) {
          assert rows[1..][i] == rows[i + 1];
        }
      }
      FirstLiveAppend(rows[1..], x, k);
    }
  }

  /**
   * A successful Create assigns the next id and stamps both times; the row is
   * then found by that id, exactly as returned. A failed Create changes nothing.
   */
  lemma CreateThenGet(s: Store, u: User, now: Time)
    requires WellFormed(s) && OpGetByID !in s.faults && Live(u)
    ensures var (r, s') := CreateStep(s, u, now);
      && (r.Err? ==> s' == s)
      && (r.Ok? ==> r.value.id == s.nextId && r.value.createdAt == now && r.value.updatedAt == now
                    && s'.nextId == s.nextId + 1
                    && GetResult(s', OpGetByID, ById(r.value.id)) == Ok(Some(r.value)))
  {
    var (r, s') := CreateStep(s, u, now);
    if r.Ok? {
      assert !AnyLive(s.rows, ById(s.nextId));
      FirstLiveAppend(s.rows, r.value, ById(s.nextId));
    }
  }

  /**
   * Delete is soft: afterwards the row is not found by its id, yet it is still
   * stored, unchanged except for deleted_at; no other row changes.
   */
  lemma SoftDeleteHides(s: Store, id: nat, now: Time)
    requires OpDelete !in s.faults && OpGetByID !in s.faults
    ensures var s' := DeleteStep(s, id, now).1;
      && GetResult(s', OpGetByID, ById(id)) == Ok(None)
      && |s'.rows| == |s.rows|
      && (forall i :: 0 <= i < |s.rows| ==> s'.rows[i].(deletedAt := s.rows[i].deletedAt) == s.rows[i])
      && (forall i :: 0 <= i < |s.rows| && s.rows[i].id != id ==> s'.rows[i] == s.rows[i])
  {
    var s' := DeleteStep(s, id, now).1;
    assert forall i :: 0 <= i < |s'.rows| ==> !LiveMatch(s'.rows[i], ById(id));
  }

  /**
   * The unique indexes ignore the soft-delete scope while the existence checks
   * honour it: once a row is soft-deleted its email reads as free, yet a new row
   * with that email is refused by the database.
   */
  lemma DeletedEmailStaysTaken(s: Store, i: nat, u: User, now: Time)
    requires WellFormed(s) && i < |s.rows| && !Live(s.rows[i])
    requires OpExistsByEmail !in s.faults && OpCreate !in s.faults
    requires u.email == s.rows[i].email
    ensures ExistsResult(s, OpExistsByEmail, ByEmail(u.email)) == Ok(false)
    ensures CreateStep(s, u, now) == (Err(UniqueViolation("email")), s)
  {
    forall j | 0 <= j < |s.rows| && j != i ensures s.rows[j].email != u.email {
      if j < i { assert s.rows[j].email != s.rows[i].email; }
      else { assert s.rows[i].email != s.rows[j].email; }
    }
    assert !AnyLive(s.rows, ByEmail(u.email));
    assert s.rows[i].id != -1 && s.rows[i].email == u.email;
  }

  /** An existence check answers true exactly when the matching lookup finds a row. */
  lemma ExistsAgreesWithGet(s: Store, k: Key, op: Op, getOp: Op)
    requires op !in s.faults && getOp !in s.faults
    ensures ExistsResult(s, op, k) == Ok(GetResult(s, getOp, k).value.Some?)
  {
  }

  /** Count is the number of rows not soft-deleted, which is how many rows an unpaginated List returns. */
  lemma CountIsLiveRows(s: Store)
    requires OpCount !in s.faults && OpList !in s.faults
    ensures CountResult(s) == Ok(|LiveRows(s.rows)|)
    ensures CountResult(s) == Ok(|ListResult(s, 0, 0).value|)
  {
    var l := LiveRows(s.rows);
    assert |multiset(SortDesc(l))| == |multiset(l)|;
  }

  /** Count is the number of positions of the table that hold a live row. */
  lemma CountIsLivePositions(s: Store)
    requires OpCount !in s.faults
    ensures CountResult(s) == Ok(|LiveIndices(s.rows, |s.rows|)|)
  {
    var l := LiveRows(s.rows);
    assert |multiset(SortDesc(l))| == |multiset(l)|;
    LiveRowsCountsIndices(s.rows, |s.rows|);
    assert s.rows[..|s.rows|] == s.rows;
  }

  lemma SliceSorted(q: seq<User>, a: nat, b: nat)
    requires SortedDesc(q) && a <= b <= |q|
    ensures SortedDesc(q[a..b])
  {
    forall i, j | 0 <= i < j < b - a ensures q[a..b][i].createdAt >= q[a..b][j].createdAt {
      assert q[a..b][i] == q[a + i] && q[a..b][j] == q[a + j];
    }
  }

  /** The slice [from, upto) of an n-row listing that a limit and an offset select. */
  function WindowBounds(n: nat, limit: int, offset: int): (b: (nat, nat))
    ensures b.0 <= b.1 <= n
  {
    var from := if offset > 0 then Min(offset, n) else 0;
    (from, if limit > 0 then Min(from + limit, n) else n)
  }

  /**
   * List returns a run of consecutive rows of the live table sorted newest first:
   * it skips `offset` rows when offset > 0 and keeps at most `limit` when
   * limit > 0; a non-positive limit or offset is not applied.
   */
  lemma ListWindow(s: Store, limit: int, offset: int)
    requires OpList !in s.faults
    ensures var all := NewestFirst(s.rows);
      var (from, upto) := WindowBounds(|all|, limit, offset);
      && ListResult(s, limit, offset) == Ok(all[from..upto])
      && SortedDesc(all[from..upto])
      && (forall u :: u in all[from..upto] ==> u in s.rows && Live(u))
  {
    var all := NewestFirst(s.rows);
    var (from, upto) := WindowBounds(|all|, limit, offset);
    ListIsSlice(s, limit, offset);
    SliceSorted(all, from, upto);
    forall u | u in all[from..upto] ensures u in s.rows && Live(u) {
      assert u in all;
    }
  }

  lemma ListIsSlice(s: Store, limit: int, offset: int)
    requires OpList !in s.faults
    ensures var all := NewestFirst(s.rows);
      var (from, upto) := WindowBounds(|all|, limit, offset);
      ListResult(s, limit, offset) == Ok(all[from..upto])
  {
    PagedIsSlice(NewestFirst(s.rows), limit, offset);
  }

  lemma PagedIsSlice(all: seq<User>, limit: int, offset: int)
    ensures var (from, upto) := WindowBounds(|all|, limit, offset);
      Paged(all, ListQuery(limit, offset)) == all[from..upto]
  {
    var (from, upto) := WindowBounds(|all|, limit, offset);
    var skipped := if offset > 0 then all[Min(offset, |all|)..] else all;
    assert skipped == all[from..];
    if limit > 0 {
      assert skipped[..Min(limit, |skipped|)] == all[from..upto];
    } else {
      assert skipped == all[from..upto];
    }
  }

  /** UpdateLastLogin writes last_login and updated_at of the live row with that id and nothing else. */
  lemma UpdateLastLoginOnlyStamps(s: Store, id: nat, now: Time)
    requires OpUpdateLastLogin !in s.faults && OpGetByID !in s.faults
    ensures var s' := UpdateLastLoginStep(s, id, now).1;
      && |s'.rows| == |s.rows| && s'.nextId == s.nextId
      && (forall i :: 0 <= i < |s.rows| ==>
            s'.rows[i].(lastLogin := s.rows[i].lastLogin, updatedAt := s.rows[i].updatedAt) == s.rows[i])
      && (forall i :: 0 <= i < |s.rows| && s.rows[i].id != id ==> s'.rows[i] == s.rows[i])
      && (GetResult(s, OpGetByID, ById(id)) == Ok(None) <==> GetResult(s', OpGetByID, ById(id)) == Ok(None))
      && (forall u: User :: GetResult(s', OpGetByID, ById(id)) == Ok(Some(u)) ==> u.lastLogin == Some(now))
  {
    var r := UpdateLastLoginStep(s, id, now).1.rows;
    forall i | 0 <= i < |s.rows| ensures LiveMatch(s.rows[i], ById(id)) <==> LiveMatch(r[i], ById(id)) {
    }
    assert AnyLive(s.rows, ById(id)) <==> AnyLive(r, ById(id));
    var found := FirstLive(r, ById(id));
    if found.Some? {
      var i :| 0 <= i < |r| && r[i] == found.value && LiveMatch(found.value, ById(id)) &&
               forall j :: 0 <= j < i ==> !LiveMatch(r[j], ById(id));
      assert LiveMatch(s.rows[i], ById(id));
    }
  }

  /** Save overwrites the live row with the record's id, stamping updated_at, unless an index forbids it. */
  lemma UpdateThenGet(s: Store, u: User, now: Time)
    requires OpUpdate !in s.faults && OpGetByID !in s.faults && Live(u)
    requires FirstLive(s.rows, ById(u.id)).Some?
    ensures var (err, s') := UpdateStep(s, u, now);
      && (err.Some? <==> IndexClash(s.rows, u, u.id).Some?)
      && (err.Some? ==> s' == s)
      && (err.None? ==> GetResult(s', OpGetByID, ById(u.id)) == Ok(Some(u.(updatedAt := now))))
  {
    var (err, s') := UpdateStep(s, u, now);
    if err.None? {
      var r := s'.rows;
      forall i | 0 <= i < |s.rows| ensures LiveMatch(s.rows[i], ById(u.id)) <==> LiveMatch(r[i], ById(u.id)) {
      }
      assert AnyLive(s.rows, ById(u.id));
      assert AnyLive(r, ById(u.id));
      var found := FirstLive(r, ById(u.id));
      var j :| 0 <= j < |r| && r[j] == found.value && LiveMatch(found.value, ById(u.id)) &&
               forall m :: 0 <= m < j ==> !LiveMatch(r[m], ById(u.id));
      assert LiveMatch(s.rows[j], ById(u.id));
    }
  }
}
