// The Postgres user gateway: the state enum mapping between the domain and
// the table, insert-only saves, the all-or-nothing batch lookup, paging,
// and the case-insensitive ILIKE lookups by username and email.
module UserDb {
  import opened Common
  import Batch

  /** The `user_state` enum of the table. */
  datatype DbUserState = DbActive | DbInactive | DbBanned | DbDeleted

  function StateToDb(s: UserState): DbUserState
  {
    match s
    case Active => DbActive
    case Inactive => DbInactive
    case Banned => DbBanned
    case Deleted => DbDeleted
  }

  function StateFromDb(s: DbUserState): UserState
  {
    match s
    case DbActive => Active
    case DbInactive => Inactive
    case DbBanned => Banned
    case DbDeleted => Deleted
  }

  /** The two mappings are inverse bijections. */
  lemma StateMappingRoundTrip(s: UserState, d: DbUserState)
    ensures StateFromDb(StateToDb(s)) == s
    ensures StateToDb(StateFromDb(d)) == d
    ensures StateToDb(s) == d <==> StateFromDb(d) == s
  {
  }

  /** One row of the `users` table. */
  datatype UserRow = UserRow(
    id: Uuid,
    username: string,
    email: string,
    firstName: Option<string>,
    lastName: Option<string>,
    state: DbUserState,
    hashedPassword: string,
    createdAt: Time,
    updatedAt: Option<Time>)

  /** The active model `save_user` builds. */
  function ToRow(u: User): UserRow
  {
    UserRow(u.id, u.username, u.email, u.firstName, u.lastName, StateToDb(u.state),
            u.hashedPassword, u.createdAt, u.updatedAt)
  }

  /** `map_user_model_to_domain`. */
  function FromRow(r: UserRow): User
  {
    User(r.id, r.username, r.email, r.firstName, r.lastName, StateFromDb(r.state),
         r.hashedPassword, r.createdAt, r.updatedAt)
  }

  /** Storing a user and reading it back loses nothing, and every row is some user's image. */
  lemma RowRoundTrip(u: User, r: UserRow)
    ensures FromRow(ToRow(u)) == u
    ensures ToRow(FromRow(r)) == r
  {
    StateMappingRoundTrip(u.state, r.state);
  }

  function RowId(r: UserRow): Uuid { r.id }

  function Ids(rows: seq<UserRow>): seq<Uuid>
  {
    Batch.Keys(rows, RowId)
  }

  function MapFromRows(rows: seq<UserRow>): (us: seq<User>)
    ensures |us| == |rows| && forall i :: 0 <= i < |rows| ==> us[i] == FromRow(rows[i])
  {
    if rows == [] then [] else [FromRow(rows[0])] + MapFromRows(rows[1..])
  }

  // ---- ILIKE -----------------------------------------------------------------------

  /** Lower-casing as the database's collation does it, on ASCII and basic Cyrillic. */
  function Fold(c: char): char
  {
    if 'A' <= c <= 'Z' then ((c as int) + 32) as char
    else if 'А' <= c <= 'Я' then ((c as int) + 32) as char
    else if c == 'Ё' then 'ё'
    else c
  }

  function FoldAll(s: string): (r: string)
    ensures |r| == |s|
  {
    if s == [] then [] else [Fold(s[0])] + FoldAll(s[1..])
  }

  predicate IsLikeSpecial(c: char) { c == '%' || c == '_' || c == '\\' }

  /**
   * `value ILIKE pattern`: `%` matches any run of characters, `_` any single
   * character, `\` makes the next pattern character literal, and every other
   * character matches itself ignoring case.
   */
  predicate ILike(value: string, pattern: string)
    decreases |value| + |pattern|
  {
    if pattern == [] then value == []
    else if pattern[0] == '%' then ILike(value, pattern[1..]) || (value != [] && ILike(value[1..], pattern))
    else if pattern[0] == '_' then value != [] && ILike(value[1..], pattern[1..])
    else if pattern[0] == '\\' then
      |pattern| >= 2 && value != [] && Fold(value[0]) == Fold(pattern[1]) && ILike(value[1..], pattern[2..])
    else value != [] && Fold(value[0]) == Fold(pattern[0]) && ILike(value[1..], pattern[1..])
  }

  /** A pattern with no wildcard or escape is a case-insensitive equality test. */
  lemma {:induction false} ILikeLiteral(value: string, pattern: string)
    requires forall i :: 0 <= i < |pattern| ==> !IsLikeSpecial(pattern[i])
    ensures ILike(value, pattern) <==> FoldAll(value) == FoldAll(pattern)
    decreases |pattern|
  {
    if pattern != [] && value != [] {
      ILikeLiteral(value[1..], pattern[1..]);
      assert FoldAll(value) == [Fold(value[0])] + FoldAll(value[1..]);
      assert FoldAll(pattern) == [Fold(pattern[0])] + FoldAll(pattern[1..]);
      if FoldAll(value) == FoldAll(pattern) {
        assert FoldAll(value)[1..] == FoldAll(value[1..]);
        assert FoldAll(pattern)[1..] == FoldAll(pattern[1..]);
      }
    }
  }

  /** Every text without a backslash matches itself: `%` and `_` also match themselves. */
  lemma {:induction false} ILikeSelf(s: string)
    requires '\\' !in s
    ensures ILike(s, s)
  {
    if s != [] {
      ILikeSelf(s[1..]);
      if s[0] == '%' {
        assert ILike(s[1..], s[1..]);
        assert ILike(s[1..], s);
      }
    }
  }

  /** `_` stands for any one character and `%` for any text, so a lookup can match a different name. */
  lemma ILikeWildcards(c: char, s: string)
    ensures ILike("ivan" + [c], "ivan_")
    ensures ILike(s, "%")
    ensures !ILike("ivan", "iva")
  {
    assert ("ivan" + [c])[1..] == "van" + [c];
    assert ("van" + [c])[1..] == "an" + [c];
    assert ("an" + [c])[1..] == "n" + [c];
    assert ("n" + [c])[1..] == [c];
    assert ILike([c], "_");
    assert ILike("n" + [c], "n_");
    assert ILike("an" + [c], "an_");
    assert ILike("van" + [c], "van_");
    PercentMatchesAll(s);
    assert !ILike("n", "");
    assert !ILike("an", "a");
  }

  lemma {:induction false} PercentMatchesAll(s: string)
    ensures ILike(s, "%")
  {
    if s != [] {
      PercentMatchesAll(s[1..]);
    }
  }

  /** The first row satisfying the condition, in table order. */
  function FirstWhere(rows: seq<UserRow>, p: UserRow -> bool): (r: Option<UserRow>)
    ensures r.Some? ==> r.value in rows && p(r.value)
    ensures r.None? <==> forall i :: 0 <= i < |rows| ==> !p(rows[i])
  {
    if rows == [] then None else if p(rows[0]) then Some(rows[0]) else FirstWhere(rows[1..], p)
  }

  lemma FromRowBack(r: UserRow)
    ensures ToRow(FromRow(r)) == r
  {
    StateMappingRoundTrip(StateFromDb(r.state), r.state);
  }

  /** `get_user_by_id`: the row with that primary key. */
  function ById(rows: seq<UserRow>, id: Uuid): (r: Option<User>)
    ensures r.Some? ==> r.value.id == id && ToRow(r.value) in rows
    ensures r.None? <==> forall i :: 0 <= i < |rows| ==> rows[i].id != id
  {
    var found := FirstWhere(rows, (x: UserRow) => x.id == id);
    match found
    case None => None
    case Some(row) => FromRowBack(row); Some(FromRow(row))
  }

  /** `get_user_by_username_not_sensitive`: the first row whose username ILIKE the given text. */
  function ByUsername(rows: seq<UserRow>, username: string): (r: Option<User>)
    ensures r.Some? ==> ILike(r.value.username, username) && ToRow(r.value) in rows
    ensures r.None? <==> forall i :: 0 <= i < |rows| ==> !ILike(rows[i].username, username)
  {
    var found := FirstWhere(rows, (x: UserRow) => ILike(x.username, username));
    match found
    case None => None
    case Some(row) => FromRowBack(row); Some(FromRow(row))
  }

  /** `get_user_by_email_not_sensitive`: the first row whose email ILIKE the given text. */
  function ByEmail(rows: seq<UserRow>, email: string): (r: Option<User>)
    ensures r.Some? ==> ILike(r.value.email, email) && ToRow(r.value) in rows
    ensures r.None? <==> forall i :: 0 <= i < |rows| ==> !ILike(rows[i].email, email)
  {
    var found := FirstWhere(rows, (x: UserRow) => ILike(x.email, email));
    match found
    case None => None
    case Some(row) => FromRowBack(row); Some(FromRow(row))
  }

  /** A stored username without a backslash always finds a user, though perhaps an earlier one that matches as a pattern. */
  lemma ExactUsernameFound(rows: seq<UserRow>, i: nat)
    requires i < |rows| && '\\' !in rows[i].username
    ensures ByUsername(rows, rows[i].username).Some?
  {
    ILikeSelf(rows[i].username);
  }

  // ---- the gateway --------------------------------------------------------------------

  class UserTable {
    var rows: seq<UserRow>

    constructor (rows0: seq<UserRow>)
      ensures rows == rows0
    {
      rows := rows0;
    }

    function GetUserById(id: Uuid): Option<User>
      reads this
    {
      ById(rows, id)
    }

    function GetUserByUsernameNotSensitive(username: string): Option<User>
      reads this
    {
      ByUsername(rows, username)
    }

    function GetUserByEmailNotSensitive(email: string): Option<User>
      reads this
    {
      ByEmail(rows, email)
    }

    /** `get_users_by_ids`: all the requested users, or None when the row count differs from the list length. */
    method GetUsersByIds(ids: seq<Uuid>) returns (r: Option<seq<User>>)
      ensures var found := Batch.Matching(rows, RowId, Batch.Elems(ids));
              r == if |found| != |ids| then None else Some(MapFromRows(found))
      ensures Batch.Distinct(Ids(rows)) ==>
                (r.Some? <==> Batch.Distinct(ids) && Batch.Elems(ids) <= Batch.Elems(Ids(rows)))
    {
      var cond := Batch.BuildCondition(ids);
      var found := Batch.Matching(rows, RowId, cond);
      if |found| != |ids| {
        r := None;
      } else {
        r := Some(MapFromRows(found));
      }
      if Batch.Distinct(Ids(rows)) {
        Batch.AllOrNothingSpec(rows, RowId, ids);
      }
    }

    /** `get_list`: the rows after the first `offset`, at most `limit` of them, in table order. */
    function GetList(limit: nat, offset: nat): (us: seq<User>)
      reads this
      ensures offset >= |rows| ==> us == []
      ensures offset < |rows| ==> |us| == (if limit < |rows| - offset then limit else |rows| - offset)
      ensures forall i :: 0 <= i < |us| ==> us[i] == FromRow(rows[offset + i])
    {
      if offset >= |rows| then []
      else
        var stop := if limit < |rows| - offset then offset + limit else |rows|;
        MapFromRows(rows[offset..stop])
    }

    /**
     * `save_user`: always an INSERT. A user whose id is already stored breaks
     * the primary key and the `unwrap` panics; otherwise the row is appended.
     */
    method SaveUser(u: User) returns (panicked: bool)
      modifies this
      ensures panicked <==> u.id in Ids(old(rows))
      ensures rows == if panicked then old(rows) else old(rows) + [ToRow(u)]
    {
      var ids := Ids(rows);
      panicked := u.id in ids;
      if !panicked {
        rows := rows + [ToRow(u)];
      }
    }

    /** The save the updating interactors need: the stored row is replaced, or a new one appended. */
    method SaveUserUpsert(u: User)
      modifies this
      ensures rows == Upsert(old(rows), u)
    {
      rows := Upsert(rows, u);
    }
  }

  /** As written, saving an updated copy of a stored user always panics: the insert meets its own row. */
  lemma SaveUpdatedUserPanics(rows: seq<UserRow>, u: User, changed: User)
    requires ToRow(u) in rows && changed.id == u.id
    ensures changed.id in Ids(rows)
  {
    var i :| 0 <= i < |rows| && rows[i] == ToRow(u);
    assert Ids(rows)[i] == u.id;
  }

  /** The save the interactors rely on: replace the row with the same id, or append a new one. */
  function Upsert(rows: seq<UserRow>, u: User): (r: seq<UserRow>)
    ensures |r| == if u.id in Ids(rows) then |rows| else |rows| + 1
    ensures forall i :: 0 <= i < |rows| && rows[i].id != u.id ==> r[i] == rows[i]
    ensures forall i :: 0 <= i < |rows| && rows[i].id == u.id ==> r[i] == ToRow(u)
    ensures u.id !in Ids(rows) ==> r[|rows|] == ToRow(u)
  {
    if u.id in Ids(rows) then seq(|rows|, i requires 0 <= i < |rows| => if rows[i].id == u.id then ToRow(u) else rows[i])
    else rows + [ToRow(u)]
  }

  /** After an upsert, looking the user up by id finds exactly what was saved, and the other ids are untouched. */
  lemma UpsertThenGet(rows: seq<UserRow>, u: User)
    ensures FirstWhere(Upsert(rows, u), (x: UserRow) => x.id == u.id) == Some(ToRow(u))
    ensures u.id in Ids(Upsert(rows, u))
    ensures ById(Upsert(rows, u), u.id) == Some(u)
  {
    var r := Upsert(rows, u);
    var k := if u.id in Ids(rows) then FirstIndex(rows, u.id) else |rows|;
    FirstWhereAt(r, (x: UserRow) => x.id == u.id, k);
    assert Ids(r)[k] == u.id;
    RowRoundTrip(u, ToRow(u));
  }

  function FirstIndex(rows: seq<UserRow>, id: Uuid): (k: nat)
    requires id in Ids(rows)
    ensures k < |rows| && rows[k].id == id && forall j :: 0 <= j < k ==> rows[j].id != id
  {
    if rows[0].id == id then 0
    else
      assert Ids(rows) == [rows[0].id] + Ids(rows[1..]);
      1 + FirstIndex(rows[1..], id)
  }

  lemma {:induction false} FirstWhereAt(rows: seq<UserRow>, p: UserRow -> bool, k: nat)
    requires k < |rows| && p(rows[k]) && forall j :: 0 <= j < k ==> !p(rows[j])
    ensures FirstWhere(rows, p) == Some(rows[k])
  {
    if k > 0 {
      FirstWhereAt(rows[1..], p, k - 1);
    }
  }
}
