// The Postgres role gateway: a read-through cache in front of `get_role`,
// the all-or-nothing batch lookup, an upserting `save_role`, the singleton
// default-role table and the role-to-user links.
module RoleDb {
  import opened Common
  import Batch
  import UserDb

  type RoleId = Uuid

  /** Seconds an entry of the role cache stays usable. */
  const CacheLifespan: int := 3

  datatype Role = Role(id: RoleId, title: string, description: Option<string>, createdAt: Time, updatedAt: Option<Time>)

  /** A cache entry: the row and the time it was stored. */
  datatype Cached = Cached(role: Role, storedAt: Time)

  function RoleKey(r: Role): Uuid { r.id }

  function RoleIds(rows: seq<Role>): seq<Uuid> { Batch.Keys(rows, RoleKey) }

  /** `find_by_id`: the row with that primary key, if any. */
  function FindRole(rows: seq<Role>, id: RoleId): (r: Option<Role>)
    ensures r.Some? ==> r.value in rows && r.value.id == id
    ensures r.None? <==> forall i :: 0 <= i < |rows| ==> rows[i].id != id
  {
    if rows == [] then None else if rows[0].id == id then Some(rows[0]) else FindRole(rows[1..], id)
  }

  /** An entry is served while it is younger than the lifespan. */
  predicate Fresh(cache: map<RoleId, Cached>, id: RoleId, now: Time)
  {
    id in cache && now - cache[id].storedAt < CacheLifespan
  }

  /**
   * `get_role`: the result and the cache afterwards. A fresh entry is served
   * as is; otherwise an expired entry is dropped, the table is read, and a
   * row found there is cached with the current time.
   */
  function GetRoleSpec(rows: seq<Role>, cache: map<RoleId, Cached>, id: RoleId, now: Time): (out: (Option<Role>, map<RoleId, Cached>))
    ensures Fresh(cache, id, now) ==> out == (Some(cache[id].role), cache)
    ensures !Fresh(cache, id, now) ==> out.0 == FindRole(rows, id)
    ensures !Fresh(cache, id, now) && out.0.Some? ==> out.1 == cache[id := Cached(out.0.value, now)]
    ensures !Fresh(cache, id, now) && out.0.None? ==> out.1 == cache - {id}
  {
    if Fresh(cache, id, now) then (Some(cache[id].role), cache)
    else
      var found := FindRole(rows, id);
      if found.Some? then (found, cache[id := Cached(found.value, now)]) else (None, cache - {id})
  }

  /** Every cached entry is the current row with that id. */
  predicate Coherent(rows: seq<Role>, cache: map<RoleId, Cached>)
  {
    forall id :: id in cache ==> FindRole(rows, id) == Some(cache[id].role)
  }

  /** While the cache agrees with the table, `get_role` answers exactly what the table holds, and keeps the agreement. */
  lemma CoherentRead(rows: seq<Role>, cache: map<RoleId, Cached>, id: RoleId, now: Time)
    requires Coherent(rows, cache)
    ensures GetRoleSpec(rows, cache, id, now).0 == FindRole(rows, id)
    ensures Coherent(rows, GetRoleSpec(rows, cache, id, now).1)
  {
  }

  /**
   * The cache is not told about writes: for up to the lifespan after a read,
   * a renamed role is still served under its old title.
   */
  lemma StaleAfterSave(rows: seq<Role>, cache: map<RoleId, Cached>, role: Role, renamed: Role, now: Time, later: Time)
    requires FindRole(rows, role.id) == Some(role)
    requires renamed.id == role.id && renamed.title != role.title
    requires now <= later < now + CacheLifespan
    ensures var (_, c1) := GetRoleSpec(rows, cache - {role.id}, role.id, now);
            GetRoleSpec(Upsert(rows, renamed), c1, role.id, later).0 == Some(role)
    ensures FindRole(Upsert(rows, renamed), role.id) == Some(renamed)
  {
    UpsertFind(rows, renamed);
  }

  /** `save_role`: update the row with that id, or insert one. */
  function Upsert(rows: seq<Role>, r: Role): (out: seq<Role>)
    ensures |out| == if r.id in RoleIds(rows) then |rows| else |rows| + 1
    ensures forall i :: 0 <= i < |rows| ==> out[i] == if rows[i].id == r.id then r else rows[i]
    ensures r.id !in RoleIds(rows) ==> out[|rows|] == r
  {
    if r.id in RoleIds(rows) then seq(|rows|, i requires 0 <= i < |rows| => if rows[i].id == r.id then r else rows[i])
    else rows + [r]
  }

  /** After a save the row is found under its id, every other id finds what it found before, and ids stay unique. */
  lemma UpsertFind(rows: seq<Role>, r: Role)
    ensures FindRole(Upsert(rows, r), r.id) == Some(r)
    ensures forall id :: id != r.id ==> FindRole(Upsert(rows, r), id) == FindRole(rows, id)
    ensures Batch.Distinct(RoleIds(rows)) ==> Batch.Distinct(RoleIds(Upsert(rows, r)))
  {
    var out := Upsert(rows, r);
    if FindRole(rows, r.id).Some? {
      var k := IndexOf(rows, r.id);
      FindAt(out, r.id, k);
    } else {
      FindAt(out, r.id, |rows|);
    }
    forall id | id != r.id ensures FindRole(out, id) == FindRole(rows, id) {
      if FindRole(rows, id).Some? {
        var k := IndexOf(rows, id);
        FindAt(out, id, k);
      } else {
        assert forall i :: 0 <= i < |out| ==> out[i].id != id;
      }
    }
    if Batch.Distinct(RoleIds(rows)) {
      DistinctAfterUpsert(rows, r);
    }
  }

  /** The position of the row `FindRole` returns. */
  function IndexOf(rows: seq<Role>, id: RoleId): (k: nat)
    requires FindRole(rows, id).Some?
    ensures k < |rows| && rows[k] == FindRole(rows, id).value
    ensures forall j :: 0 <= j < k ==> rows[j].id != id
  {
    if rows[0].id == id then 0 else 1 + IndexOf(rows[1..], id)
  }

  lemma {:induction false} FindAt(rows: seq<Role>, id: RoleId, k: nat)
    requires k < |rows| && rows[k].id == id
    requires forall j :: 0 <= j < k ==> rows[j].id != id
    ensures FindRole(rows, id) == Some(rows[k])
  {
    if k > 0 {
      FindAt(rows[1..], id, k - 1);
    }
  }

  lemma DistinctAfterUpsert(rows: seq<Role>, r: Role)
    requires Batch.Distinct(RoleIds(rows))
    ensures Batch.Distinct(RoleIds(Upsert(rows, r)))
  {
    var out := Upsert(rows, r);
    var ks := RoleIds(out);
    if r.id !in RoleIds(rows) {
      forall i, j | 0 <= i < j < |ks| ensures ks[i] != ks[j] {
        if j == |rows| {
          assert ks[i] == RoleIds(rows)[i];
        } else {
          assert ks[i] == RoleIds(rows)[i] && ks[j] == RoleIds(rows)[j];
        }
      }
    } else {
      forall i, j | 0 <= i < j < |ks| ensures ks[i] != ks[j] {
        assert ks[i] == RoleIds(rows)[i] && ks[j] == RoleIds(rows)[j];
      }
    }
  }

  /** The row the default-role table points at; `unwrap` panics when the role row is gone. */
  function DefaultRole(defaults: seq<RoleId>, rows: seq<Role>): (r: Outcome<Option<Role>>)
    ensures defaults == [] <==> r == Ok(None)
    ensures r.Ok? && r.value.Some? ==> r.value.value in rows && r.value.value.id == defaults[0]
    ensures r.Panic? <==> defaults != [] && FindRole(rows, defaults[0]).None?
  {
    if defaults == [] then Ok(None)
    else
      var found := FindRole(rows, defaults[0]);
      if found.None? then Panic else Ok(found)
  }

  /** Whatever the table held, after `set_default_role(id)` the default is the role with that id. */
  lemma DefaultRoleAfterSet(defaults: seq<RoleId>, rows: seq<Role>, role: Role)
    requires role in rows && Batch.Distinct(RoleIds(rows))
    ensures DefaultRole([role.id], rows) == Ok(Some(role))
  {
    var i :| 0 <= i < |rows| && rows[i] == role;
    FindUnique(rows, i);
  }

  lemma {:induction false} FindUnique(rows: seq<Role>, i: nat)
    requires i < |rows| && Batch.Distinct(RoleIds(rows))
    ensures FindRole(rows, rows[i].id) == Some(rows[i])
  {
    if i > 0 {
      assert RoleIds(rows)[0] != RoleIds(rows)[i];
      assert Batch.Distinct(RoleIds(rows[1..])) by {
        var t := RoleIds(rows[1..]);
        forall a, b | 0 <= a < b < |t| ensures t[a] != t[b] {
          assert t[a] == RoleIds(rows)[a + 1] && t[b] == RoleIds(rows)[b + 1];
        }
      }
      FindUnique(rows[1..], i - 1);
    }
  }

  class RoleTable {
    var rows: seq<Role>
    var cache: map<RoleId, Cached>
    var defaults: seq<RoleId>
    var links: set<(RoleId, Uuid)>
    /** The ids of the users table, which the `role_user.user_id` foreign key refers to. */
    var users: set<Uuid>

    constructor (rows0: seq<Role>, defaults0: seq<RoleId>, links0: set<(RoleId, Uuid)>, users0: set<Uuid>)
      ensures rows == rows0 && cache == map[] && defaults == defaults0 && links == links0 && users == users0
    {
      rows := rows0;
      cache := map[];
      defaults := defaults0;
      links := links0;
      users := users0;
    }

    /** `get_role` through the timed cache. */
    method GetRole(id: RoleId, now: Time) returns (r: Option<Role>)
      modifies this
      ensures (r, cache) == GetRoleSpec(old(rows), old(cache), id, now)
      ensures rows == old(rows) && defaults == old(defaults) && links == old(links) && users == old(users)
    {
      if Fresh(cache, id, now) {
        r := Some(cache[id].role);
        return;
      }
      ghost var before := cache;
      cache := cache - {id};
      r := FindRole(rows, id);
      if r.Some? {
        cache := cache[id := Cached(r.value, now)];
        assert cache == before[id := Cached(r.value, now)];
      }
    }

    /** `get_roles_by_ids`: None unless as many rows match as ids were asked for. */
    method GetRolesByIds(ids: seq<RoleId>) returns (r: Option<seq<Role>>)
      ensures r == Batch.AllOrNothing(rows, RoleKey, ids)
      ensures Batch.Distinct(RoleIds(rows)) ==>
                (r.Some? <==> Batch.Distinct(ids) && Batch.Elems(ids) <= Batch.Elems(RoleIds(rows)))
    {
      var cond := Batch.BuildCondition(ids);
      var found := Batch.Matching(rows, RoleKey, cond);
      if |found| != |ids| {
        r := None;
      } else {
        r := Some(found);
      }
      if Batch.Distinct(RoleIds(rows)) {
        Batch.AllOrNothingSpec(rows, RoleKey, ids);
      }
    }

    /** `get_role_by_title_not_sensitive`: the first role whose title ILIKE the text. */
    function GetRoleByTitleNotSensitive(title: string): (r: Option<Role>)
      reads this
      ensures r.Some? ==> r.value in rows && UserDb.ILike(r.value.title, title)
      ensures r.None? <==> forall i :: 0 <= i < |rows| ==> !UserDb.ILike(rows[i].title, title)
    {
      FirstTitle(rows, title)
    }

    /** `get_roles_by_user_with_perms`: the query is commented out and the list is always empty. */
    function GetRolesByUserWithPerms(userId: Uuid): (r: seq<(Role, seq<string>)>)
      ensures r == []
    {
      []
    }

    function GetDefaultRole(): (r: Outcome<Option<Role>>)
      reads this
      ensures r == DefaultRole(defaults, rows)
    {
      DefaultRole(defaults, rows)
    }

    /**
     * `save_role`: update or insert by id. The statement fails, and its
     * `unwrap` panics with the table unchanged, when the row breaks the
     * schema: another role already has the title, or a column is too long.
     */
    method SaveRole(role: Role) returns (panicked: bool)
      modifies this
      ensures panicked <==> Violates(old(rows), role)
      ensures rows == if panicked then old(rows) else Upsert(old(rows), role)
      ensures cache == old(cache) && defaults == old(defaults) && links == old(links) && users == old(users)
    {
      panicked := Violates(rows, role);
      if !panicked {
        rows := Upsert(rows, role);
      }
    }

    /** `set_default_role`: delete every row, then insert one. */
    method SetDefaultRole(id: RoleId)
      modifies this
      ensures defaults == [id]
      ensures rows == old(rows) && cache == old(cache) && links == old(links) && users == old(users)
    {
      defaults := [];
      defaults := defaults + [id];
    }

    /**
     * `link_role_to_user`: an insert into a table keyed by the pair whose
     * columns are foreign keys to the roles and the users, so a repeated
     * link, an unknown role and an unknown user all make the `unwrap` panic.
     */
    method LinkRoleToUser(role: RoleId, user: Uuid) returns (panicked: bool)
      modifies this
      ensures panicked <==> (role, user) in old(links) || FindRole(old(rows), role).None? || user !in old(users)
      ensures links == if panicked then old(links) else old(links) + {(role, user)}
      ensures rows == old(rows) && cache == old(cache) && defaults == old(defaults) && users == old(users)
    {
      panicked := (role, user) in links || FindRole(rows, role).None? || user !in users;
      if !panicked {
        links := links + {(role, user)};
      }
    }

    /** `unlink_role_from_user`: deletes the one matching pair, if present. */
    method UnlinkRoleFromUser(role: RoleId, user: Uuid)
      modifies this
      ensures links == old(links) - {(role, user)}
      ensures rows == old(rows) && cache == old(cache) && defaults == old(defaults) && users == old(users)
    {
      links := links - {(role, user)};
    }

    /**
     * `remove_role`: deletes the row, and with it, by the cascading foreign
     * key, every link of the role to a user; the cache is not invalidated.
     */
    method RemoveRole(id: RoleId)
      modifies this
      ensures rows == Without(old(rows), id)
      ensures links == UnlinkedRole(old(links), id)
      ensures cache == old(cache) && defaults == old(defaults) && users == old(users)
    {
      rows := Without(rows, id);
      links := UnlinkedRole(links, id);
    }
  }

  /** The roles table's constraints: `title` is unique and at most 64 long, `description` at most 255. */
  predicate Violates(rows: seq<Role>, r: Role)
  {
    || (exists i :: 0 <= i < |rows| && rows[i].id != r.id && rows[i].title == r.title)
    || |r.title| > 64
    || (r.description.Some? && |r.description.value| > 255)
  }

  /** The links left after the role's row is deleted: those of other roles. */
  function UnlinkedRole(links: set<(RoleId, Uuid)>, id: RoleId): (out: set<(RoleId, Uuid)>)
    ensures forall l :: l in out <==> l in links && l.0 != id
  {
    set l | l in links && l.0 != id
  }

  function FirstTitle(rows: seq<Role>, title: string): (r: Option<Role>)
    ensures r.Some? ==> r.value in rows && UserDb.ILike(r.value.title, title)
    ensures r.None? <==> forall i :: 0 <= i < |rows| ==> !UserDb.ILike(rows[i].title, title)
  {
    if rows == [] then None
    else if UserDb.ILike(rows[0].title, title) then Some(rows[0])
    else FirstTitle(rows[1..], title)
  }

  /** The table without the row of that id. */
  function Without(rows: seq<Role>, id: RoleId): (out: seq<Role>)
    ensures forall x :: x in out <==> x in rows && x.id != id
    ensures FindRole(out, id) == None
  {
    if rows == [] then [] else if rows[0].id == id then Without(rows[1..], id) else [rows[0]] + Without(rows[1..], id)
  }

  /** Linking then unlinking a fresh pair restores the links; unlinking never touches another pair. */
  lemma LinkUnlink(links: set<(RoleId, Uuid)>, role: RoleId, user: Uuid, other: (RoleId, Uuid))
    ensures (role, user) !in links ==> (links + {(role, user)}) - {(role, user)} == links
    ensures other != (role, user) ==> (other in links - {(role, user)} <==> other in links)
  {
  }

  /** A removed role is still served from a fresh cache entry. */
  lemma RemovedStillCached(rows: seq<Role>, cache: map<RoleId, Cached>, id: RoleId, now: Time)
    requires Fresh(cache, id, now)
    ensures GetRoleSpec(Without(rows, id), cache, id, now).0.Some?
    ensures FindRole(Without(rows, id), id).None?
  {
  }
}
