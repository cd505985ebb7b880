// Start-up creation of the roles the role files declare: the role with
// id 0 (the default role) must be among them; a role already stored is
// left exactly as it is; a new role is stored with its id and title and
// linked to one permission row per tag, found by title or created.
module Lifespan {
  import opened Common
  import opened PyCommon

  /** A role as its file declares it. */
  datatype RoleModel = RoleModel(id: int, title: string, permissions: seq<string>)

  datatype RoleRow = RoleRow(id: int, title: string)

  datatype PermissionRow = PermissionRow(id: int, title: string)

  /** The role, permission and role-permission link tables. */
  datatype Db = Db(roles: seq<RoleRow>, permissions: seq<PermissionRow>, links: seq<(int, int)>)

  const DefaultId: int := 0

  /** `role_repo.get(id=...)`: the first stored role with the id. */
  function FindRole(roles: seq<RoleRow>, id: int): (r: Option<RoleRow>)
    ensures r.Some? ==> r.value in roles && r.value.id == id
    ensures r.None? <==> forall x :: x in roles ==> x.id != id
  {
    if roles == [] then None else if roles[0].id == id then Some(roles[0]) else FindRole(roles[1..], id)
  }

  /** `permission_repo.get(title=...)`: the first stored permission with the title. */
  function FindPermission(ps: seq<PermissionRow>, title: string): (r: Option<PermissionRow>)
    ensures r.Some? ==> r.value in ps && r.value.title == title
    ensures r.None? <==> forall x :: x in ps ==> x.title != title
  {
    if ps == [] then None else if ps[0].title == title then Some(ps[0]) else FindPermission(ps[1..], title)
  }

  lemma {:induction false} FindPermissionExtends(ps: seq<PermissionRow>, qs: seq<PermissionRow>, title: string)
    requires FindPermission(ps, title).Some?
    ensures FindPermission(ps + qs, title) == FindPermission(ps, title)
  {
    if ps[0].title != title {
      assert (ps + qs)[1..] == ps[1..] + qs;
      FindPermissionExtends(ps[1..], qs, title);
    }
  }

  lemma {:induction false} FindPermissionAppended(ps: seq<PermissionRow>, p: PermissionRow)
    requires FindPermission(ps, p.title).None?
    ensures FindPermission(ps + [p], p.title) == Some(p)
  {
    if ps != [] {
      assert (ps + [p])[1..] == ps[1..] + [p];
      FindPermissionAppended(ps[1..], p);
    }
  }

  /**
   * The permission a tag links to: the stored one with that title, or a new
   * one whose id is the `made`-th id `newId` gives; and the tables and count after.
   */
  function GetOrCreate(db: Db, title: string, newId: nat -> int, made: nat): (r: (PermissionRow, Db, nat))
    ensures r.0.title == title && FindPermission(r.1.permissions, title) == Some(r.0)
    ensures r.1 == db || (r.1 == db.(permissions := db.permissions + [r.0]) && FindPermission(db.permissions, title).None?)
  {
    match FindPermission(db.permissions, title)
    case Some(p) => (p, db, made)
    case None =>
      var p := PermissionRow(newId(made), title);
      FindPermissionAppended(db.permissions, p);
      (p, db.(permissions := db.permissions + [p]), made + 1)
  }

  /** The inner loop: each tag's permission, found or created, then linked to the role. */
  function LinkTags(db: Db, roleId: int, tags: seq<string>, newId: nat -> int, made: nat): (Db, nat)
    decreases |tags|
  {
    if tags == [] then (db, made)
    else
      var (p, db1, made1) := GetOrCreate(db, tags[0], newId, made);
      LinkTags(db1.(links := db1.links + [(roleId, p.id)]), roleId, tags[1..], newId, made1)
  }

  /** One pass of the outer loop: a stored role is skipped; a new one is created and linked. */
  function Step(db: Db, m: RoleModel, newId: nat -> int, made: nat): (Db, nat)
  {
    if FindRole(db.roles, m.id).Some? then (db, made)
    else LinkTags(db.(roles := db.roles + [RoleRow(m.id, m.title)]), m.id, m.permissions, newId, made)
  }

  function InitAll(db: Db, models: seq<RoleModel>, newId: nat -> int, made: nat): (Db, nat)
    decreases |models|
  {
    if models == [] then (db, made)
    else
      var (db1, made1) := Step(db, models[0], newId, made);
      InitAll(db1, models[1..], newId, made1)
  }

  /** The role file with the default id, the search `next(...)` makes. */
  function FindModel(models: seq<RoleModel>, id: int): (r: Option<RoleModel>)
    ensures r.Some? ==> r.value in models && r.value.id == id
    ensures r.None? <==> forall m :: m in models ==> m.id != id
  {
    if models == [] then None else if models[0].id == id then Some(models[0]) else FindModel(models[1..], id)
  }

  /** `init_roles` on the tables `db`, with the role files `models` and the ids new permissions receive. */
  function InitRolesSpec(db: Db, models: seq<RoleModel>, newId: nat -> int): (Py<()>, Db)
  {
    if FindModel(models, DefaultId).None? then (Raise(FileNotFoundError), db)
    else (Return(()), InitAll(db, models, newId, 0).0)
  }

  /** Without a default role file nothing is touched; with one the run succeeds. */
  lemma DefaultRequired(db: Db, models: seq<RoleModel>, newId: nat -> int)
    ensures var (r, db') := InitRolesSpec(db, models, newId);
            && (r == Raise(FileNotFoundError) <==> forall m :: m in models ==> m.id != DefaultId)
            && (r.Raise? ==> db' == db)
            && (r.Raise? || r == Return(()))
  {
  }

  /** A role already stored makes its pass a no-op; a new role is stored with its id and title. */
  lemma StepOutcome(db: Db, m: RoleModel, newId: nat -> int, made: nat)
    ensures (exists x :: x in db.roles && x.id == m.id) ==> Step(db, m, newId, made) == (db, made)
    ensures (forall x :: x in db.roles ==> x.id != m.id) ==>
              Step(db, m, newId, made).0.roles == db.roles + [RoleRow(m.id, m.title)]
  {
    if forall x :: x in db.roles ==> x.id != m.id {
      LinkTagsFrame(db.(roles := db.roles + [RoleRow(m.id, m.title)]), m.id, m.permissions, newId, made);
    }
  }

  /** Linking tags keeps the roles, only appends permissions and links, and every new link starts at the role. */
  lemma {:induction false} LinkTagsFrame(db: Db, roleId: int, tags: seq<string>, newId: nat -> int, made: nat)
    decreases |tags|
    ensures var db' := LinkTags(db, roleId, tags, newId, made).0;
            && db'.roles == db.roles
            && |db.permissions| <= |db'.permissions| && db'.permissions[..|db.permissions|] == db.permissions
            && |db.links| <= |db'.links| && db'.links[..|db.links|] == db.links
            && forall i :: |db.links| <= i < |db'.links| ==> db'.links[i].0 == roleId
  {
    if tags != [] {
      var (p, db1, made1) := GetOrCreate(db, tags[0], newId, made);
      var db2 := db1.(links := db1.links + [(roleId, p.id)]);
      LinkTagsFrame(db2, roleId, tags[1..], newId, made1);
      var db' := LinkTags(db, roleId, tags, newId, made).0;
      assert db' == LinkTags(db2, roleId, tags[1..], newId, made1).0;
      assert db'.permissions[..|db.permissions|] == db2.permissions[..|db.permissions|];
      assert db'.links[..|db.links|] == db2.links[..|db.links|];
    }
  }

  /**
   * After a new role's pass, every tag of it names a permission row, the
   * first one with that title, and the role is linked to that row: roles
   * with the same tag share one row.
   */
  lemma {:induction false} LinkTagsCovers(db: Db, roleId: int, tags: seq<string>, newId: nat -> int, made: nat)
    decreases |tags|
    ensures var db' := LinkTags(db, roleId, tags, newId, made).0;
            forall t :: t in tags ==> FindPermission(db'.permissions, t).Some? &&
                                      (roleId, FindPermission(db'.permissions, t).value.id) in db'.links
  {
    if tags != [] {
      var (p, db1, made1) := GetOrCreate(db, tags[0], newId, made);
      var db2 := db1.(links := db1.links + [(roleId, p.id)]);
      var db' := LinkTags(db, roleId, tags, newId, made).0;
      assert db' == LinkTags(db2, roleId, tags[1..], newId, made1).0;
      LinkTagsCovers(db2, roleId, tags[1..], newId, made1);
      LinkTagsFrame(db2, roleId, tags[1..], newId, made1);
      assert db'.permissions == db2.permissions + db'.permissions[|db2.permissions|..];
      FindPermissionExtends(db2.permissions, db'.permissions[|db2.permissions|..], tags[0]);
      assert db'.links[|db2.links| - 1] == (roleId, p.id);
      forall t | t in tags
        ensures FindPermission(db'.permissions, t).Some? && (roleId, FindPermission(db'.permissions, t).value.id) in db'.links
      {
        if t != tags[0] {
          assert t in tags[1..];
        }
      }
    }
  }

  /** No two permission rows share a title. */
  predicate UniqueTitles(ps: seq<PermissionRow>)
  {
    forall i, j :: 0 <= i < j < |ps| ==> ps[i].title != ps[j].title
  }

  /** Get-or-create by title never stores a second row for a title. */
  lemma {:induction false} LinkTagsKeepsTitlesUnique(db: Db, roleId: int, tags: seq<string>, newId: nat -> int, made: nat)
    requires UniqueTitles(db.permissions)
    decreases |tags|
    ensures UniqueTitles(LinkTags(db, roleId, tags, newId, made).0.permissions)
  {
    if tags != [] {
      var (p, db1, made1) := GetOrCreate(db, tags[0], newId, made);
      assert UniqueTitles(db1.permissions) by {
        if db1 != db {
          forall i | 0 <= i < |db.permissions| ensures db1.permissions[i].title != p.title {
            assert db.permissions[i] in db.permissions;
          }
        }
      }
      LinkTagsKeepsTitlesUnique(db1.(links := db1.links + [(roleId, p.id)]), roleId, tags[1..], newId, made1);
    }
  }

  /** The whole run leaves the links of every role stored beforehand as they were. */
  lemma {:induction false} StoredRolesUntouched(db: Db, models: seq<RoleModel>, newId: nat -> int, made: nat, rid: int)
    requires exists x :: x in db.roles && x.id == rid
    decreases |models|
    ensures var db' := InitAll(db, models, newId, made).0;
            && (exists x :: x in db'.roles && x.id == rid)
            && |db.links| <= |db'.links| && db'.links[..|db.links|] == db.links
            && forall i :: |db.links| <= i < |db'.links| ==> db'.links[i].0 != rid
  {
    if models != [] {
      var m := models[0];
      var (db1, made1) := Step(db, m, newId, made);
      var x :| x in db.roles && x.id == rid;
      if FindRole(db.roles, m.id).None? {
        var db0 := db.(roles := db.roles + [RoleRow(m.id, m.title)]);
        LinkTagsFrame(db0, m.id, m.permissions, newId, made);
        assert x in db1.roles;
        assert m.id != rid;
      }
      assert x in db1.roles;
      StoredRolesUntouched(db1, models[1..], newId, made1, rid);
      var db' := InitAll(db, models, newId, made).0;
      assert db' == InitAll(db1, models[1..], newId, made1).0;
      assert db1.links[..|db.links|] == db.links && forall i :: |db.links| <= i < |db1.links| ==> db1.links[i].0 != rid;
      assert db'.links[..|db.links|] == db1.links[..|db.links|];
      forall i | |db.links| <= i < |db'.links| ensures db'.links[i].0 != rid {
        if i < |db1.links| {
          assert db'.links[i] == db'.links[..|db1.links|][i] == db1.links[i];
        }
      }
    }
  }

  /** The tables behind the role and permission repositories. */
  class RoleStore {
    var roles: seq<RoleRow>
    var permissions: seq<PermissionRow>
    var links: seq<(int, int)>

    constructor (db: Db)
      ensures Contents() == db
    {
      roles, permissions, links := db.roles, db.permissions, db.links;
    }

    function Contents(): Db
      reads this
    {
      Db(roles, permissions, links)
    }

    method CreateRole(id: int, title: string)
      modifies this
      ensures Contents() == old(Contents()).(roles := old(roles) + [RoleRow(id, title)])
    {
      roles := roles + [RoleRow(id, title)];
    }

    method CreatePermission(id: int, title: string) returns (p: PermissionRow)
      modifies this
      ensures p == PermissionRow(id, title)
      ensures Contents() == old(Contents()).(permissions := old(permissions) + [p])
    {
      p := PermissionRow(id, title);
      permissions := permissions + [p];
    }

    method AddLink(roleId: int, permissionId: int)
      modifies this
      ensures Contents() == old(Contents()).(links := old(links) + [(roleId, permissionId)])
    {
      links := links + [(roleId, permissionId)];
    }
  }

  /** The inner loop of `init_roles` for one new role: get or create each tag's permission, then link it. */
  method LinkPermissions(store: RoleStore, roleId: int, tags: seq<string>, newId: nat -> int, made0: nat)
    returns (made: nat)
    modifies store
    ensures (store.Contents(), made) == LinkTags(old(store.Contents()), roleId, tags, newId, made0)
  {
    ghost var db0 := store.Contents();
    made := made0;
    var j := 0;
    while j < |tags|
      invariant 0 <= j <= |tags|
      invariant LinkTags(store.Contents(), roleId, tags[j..], newId, made) == LinkTags(db0, roleId, tags, newId, made0)
    {
      var tag := tags[j];
      assert tags[j..][1..] == tags[j + 1..];
      ghost var before := store.Contents();
      ghost var madeBefore := made;
      var p: PermissionRow;
      var found := FindPermission(store.permissions, tag);
      if found.Some? {
        p := found.value;
      } else {
        p := store.CreatePermission(newId(made), tag);
        made := made + 1;
      }
      assert (p, store.Contents(), made) == GetOrCreate(before, tag, newId, madeBefore);
      store.AddLink(roleId, p.id);
      j := j + 1;
    }
  }

  /** `init_roles`: `newId(n)` is the id the database gives the n-th permission created in this run. */
  method InitRoles(store: RoleStore, models: seq<RoleModel>, newId: nat -> int) returns (r: Py<()>)
    modifies store
    ensures (r, store.Contents()) == InitRolesSpec(old(store.Contents()), models, newId)
  {
    if FindModel(models, DefaultId).None? {
      return Raise(FileNotFoundError);
    }
    ghost var db0 := store.Contents();
    var made: nat := 0;
    var i := 0;
    while i < |models|
      invariant 0 <= i <= |models|
      invariant InitAll(store.Contents(), models[i..], newId, made) == InitAll(db0, models, newId, 0)
    {
      var m := models[i];
      assert models[i..][1..] == models[i + 1..];
      ghost var before := store.Contents();
      ghost var madeBefore := made;
      if FindRole(store.roles, m.id).None? {
        store.CreateRole(m.id, m.title);
        made := LinkPermissions(store, m.id, m.permissions, newId, made);
      }
      assert (store.Contents(), made) == Step(before, m, newId, madeBefore);
      i := i + 1;
    }
    return Return(());
  }
}
