// Start-up work: registering the service's own permission catalogue, and the
// one-time creation of the "control" account. The control account is guarded
// by the init-state sentinel and writes permissions, a role, their links, a
// user with a generated password, the user's role link and, last, the
// sentinel. Random draws are parameters; the password hash is a function
// parameter.
module Initial {
  import opened Common
  import ServiceSync
  import RoleDb
  import UserService
  import Validator
  import Text

  // ---- the catalogue -------------------------------------------------------------------

  /**
   * The permission names `UMSPermission::iter()` yields: the declared
   * variants in declaration order, then the variants the control grant list
   * uses beyond them, in the order it first uses them.
   */
  const Catalogue: seq<string> := [
    "GetUserSelf", "GetUser", "CreateUser", "UpdateUser", "UpdateUserSelf", "DeleteUser",
    "GetSessionSelf", "GetSession", "CreateSession", "UpdateSession", "DeleteSession", "DeleteSessionSelf",
    "GetRoleSelf", "GetRole", "CreateRole", "UpdateRole", "DeleteRole",
    "SetDefaultRole", "GetDefaultRole", "CreatePermission", "GetPermission", "UpdatePermission",
    "DeletePermission", "LinkRolePermission", "UnlinkRolePermission", "GetService"]

  /**
   * The gateway's `Option` answer for a service's permissions: the store
   * model answers None when the service has none.
   */
  function Listed(perms: seq<ServiceSync.Permission>, serviceId: Uuid): (r: Option<seq<ServiceSync.Permission>>)
    ensures r.Some? ==> r.value == ServiceSync.OfService(perms, serviceId) && r.value != []
    ensures r.None? ==> ServiceSync.OfService(perms, serviceId) == []
  {
    var ps := ServiceSync.OfService(perms, serviceId);
    if ps == [] then None else Some(ps)
  }

  /** `unwrap_or_default` on a list. */
  function OrEmpty<T>(o: Option<seq<T>>): (r: seq<T>)
    ensures o.None? ==> r == []
    ensures o.Some? ==> r == o.value
  {
    match o
    case Some(v) => v
    case None => []
  }

  /** The service and permission tables after `service_permissions`. */
  function ServicePermissionsSpec(services: seq<ServiceSync.Service>, perms: seq<ServiceSync.Permission>,
                                  name: string, newId: Uuid, ids: seq<Uuid>)
    : (seq<ServiceSync.Service>, seq<ServiceSync.Permission>)
    requires |ids| >= |Catalogue|
  {
    var (service, services') := ServiceSync.Resolve(services, name, newId);
    var names := ServiceSync.ToAdd(Catalogue, ServiceSync.TextIds(OrEmpty(Listed(perms, service.id))));
    (services', perms + ServiceSync.NewPermissions(names, ids, service.id))
  }

  /**
   * `service_permissions` is the service sync run with the catalogue: a
   * missing permission list counts as an empty one, so exactly the
   * catalogue names the service lacks are inserted.
   */
  lemma CatalogueSync(services: seq<ServiceSync.Service>, perms: seq<ServiceSync.Permission>,
                      name: string, newId: Uuid, ids: seq<Uuid>)
    requires |ids| >= |Catalogue|
    ensures ServicePermissionsSpec(services, perms, name, newId, ids)
            == ServiceSync.SyncSpec(services, perms, name, newId, ids, Catalogue)
  {
    var service := ServiceSync.Resolve(services, name, newId).0;
    assert OrEmpty(Listed(perms, service.id)) == ServiceSync.OfService(perms, service.id);
  }

  /** `service_permissions`, on the store of the service sync. */
  method ServicePermissions(g: ServiceSync.ServiceStore, name: string, newId: Uuid, ids: seq<Uuid>)
    requires |ids| >= |Catalogue|
    modifies g
    ensures (g.services, g.permissions) == ServicePermissionsSpec(old(g.services), old(g.permissions), name, newId, ids)
  {
    var service: ServiceSync.Service;
    var found := g.GetServicesByTextId(name);
    match found {
      case Some(s) => service := s;
      case None =>
        service := ServiceSync.Service(newId, name, name, None);
        g.SaveService(service);
    }
    var fromRepo := ServiceSync.TextIds(OrEmpty(Listed(g.permissions, service.id)));
    var toAdd := ServiceSync.NewPermissions(ServiceSync.ToAdd(Catalogue, fromRepo), ids, service.id);
    g.SavePermissions(toAdd);
  }

  // ---- the control password --------------------------------------------------------------

  /** `gen_range('0'..'9')`: the end is excluded, so a digit 0 to 8. */
  function Digit(roll: nat): (c: char)
    ensures '0' <= c <= '8'
  {
    (('0' as int) + roll % 9) as char
  }

  /** `gen_range('A'..'Z')`: a capital A to Y. */
  function Capital(roll: nat): (c: char)
    ensures 'A' <= c <= 'Y'
  {
    (('A' as int) + roll % 25) as char
  }

  /** A draw from `Alphanumeric`: the 62 characters A-Z, a-z, 0-9, in that order. */
  function Alnum(roll: nat): (c: char)
    ensures Validator.IsAsciiLetter(c) || Validator.IsAsciiDigit(c)
  {
    var k := roll % 62;
    if k < 26 then (('A' as int) + k) as char
    else if k < 52 then (('a' as int) + (k - 26)) as char
    else (('0' as int) + (k - 52)) as char
  }

  /** The password before shuffling: two digits, two capitals, eight alphanumerics. */
  function Unshuffled(d0: nat, d1: nat, c0: nat, c1: nat, alnum: seq<nat>): (s: string)
    requires |alnum| == 8
    ensures |s| == 12
    ensures '0' <= s[0] <= '8' && '0' <= s[1] <= '8' && 'A' <= s[2] <= 'Y' && 'A' <= s[3] <= 'Y'
    ensures forall i :: 4 <= i < 12 ==> Validator.IsAsciiLetter(s[i]) || Validator.IsAsciiDigit(s[i])
  {
    [Digit(d0), Digit(d1), Capital(c0), Capital(c1)] + seq(8, i requires 0 <= i < 8 => Alnum(alnum[i]))
  }

  function Swap(s: string, i: nat, j: nat): (t: string)
    requires i < |s| && j < |s|
    ensures |t| == |s| && multiset(t) == multiset(s)
  {
    s[i := s[j]][j := s[i]]
  }

  /**
   * `shuffle`: for i from the top index down to 1, swap position i with a
   * position drawn from 0..=i. `swaps[i - 1]` is the draw for position i.
   */
  function Shuffle(s: string, swaps: seq<nat>, i: nat): (t: string)
    requires i < |s| && |swaps| >= i
    ensures |t| == |s| && multiset(t) == multiset(s)
    decreases i
  {
    if i == 0 then s else Shuffle(Swap(s, i, swaps[i - 1] % (i + 1)), swaps, i - 1)
  }

  /** The password the draws produce. */
  function Password(d0: nat, d1: nat, c0: nat, c1: nat, alnum: seq<nat>, swaps: seq<nat>): (p: string)
    requires |alnum| == 8 && |swaps| == 11
    ensures |p| == 12 && multiset(p) == multiset(Unshuffled(d0, d1, c0, c1, alnum))
  {
    var u := Unshuffled(d0, d1, c0, c1, alnum);
    Shuffle(u, swaps, |u| - 1)
  }

  /**
   * Whatever the draws and the shuffle, the characters are those of the
   * unshuffled password, so the result passes the password validator: it is
   * 12 ASCII characters, with a digit, a letter and no whitespace.
   */
  lemma PasswordIsValid(p: string, u: string)
    requires |u| == 12 && multiset(p) == multiset(u)
    requires '0' <= u[0] <= '8' && 'A' <= u[2] <= 'Y'
    requires forall i :: 0 <= i < 12 ==> Validator.IsAsciiLetter(u[i]) || Validator.IsAsciiDigit(u[i])
    ensures Validator.ValidatePassword(p) == Validator.Pass
  {
    assert |p| == |multiset(p)| == |multiset(u)| == 12;
    forall i | 0 <= i < |p| ensures Validator.IsAsciiLetter(p[i]) || Validator.IsAsciiDigit(p[i]) {
      assert p[i] in multiset(u);
    }
    Validator.AsciiTextLen(p);
    assert u[0] in multiset(p) && u[2] in multiset(p);
    var i :| 0 <= i < |p| && p[i] == u[0];
    var j :| 0 <= j < |p| && p[j] == u[2];
    assert Validator.IsNumeric(p[i]) && Validator.IsAlphabetic(p[j]);
    assert !Validator.Any(p, Validator.IsWhitespace);
  }

  /** Any shuffle of the drawn characters satisfies `validate_password`. */
  lemma ShuffledPasswordIsValid(p: string, d0: nat, d1: nat, c0: nat, c1: nat, alnum: seq<nat>)
    requires |alnum| == 8 && multiset(p) == multiset(Unshuffled(d0, d1, c0, c1, alnum))
    ensures |p| == 12
    ensures Validator.ValidatePassword(p) == Validator.Pass
  {
    var u := Unshuffled(d0, d1, c0, c1, alnum);
    assert |p| == |multiset(p)| == |multiset(u)|;
    forall i | 0 <= i < 12 ensures Validator.IsAsciiLetter(u[i]) || Validator.IsAsciiDigit(u[i]) {
      if i < 2 {
        assert Validator.IsAsciiDigit(u[i]);
      } else if i < 4 {
        assert Validator.IsAsciiLetter(u[i]);
      }
    }
    PasswordIsValid(p, u);
  }

  /** `shuffle` on a buffer, in place. */
  method ShuffleInPlace(a: array<char>, swaps: seq<nat>)
    requires a.Length >= 1 && |swaps| >= a.Length - 1
    modifies a
    ensures a[..] == Shuffle(old(a[..]), swaps, a.Length - 1)
  {
    var i := a.Length - 1;
    while i > 0
      invariant 0 <= i <= a.Length - 1
      invariant Shuffle(a[..], swaps, i) == Shuffle(old(a[..]), swaps, a.Length - 1)
    {
      var j := swaps[i - 1] % (i + 1);
      assert Swap(a[..], i, j) == a[..][i := a[j]][j := a[i]];
      a[i], a[j] := a[j], a[i];
      i := i - 1;
    }
  }

  /** The generated password always satisfies `validate_password`. */
  lemma GeneratedPasswordIsValid(d0: nat, d1: nat, c0: nat, c1: nat, alnum: seq<nat>, swaps: seq<nat>)
    requires |alnum| == 8 && |swaps| == 11
    ensures Validator.ValidatePassword(Password(d0, d1, c0, c1, alnum, swaps)) == Validator.Pass
  {
    ShuffledPasswordIsValid(Password(d0, d1, c0, c1, alnum, swaps), d0, d1, c0, c1, alnum);
  }

  /** The buffer of drawn characters, before the shuffle. */
  method DrawCharacters(d0: nat, d1: nat, c0: nat, c1: nat, alnum: seq<nat>) returns (a: array<char>)
    requires |alnum| == 8
    ensures fresh(a) && a[..] == Unshuffled(d0, d1, c0, c1, alnum)
  {
    a := new char[12];
    a[0], a[1], a[2], a[3] := Digit(d0), Digit(d1), Capital(c0), Capital(c1);
    var k := 0;
    while k < 8
      invariant 0 <= k <= 8
      invariant a[..4] == [Digit(d0), Digit(d1), Capital(c0), Capital(c1)]
      invariant forall m :: 0 <= m < k ==> a[4 + m] == Alnum(alnum[m])
    {
      a[4 + k] := Alnum(alnum[k]);
      k := k + 1;
    }
  }

  /** The password: the drawn characters, shuffled in place. */
  method GeneratePassword(d0: nat, d1: nat, c0: nat, c1: nat, alnum: seq<nat>, swaps: seq<nat>)
    returns (password: string)
    requires |alnum| == 8 && |swaps| == 11
    ensures password == Password(d0, d1, c0, c1, alnum, swaps)
  {
    var a := DrawCharacters(d0, d1, c0, c1, alnum);
    ghost var u := a[..];
    ShuffleInPlace(a, swaps);
    password := a[..];
    assert password == Shuffle(u, swaps, a.Length - 1);
    assert a.Length - 1 == |u| - 1;
  }

  // ---- the control account ----------------------------------------------------------------

  const ControlRole := "Control"
  const ControlRoleDescription := "Временная роль для инициализации системы"
  const ControlUsername := "control"
  const ControlEmail := "control@milkhunters.ru"

  /** The permissions the control role is granted; DeleteUser is listed twice. */
  const Grants: seq<string> := [
    "GetUserSelf",
    "GetUser", "CreateUser", "UpdateUser", "DeleteUser",
    "DeleteUser", "CreateRole", "GetRole", "UpdateRole", "DeleteRole",
    "SetDefaultRole", "GetDefaultRole",
    "CreatePermission", "GetPermission", "UpdatePermission", "DeletePermission",
    "LinkRolePermission", "UnlinkRolePermission",
    "GetService",
    "DeleteSessionSelf"]

  /** Twenty entries naming nineteen permissions: the one repeat is DeleteUser. */
  lemma GrantsRepeatDeleteUser()
    ensures |Grants| == 20
    ensures Grants[4] == Grants[5] == "DeleteUser"
    ensures forall i, j :: 0 <= i < j < 20 && Grants[i] == Grants[j] ==> i == 4 && j == 5
    ensures forall g :: g in Grants ==> g in Catalogue
  {
  }

  /** One gateway write of the bootstrap. */
  datatype Write =
    | SavePermissions(permissions: seq<ServiceSync.Permission>)
    | SaveRole(role: RoleDb.Role)
    | LinkPermissionsToRole(roleId: Uuid, permissionIds: seq<Uuid>)
    | SaveUser(user: User)
    | LinkRoleToUser(linkedRole: Uuid, linkedUser: Uuid)
    | SetState(at: Time)

  function PermissionIds(ps: seq<ServiceSync.Permission>): (r: seq<Uuid>)
    ensures |r| == |ps| && forall i :: 0 <= i < |ps| ==> r[i] == ps[i].id
  {
    if ps == [] then [] else [ps[0].id] + PermissionIds(ps[1..])
  }

  /** The first three writes: the granted permissions, the role, and the role's links to them. */
  function RoleWrites(serviceId: Uuid, roleId: Uuid, permIds: seq<Uuid>): seq<Write>
    requires |permIds| >= |Grants|
  {
    var role := RoleDb.Role(roleId, ControlRole, Some(ControlRoleDescription), Epoch, None);
    var permissions := ServiceSync.NewPermissions(Grants, permIds, serviceId);
    [SavePermissions(permissions), SaveRole(role), LinkPermissionsToRole(roleId, PermissionIds(permissions))]
  }

  /** The last three writes: the control user, its role link, and the sentinel. */
  function UserWrites(roleId: Uuid, userId: Uuid, passwordHash: string, now: Time): seq<Write>
  {
    var user := UserService.CreateUser(userId, ControlUsername, ControlEmail, passwordHash, None, None);
    [SaveUser(user), LinkRoleToUser(roleId, userId), SetState(now)]
  }

  /**
   * The writes of `control_account`, or a panic when the service is not
   * registered. `create_role` is not part of this model: the role has the
   * given id, the fixed title and description, and the default timestamps.
   */
  function ControlSpec(services: seq<ServiceSync.Service>, initState: Option<Time>, name: string,
                       roleId: Uuid, permIds: seq<Uuid>, userId: Uuid, passwordHash: string, now: Time)
    : (r: Outcome<seq<Write>>)
    requires |permIds| >= |Grants|
  {
    match ServiceSync.FindService(services, name)
    case None => Panic
    case Some(service) =>
      if initState.Some? then Ok([])
      else Ok(RoleWrites(service.id, roleId, permIds) + UserWrites(roleId, userId, passwordHash, now))
  }

  /** A missing service panics, before the sentinel is looked at. */
  lemma MissingServicePanics(services: seq<ServiceSync.Service>, initState: Option<Time>, name: string,
                             roleId: Uuid, permIds: seq<Uuid>, userId: Uuid, passwordHash: string, now: Time)
    requires |permIds| >= |Grants|
    ensures ControlSpec(services, initState, name, roleId, permIds, userId, passwordHash, now) == Panic
            <==> forall s :: s in services ==> s.textId != name
  {
  }

  /** With the service registered, a set sentinel means nothing is written. */
  lemma SentinelStops(services: seq<ServiceSync.Service>, at: Time, name: string,
                      roleId: Uuid, permIds: seq<Uuid>, userId: Uuid, passwordHash: string, now: Time)
    requires |permIds| >= |Grants|
    requires exists s :: s in services && s.textId == name
    ensures ControlSpec(services, Some(at), name, roleId, permIds, userId, passwordHash, now) == Ok([])
  {
  }

  /**
   * Without the sentinel the writes are, in order: the granted permissions,
   * the role "Control", the role's links to exactly those permissions, the
   * active "control" user with the password hash, the user's link to the role,
   * and the sentinel last.
   */
  lemma WriteOrder(services: seq<ServiceSync.Service>, name: string,
                   roleId: Uuid, permIds: seq<Uuid>, userId: Uuid, passwordHash: string, now: Time)
    requires |permIds| >= |Grants|
    requires exists s :: s in services && s.textId == name
    ensures var r := ControlSpec(services, None, name, roleId, permIds, userId, passwordHash, now);
            && r.Ok? && |r.value| == 6
            && r.value[0].SavePermissions? && |r.value[0].permissions| == 20
            && (forall i :: 0 <= i < 20 ==>
                  r.value[0].permissions[i].textId == Grants[i] && r.value[0].permissions[i].id == permIds[i])
            && r.value[1].SaveRole? && r.value[1].role.id == roleId && r.value[1].role.title == "Control"
            && r.value[2] == LinkPermissionsToRole(roleId, permIds[..20])
            && r.value[3].SaveUser? && r.value[3].user.id == userId
            && r.value[3].user.username == "control" && r.value[3].user.state == Active
            && r.value[3].user.hashedPassword == passwordHash
            && r.value[4] == LinkRoleToUser(roleId, userId)
            && r.value[5] == SetState(now)
  {
    var r := ControlSpec(services, None, name, roleId, permIds, userId, passwordHash, now);
    var service := ServiceSync.FindService(services, name).value;
    var ps := ServiceSync.NewPermissions(Grants, permIds, service.id);
    assert PermissionIds(ps) == permIds[..20];
  }

  /** The gateways `control_account` reads and writes: the services, the sentinel, and the writes made. */
  class InitGateways {
    var services: seq<ServiceSync.Service>
    var initState: Option<Time>
    var writes: seq<Write>

    constructor (services0: seq<ServiceSync.Service>, initState0: Option<Time>)
      ensures services == services0 && initState == initState0 && writes == []
    {
      services, initState, writes := services0, initState0, [];
    }

    method Record(w: Write)
      modifies this
      ensures writes == old(writes) + [w]
      ensures services == old(services) && initState == old(initState)
    {
      writes := writes + [w];
    }

    method SetInitState(now: Time)
      modifies this
      ensures writes == old(writes) + [SetState(now)] && initState == Some(now)
      ensures services == old(services)
    {
      writes := writes + [SetState(now)];
      initState := Some(now);
    }
  }

  lemma AppendAssoc<T>(a: seq<T>, b: seq<T>, c: seq<T>)
    ensures (a + b) + c == a + (b + c)
  {
  }

  method SaveControlRole(g: InitGateways, serviceId: Uuid, roleId: Uuid, permIds: seq<Uuid>)
    requires |permIds| >= |Grants|
    modifies g
    ensures g.writes == old(g.writes) + RoleWrites(serviceId, roleId, permIds)
    ensures g.services == old(g.services) && g.initState == old(g.initState)
  {
    var role := RoleDb.Role(roleId, ControlRole, Some(ControlRoleDescription), Epoch, None);
    var permissions := ServiceSync.NewPermissions(Grants, permIds, serviceId);
    g.Record(SavePermissions(permissions));
    g.Record(SaveRole(role));
    g.Record(LinkPermissionsToRole(roleId, PermissionIds(permissions)));
  }

  method SaveControlUser(g: InitGateways, roleId: Uuid, userId: Uuid, passwordHash: string, now: Time)
    modifies g
    ensures g.writes == old(g.writes) + UserWrites(roleId, userId, passwordHash, now)
    ensures g.services == old(g.services) && g.initState == Some(now)
  {
    var user := UserService.CreateUser(userId, ControlUsername, ControlEmail, passwordHash, None, None);
    g.Record(SaveUser(user));
    g.Record(LinkRoleToUser(roleId, userId));
    g.SetInitState(now);
  }

  /** `control_account`; the outcome is Panic exactly when the service is missing. */
  method ControlAccount(g: InitGateways, name: string, roleId: Uuid, permIds: seq<Uuid>, userId: Uuid,
                        d0: nat, d1: nat, c0: nat, c1: nat, alnum: seq<nat>, swaps: seq<nat>,
                        hash: string -> string, now: Time)
    returns (r: Outcome<()>)
    requires |permIds| >= |Grants| && |alnum| == 8 && |swaps| == 11
    modifies g
    ensures var spec := ControlSpec(old(g.services), old(g.initState), name, roleId, permIds, userId,
                                    hash(Password(d0, d1, c0, c1, alnum, swaps)), now);
            && (r.Panic? <==> spec.Panic?)
            && (spec.Ok? ==> r == Ok(()) && g.writes == old(g.writes) + spec.value)
            && (spec.Panic? ==> g.writes == old(g.writes))
            && g.initState == (if spec.Ok? && old(g.initState).None? then Some(now) else old(g.initState))
    ensures g.services == old(g.services)
  {
    ghost var hashed := hash(Password(d0, d1, c0, c1, alnum, swaps));
    ghost var spec := ControlSpec(g.services, g.initState, name, roleId, permIds, userId, hashed, now);
    var found := ServiceSync.FindService(g.services, name);
    if found.None? {
      assert spec == Panic;
      return Panic;
    }
    var serviceId := found.value.id;
    if g.initState.Some? {
      assert spec == Ok([]);
      return Ok(());
    }
    ghost var before := g.writes;
    SaveControlRole(g, serviceId, roleId, permIds);
    var password := GeneratePassword(d0, d1, c0, c1, alnum, swaps);
    SaveControlUser(g, roleId, userId, hash(password), now);
    ghost var rw, uw := RoleWrites(serviceId, roleId, permIds), UserWrites(roleId, userId, hashed, now);
    assert g.writes == (before + rw) + uw;
    AppendAssoc(before, rw, uw);
    assert spec.value == rw + uw;
    return Ok(());
  }
}
