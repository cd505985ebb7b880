// Registering a service's permissions: find the service by its text id,
// creating it when it is missing, then insert the declared permission
// names the service does not have yet. The names are filtered, not
// deduplicated, and nothing already stored is touched.
module ServiceSync {
  import opened Common

  datatype Service = Service(id: Uuid, textId: string, title: string, description: Option<string>)

  datatype Permission = Permission(id: Uuid, textId: string, serviceId: Uuid, title: string,
                                   description: Option<string>)

  /** The first service with the text id, the lookup `get_services_by_text_id` makes. */
  function FindService(services: seq<Service>, textId: string): (r: Option<Service>)
    ensures r.Some? ==> r.value in services && r.value.textId == textId
    ensures r.None? <==> forall s :: s in services ==> s.textId != textId
  {
    if services == [] then None
    else if services[0].textId == textId then Some(services[0])
    else FindService(services[1..], textId)
  }

  lemma {:induction false} FindServiceAppend(services: seq<Service>, s: Service)
    requires FindService(services, s.textId).None?
    ensures FindService(services + [s], s.textId) == Some(s)
  {
    if services == [] {
      assert services + [s] == [s];
    } else {
      assert (services + [s])[1..] == services[1..] + [s];
      FindServiceAppend(services[1..], s);
    }
  }

  /**
   * The service the sync works on, and the service table afterwards: the one
   * found, or a new one whose text id and title are both the given id.
   */
  function Resolve(services: seq<Service>, textId: string, newId: Uuid): (r: (Service, seq<Service>))
    ensures FindService(services, textId).Some? ==> r == (FindService(services, textId).value, services)
    ensures FindService(services, textId).None? ==>
              r.0 == Service(newId, textId, textId, None) && r.1 == services + [r.0]
    ensures FindService(r.1, textId) == Some(r.0)
  {
    match FindService(services, textId)
    case Some(s) => (s, services)
    case None =>
      var s := Service(newId, textId, textId, None);
      FindServiceAppend(services, s);
      (s, services + [s])
  }

  /** The permissions of one service, in table order (`get_permissions_by_service_id`). */
  function OfService(perms: seq<Permission>, serviceId: Uuid): (r: seq<Permission>)
    ensures forall p :: p in r <==> p in perms && p.serviceId == serviceId
  {
    if perms == [] then []
    else (if perms[0].serviceId == serviceId then [perms[0]] else []) + OfService(perms[1..], serviceId)
  }

  function TextIds(ps: seq<Permission>): (r: seq<string>)
    ensures |r| == |ps| && forall i :: 0 <= i < |ps| ==> r[i] == ps[i].textId
  {
    if ps == [] then [] else [ps[0].textId] + TextIds(ps[1..])
  }

  /**
   * The declared names that are not registered yet, in declared order: a
   * name is kept as often as it is declared, and a registered name never.
   */
  function ToAdd(declared: seq<string>, existing: seq<string>): (r: seq<string>)
    ensures |r| <= |declared|
    ensures forall t :: t in r <==> t in declared && t !in existing
    ensures forall t :: t !in existing ==> multiset(r)[t] == multiset(declared)[t]
    ensures forall t :: t in existing ==> multiset(r)[t] == 0
  {
    if declared == [] then []
    else
      var rest := ToAdd(declared[1..], existing);
      assert declared == [declared[0]] + declared[1..];
      if declared[0] in existing then rest else [declared[0]] + rest
  }

  /** `Permission::new(name, service, name, None)` for each name, with the fresh ids given. */
  function NewPermissions(names: seq<string>, ids: seq<Uuid>, serviceId: Uuid): (r: seq<Permission>)
    requires |ids| >= |names|
    ensures |r| == |names|
    ensures forall i :: 0 <= i < |r| ==> r[i] == Permission(ids[i], names[i], serviceId, names[i], None)
  {
    if names == [] then [] else [Permission(ids[0], names[0], serviceId, names[0], None)]
                                 + NewPermissions(names[1..], ids[1..], serviceId)
  }

  /** The service and permission tables after `ServiceSync::execute`. */
  function SyncSpec(services: seq<Service>, perms: seq<Permission>, textId: string, newId: Uuid,
                    ids: seq<Uuid>, declared: seq<string>): (seq<Service>, seq<Permission>)
    requires |ids| >= |declared|
  {
    var (service, services') := Resolve(services, textId, newId);
    var names := ToAdd(declared, TextIds(OfService(perms, service.id)));
    (services', perms + NewPermissions(names, ids, service.id))
  }

  /**
   * The permission table only grows: every stored permission stays where it
   * was, and each added one is a declared name the resolved service did not
   * have, with that name as text id and title and no description.
   */
  lemma OnlyNewInserted(services: seq<Service>, perms: seq<Permission>, textId: string, newId: Uuid,
                        ids: seq<Uuid>, declared: seq<string>)
    requires |ids| >= |declared|
    ensures var (services', perms') := SyncSpec(services, perms, textId, newId, ids, declared);
            var service := Resolve(services, textId, newId).0;
            && |perms'| >= |perms| && perms'[..|perms|] == perms
            && (forall i :: |perms| <= i < |perms'| ==>
                  && perms'[i].textId in declared
                  && perms'[i].textId !in TextIds(OfService(perms, service.id))
                  && perms'[i].serviceId == service.id
                  && perms'[i].title == perms'[i].textId
                  && perms'[i].description == None)
  {
    var (services', perms') := SyncSpec(services, perms, textId, newId, ids, declared);
    var service := Resolve(services, textId, newId).0;
    var names := ToAdd(declared, TextIds(OfService(perms, service.id)));
    var added := NewPermissions(names, ids, service.id);
    assert perms' == perms + added;
    forall i | |perms| <= i < |perms'|
      ensures perms'[i].textId in declared && perms'[i].textId !in TextIds(OfService(perms, service.id))
    {
      assert perms'[i] == added[i - |perms|];
      assert names[i - |perms|] in names;
    }
  }

  /** A missing service is created with its text id as title; an existing one is left alone. */
  lemma ServiceCreatedOnce(services: seq<Service>, perms: seq<Permission>, textId: string, newId: Uuid,
                           ids: seq<Uuid>, declared: seq<string>)
    requires |ids| >= |declared|
    ensures var services' := SyncSpec(services, perms, textId, newId, ids, declared).0;
            && ((forall s :: s in services ==> s.textId != textId) ==>
                  services' == services + [Service(newId, textId, textId, None)])
            && ((exists s :: s in services && s.textId == textId) ==> services' == services)
  {
  }

  /** When every declared name is registered, there is nothing to add. */
  lemma {:induction false} NothingWhenCovered(declared: seq<string>, existing: seq<string>)
    requires forall t :: t in declared ==> t in existing
    ensures ToAdd(declared, existing) == []
  {
    if declared != [] {
      assert declared[0] in declared;
      forall t | t in declared[1..] ensures t in existing {
        assert t in declared;
      }
      NothingWhenCovered(declared[1..], existing);
    }
  }

  lemma TextIdOfMember(ps: seq<Permission>, p: Permission)
    requires p in ps
    ensures p.textId in TextIds(ps)
  {
    var k :| 0 <= k < |ps| && ps[k] == p;
    assert TextIds(ps)[k] == p.textId;
  }

  /** After a run, every declared name is registered under the service. */
  lemma DeclaredCovered(perms: seq<Permission>, serviceId: Uuid, ids: seq<Uuid>, declared: seq<string>)
    requires |ids| >= |declared|
    ensures var names := ToAdd(declared, TextIds(OfService(perms, serviceId)));
            var perms1 := perms + NewPermissions(names, ids, serviceId);
            forall t :: t in declared ==> t in TextIds(OfService(perms1, serviceId))
  {
    var existing := TextIds(OfService(perms, serviceId));
    var names := ToAdd(declared, existing);
    var added := NewPermissions(names, ids, serviceId);
    var perms1 := perms + added;
    forall t | t in declared ensures t in TextIds(OfService(perms1, serviceId)) {
      if t in existing {
        var k :| 0 <= k < |existing| && existing[k] == t;
        var p := OfService(perms, serviceId)[k];
        assert p in OfService(perms, serviceId);
        RegisteredUnder(perms1, p, serviceId);
      } else {
        var k :| 0 <= k < |names| && names[k] == t;
        var p := added[k];
        assert p in added;
        RegisteredUnder(perms1, p, serviceId);
      }
    }
  }

  lemma RegisteredUnder(perms: seq<Permission>, p: Permission, serviceId: Uuid)
    requires p in perms && p.serviceId == serviceId
    ensures p.textId in TextIds(OfService(perms, serviceId))
  {
    TextIdOfMember(OfService(perms, serviceId), p);
  }

  /**
   * Running the sync a second time with the same list, on the tables the
   * first run left, changes nothing, whatever fresh ids it is given.
   */
  lemma Idempotent(services: seq<Service>, perms: seq<Permission>, textId: string, newId: Uuid,
                   ids: seq<Uuid>, newId2: Uuid, ids2: seq<Uuid>, declared: seq<string>)
    requires |ids| >= |declared| && |ids2| >= |declared|
    ensures var (services1, perms1) := SyncSpec(services, perms, textId, newId, ids, declared);
            SyncSpec(services1, perms1, textId, newId2, ids2, declared) == (services1, perms1)
  {
    var (service, services1) := Resolve(services, textId, newId);
    var names := ToAdd(declared, TextIds(OfService(perms, service.id)));
    var perms1 := perms + NewPermissions(names, ids, service.id);
    DeclaredCovered(perms, service.id, ids, declared);
    var names2 := ToAdd(declared, TextIds(OfService(perms1, service.id)));
    NothingWhenCovered(declared, TextIds(OfService(perms1, service.id)));
    assert perms1 + NewPermissions(names2, ids2, service.id) == perms1;
  }

  /** The service and permission tables behind the two gateways. */
  class ServiceStore {
    var services: seq<Service>
    var permissions: seq<Permission>

    constructor (services0: seq<Service>, permissions0: seq<Permission>)
      ensures services == services0 && permissions == permissions0
    {
      services, permissions := services0, permissions0;
    }

    function GetServicesByTextId(textId: string): Option<Service>
      reads this
    {
      FindService(services, textId)
    }

    function GetPermissionsByServiceId(serviceId: Uuid): seq<Permission>
      reads this
    {
      OfService(permissions, serviceId)
    }

    method SaveService(s: Service)
      modifies this
      ensures services == old(services) + [s] && permissions == old(permissions)
    {
      services := services + [s];
    }

    method SavePermissions(ps: seq<Permission>)
      modifies this
      ensures permissions == old(permissions) + ps && services == old(services)
    {
      permissions := permissions + ps;
    }
  }

  /** `ServiceSync::execute`; `newId` and `ids` are the ids `Service::new` and `Permission::new` draw. */
  method Execute(g: ServiceStore, textId: string, declared: seq<string>, newId: Uuid, ids: seq<Uuid>)
    returns (r: Outcome<()>)
    requires |ids| >= |declared|
    modifies g
    ensures r == Ok(())
    ensures (g.services, g.permissions) == SyncSpec(old(g.services), old(g.permissions), textId, newId, ids, declared)
  {
    var service: Service;
    var found := g.GetServicesByTextId(textId);
    match found {
      case Some(s) => service := s;
      case None =>
        service := Service(newId, textId, textId, None);
        g.SaveService(service);
    }
    var fromRepo := TextIds(g.GetPermissionsByServiceId(service.id));
    var toAdd := NewPermissions(ToAdd(declared, fromRepo), ids, service.id);
    g.SavePermissions(toAdd);
    return Ok(());
  }
}
