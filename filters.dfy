// The two decorators that guard the application services' methods: a
// permission filter over the current user's held permissions and a state
// filter over the current user's state. `Return(())` means the wrapped
// method is called; a raise means it is not.
module SecurityFilters {
  import opened Common
  import opened PyCommon
  import opened PermissionTags

  /** One held permission: a string, or an enum member (the type of the held set is not fixed). */
  datatype Held = Str(s: string) | Member(p: Permission)

  /** A decorator argument: a single tag, which must be held, or a set of alternatives. */
  datatype TagArg = Single(p: Permission) | AnyOf(ps: set<Permission>)

  const NoRights := "У Вас нет прав для выполнения этого действия"

  /** The string values of the single tags (`{tag.value for tag in tags if isinstance(tag, Permission)}`). */
  function SingleValues(tags: seq<TagArg>): (r: set<Held>)
    ensures forall h :: h in r <==> exists i :: 0 <= i < |tags| && tags[i].Single? && h == Str(Value(tags[i].p))
  {
    set i | 0 <= i < |tags| && tags[i].Single? :: Str(Value(tags[i].p))
  }

  /** Whether a set of alternatives and the held set share an element, compared as the source compares: by member. */
  predicate MeetsByMember(ps: set<Permission>, held: set<Held>)
  {
    exists p :: p in ps && Member(p) in held
  }

  /** The same test by string value, as the tags' single check compares. */
  predicate MeetsByValue(ps: set<Permission>, held: set<Held>)
  {
    exists p :: p in ps && Str(Value(p)) in held
  }

  /** The first set of alternatives, from the left, that `meets` refuses. */
  function FirstUnmet(tags: seq<TagArg>, held: set<Held>, byValue: bool): (r: Option<nat>)
    ensures r.Some? ==> r.value < |tags| && tags[r.value].AnyOf? &&
                        !(if byValue then MeetsByValue(tags[r.value].ps, held) else MeetsByMember(tags[r.value].ps, held))
    ensures r.None? <==> forall i :: 0 <= i < |tags| && tags[i].AnyOf? ==>
                           (if byValue then MeetsByValue(tags[i].ps, held) else MeetsByMember(tags[i].ps, held))
  {
    if tags == [] then None
    else if tags[0].AnyOf? && !(if byValue then MeetsByValue(tags[0].ps, held) else MeetsByMember(tags[0].ps, held))
    then Some(0)
    else match FirstUnmet(tags[1..], held, byValue)
         case None => None
         case Some(j) => Some(j + 1)
  }

  function Check(tags: seq<TagArg>, user: Option<set<Held>>, byValue: bool): (r: Py<()>)
  {
    if user.None? then Raise(ValueError)
    else if !(SingleValues(tags) <= user.value) then Raise(Exc.AccessDenied(NoRights))
    else if FirstUnmet(tags, user.value, byValue).Some? then Raise(Exc.AccessDenied(NoRights))
    else Return(())
  }

  /**
   * `permission_filter(*tags)` as written: no current user is a ValueError;
   * the call runs iff every single tag's value is held and every set of
   * alternatives has a member that is held as a member; otherwise AccessDenied.
   */
  function PermissionFilter(tags: seq<TagArg>, user: Option<set<Held>>): (r: Py<()>)
    ensures user.None? ==> r == Raise(ValueError)
    ensures user.Some? ==>
              (r == Return(()) <==>
                 (forall i :: 0 <= i < |tags| && tags[i].Single? ==> Str(Value(tags[i].p)) in user.value) &&
                 (forall i :: 0 <= i < |tags| && tags[i].AnyOf? ==> MeetsByMember(tags[i].ps, user.value)))
    ensures user.Some? && r.Raise? ==> r.exc == Exc.AccessDenied(NoRights)
  {
    Check(tags, user, false)
  }

  /** The filter with sets of alternatives compared by value, like single tags. */
  function PermissionFilterByValue(tags: seq<TagArg>, user: Option<set<Held>>): (r: Py<()>)
    ensures user.None? ==> r == Raise(ValueError)
    ensures user.Some? ==>
              (r == Return(()) <==>
                 (forall i :: 0 <= i < |tags| && tags[i].Single? ==> Str(Value(tags[i].p)) in user.value) &&
                 (forall i :: 0 <= i < |tags| && tags[i].AnyOf? ==> MeetsByValue(tags[i].ps, user.value)))
    ensures user.Some? && r.Raise? ==> r.exc == Exc.AccessDenied(NoRights)
  {
    Check(tags, user, true)
  }

  /** Held permissions that are strings only, as the single-tag check needs them to be. */
  predicate AllStrings(held: set<Held>)
  {
    forall h :: h in held ==> h.Str?
  }

  /**
   * As written, a user whose permissions are strings is refused by any
   * filter with a set of alternatives, whatever the user holds.
   */
  lemma AlternativesNeverMatchStrings(tags: seq<TagArg>, held: set<Held>, i: nat)
    requires AllStrings(held) && i < |tags| && tags[i].AnyOf?
    ensures PermissionFilter(tags, Some(held)) == Raise(Exc.AccessDenied(NoRights))
  {
  }

  /** The same filter compared by value lets through a user holding one alternative of each set and every single tag. */
  lemma ByValueAdmits(p: Permission, q: Permission)
    ensures PermissionFilterByValue([Single(p), AnyOf({p, q})], Some({Str(Value(p))})) == Return(())
    ensures PermissionFilter([Single(p), AnyOf({p, q})], Some({Str(Value(p))})) == Raise(Exc.AccessDenied(NoRights))
  {
    AlternativesNeverMatchStrings([Single(p), AnyOf({p, q})], {Str(Value(p))}, 1);
    assert MeetsByValue({p, q}, {Str(Value(p))});
  }

  /** `state_filter(*states)`: with no states listed every state is allowed. */
  function AllowedStates(states: seq<State>): (r: seq<State>)
    ensures states != [] ==> r == states
    ensures states == [] ==> |r| == 4
  {
    if states == [] then [NOT_CONFIRMED, ACTIVE, BLOCKED, DELETED] else states
  }

  /** The default list holds every state. */
  lemma DefaultAllowsAll(s: State)
    ensures s in AllowedStates([])
  {
    match s
    case NOT_CONFIRMED => assert AllowedStates([])[0] == s;
    case ACTIVE => assert AllowedStates([])[1] == s;
    case BLOCKED => assert AllowedStates([])[2] == s;
    case DELETED => assert AllowedStates([])[3] == s;
  }

  /**
   * The state filter on a current user whose state is `state` (None for an
   * unauthenticated user): no current user is a ValueError; the call runs iff
   * the state is one of the allowed ones; otherwise AccessDenied.
   */
  function StateFilter(states: seq<State>, user: Option<Option<State>>): (r: Py<()>)
    ensures user.None? ==> r == Raise(ValueError)
    ensures user.Some? ==> (r == Return(()) <==> user.value.Some? && user.value.value in AllowedStates(states))
    ensures user.Some? && r.Raise? ==> r.exc == Exc.AccessDenied(NoRights)
  {
    if user.None? then Raise(ValueError)
    else if user.value.Some? && user.value.value in AllowedStates(states) then Return(())
    else Raise(Exc.AccessDenied(NoRights))
  }

  /** With no arguments the state filter admits every authenticated user, and never an unauthenticated one. */
  lemma StateFilterDefaults(s: State, states: seq<State>)
    ensures StateFilter([], Some(Some(s))) == Return(())
    ensures StateFilter(states, Some(None)) == Raise(Exc.AccessDenied(NoRights))
  {
    DefaultAllowsAll(s);
  }
}
