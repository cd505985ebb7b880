// The Python permission tags and the `|` operator on them: two tags, or a
// tag and a set of alternatives, give a set of alternatives (any one of
// which grants access). Sets are built with `set(...)`, so repeats vanish.
module PermissionTags {
  import opened PyCommon

  datatype Permission =
    | AUTHENTICATE | VERIFY_EMAIL | RESET_PASSWORD | LOGOUT | REFRESH_TOKENS
    | GET_USER | GET_USER_FULL | CREATE_USER | UPDATE_USER
    | GET_SELF | UPDATE_SELF | DELETE_SELF
    | GET_ROLE | UPDATE_ROLE | DELETE_ROLE | CREATE_ROLE
    | GET_SELF_SESSIONS | DELETE_SELF_SESSION | GET_USER_SESSIONS | DELETE_USER_SESSION

  /** Each member's value is its own name. */
  function Value(p: Permission): string
  {
    match p
    case AUTHENTICATE => "AUTHENTICATE"
    case VERIFY_EMAIL => "VERIFY_EMAIL"
    case RESET_PASSWORD => "RESET_PASSWORD"
    case LOGOUT => "LOGOUT"
    case REFRESH_TOKENS => "REFRESH_TOKENS"
    case GET_USER => "GET_USER"
    case GET_USER_FULL => "GET_USER_FULL"
    case CREATE_USER => "CREATE_USER"
    case UPDATE_USER => "UPDATE_USER"
    case GET_SELF => "GET_SELF"
    case UPDATE_SELF => "UPDATE_SELF"
    case DELETE_SELF => "DELETE_SELF"
    case GET_ROLE => "GET_ROLE"
    case UPDATE_ROLE => "UPDATE_ROLE"
    case DELETE_ROLE => "DELETE_ROLE"
    case CREATE_ROLE => "CREATE_ROLE"
    case GET_SELF_SESSIONS => "GET_SELF_SESSIONS"
    case DELETE_SELF_SESSION => "DELETE_SELF_SESSION"
    case GET_USER_SESSIONS => "GET_USER_SESSIONS"
    case DELETE_USER_SESSION => "DELETE_USER_SESSION"
  }

  /** No two members share a value, so `Permission(v)` finds one member at most. */
  lemma ValueInjective(p: Permission, q: Permission)
    requires Value(p) == Value(q)
    ensures p == q
  {
  }

  /** What can stand on the right of `|`: a tag, a set of alternatives, or a value of any other type. */
  datatype Operand = Tag(p: Permission) | OrSet(permissions: set<Permission>) | Other

  /** `PermissionOrSet(*permissions)`: the set of the arguments. */
  function OrSetOf(ps: seq<Permission>): (r: set<Permission>)
    ensures forall p :: p in r <==> p in ps
  {
    set p | p in ps
  }

  /** `Permission.__or__`. */
  function TagOr(p: Permission, other: Operand): (r: Py<set<Permission>>)
    ensures r.Raise? <==> other.Other?
    ensures r.Raise? ==> r.exc == TypeError
    ensures other.Tag? ==> r == Return(OrSetOf([p, other.p]))
    ensures other.OrSet? ==> r == Return(OrSetOf([p]) + other.permissions)
  {
    match other
    case Tag(q) => Return(OrSetOf([p, q]))
    case OrSet(s) => Return(OrSetOf([p]) + s)
    case Other => Raise(TypeError)
  }

  /** `PermissionOrSet.__or__`: it reads `other.permissions`, which only a set of alternatives has. */
  function OrSetOr(s: set<Permission>, other: Operand): (r: Py<set<Permission>>)
    ensures r.Return? <==> other.OrSet?
  {
    match other
    case OrSet(t) => Return(s + t)
    case _ => Raise(AttributeError)
  }

  /** `P | Q` is exactly {P, Q}; in particular `P | P` is {P}. */
  lemma TagOrTag(p: Permission, q: Permission)
    ensures TagOr(p, Tag(q)) == Return({p, q})
    ensures TagOr(p, Tag(p)) == Return({p})
  {
    assert OrSetOf([p, q]) == {p, q};
    assert OrSetOf([p, p]) == {p};
  }

  /** `P | S` is S with P added, and `S | T` is the union; both orders give the same set. */
  lemma OrIsUnion(p: Permission, s: set<Permission>, t: set<Permission>)
    ensures TagOr(p, OrSet(s)) == Return(s + {p})
    ensures OrSetOr(s, OrSet(t)) == Return(s + t) && OrSetOr(t, OrSet(s)) == Return(s + t)
  {
    assert OrSetOf([p]) == {p};
    assert OrSetOf([p]) + s == s + {p};
    assert t + s == s + t;
  }

  /** A chain of three tags fails: `(P | Q)` is a set of alternatives, whose `|` wants another set. */
  lemma ThreeTagChainFails(p: Permission, q: Permission, r: Permission)
    ensures TagOr(p, Tag(q)).Return? && OrSetOr(TagOr(p, Tag(q)).value, Tag(r)) == Raise(AttributeError)
  {
  }
}
