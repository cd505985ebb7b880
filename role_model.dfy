// Roles of the Python service: a main role (0-3) and an additional role
// (1-9) whose integer value is their two digits written side by side, role
// ranges that test a role against a bound, and the comparison operators.
module Roles {
  import opened Common
  import opened Decimal
  import opened PyCommon

  datatype MainRole = GUEST | USER | MODER | ADMIN
  datatype AdditionalRole = ONE | TWO | THREE | FOUR | FIVE | SIX | SEVEN | EIGHT | NINE

  function MainValue(m: MainRole): (v: nat)
    ensures v <= 3
  {
    match m
    case GUEST => 0
    case USER => 1
    case MODER => 2
    case ADMIN => 3
  }

  function AdditionalValue(a: AdditionalRole): (v: nat)
    ensures 1 <= v <= 9
  {
    match a
    case ONE => 1
    case TWO => 2
    case THREE => 3
    case FOUR => 4
    case FIVE => 5
    case SIX => 6
    case SEVEN => 7
    case EIGHT => 8
    case NINE => 9
  }

  /** `MainRole(v)`: the member with that value, or ValueError. */
  function MainRoleOf(v: int): (r: Py<MainRole>)
    ensures r.Return? <==> 0 <= v <= 3
    ensures r.Return? ==> MainValue(r.value) == v
    ensures r.Raise? ==> r.exc == ValueError
  {
    if v == 0 then Return(GUEST) else if v == 1 then Return(USER)
    else if v == 2 then Return(MODER) else if v == 3 then Return(ADMIN)
    else Raise(ValueError)
  }

  /** `AdditionalRole(v)`: the member with that value, or ValueError (there is no member for 0). */
  function AdditionalRoleOf(v: int): (r: Py<AdditionalRole>)
    ensures r.Return? <==> 1 <= v <= 9
    ensures r.Return? ==> AdditionalValue(r.value) == v
    ensures r.Raise? ==> r.exc == ValueError
  {
    if v == 1 then Return(ONE) else if v == 2 then Return(TWO) else if v == 3 then Return(THREE)
    else if v == 4 then Return(FOUR) else if v == 5 then Return(FIVE) else if v == 6 then Return(SIX)
    else if v == 7 then Return(SEVEN) else if v == 8 then Return(EIGHT) else if v == 9 then Return(NINE)
    else Raise(ValueError)
  }

  datatype Role = Role(main: MainRole, additional: AdditionalRole)

  /**
   * `Role.value()`: the main value's digits followed by the additional
   * value's digit, read back as an integer; that is ten times the main value
   * plus the additional one.
   */
  function RoleValue(r: Role): (v: nat)
    ensures v == 10 * MainValue(r.main) + AdditionalValue(r.additional)
  {
    var m := NatToString(MainValue(r.main));
    var s := m + NatToString(AdditionalValue(r.additional));
    assert NatToString(AdditionalValue(r.additional)) == [DigitChar(AdditionalValue(r.additional))];
    DigitsValueSnoc(m, AdditionalValue(r.additional));
    DigitsValueToString(MainValue(r.main));
    ParseNat(s).value
  }

  /** Different roles have different values. */
  lemma ValueInjective(r: Role, s: Role)
    requires RoleValue(r) == RoleValue(s)
    ensures r == s
  {
    assert MainValue(r.main) == MainValue(s.main);
  }

  /**
   * `Role.from_int(v)`: a value outside 10-39 is refused; otherwise the tens
   * digit is the main role and the units digit the additional one, which
   * refuses a multiple of ten.
   */
  function FromInt(v: int): (r: Py<Role>)
    ensures r.Return? <==> 10 <= v <= 39 && v % 10 != 0
    ensures r.Return? ==> RoleValue(r.value) == v
    ensures r.Raise? ==> r.exc == ValueError
  {
    if !(10 <= v < 40) then Raise(ValueError)
    else
      var main := MainRoleOf(v / 10);
      var additional := AdditionalRoleOf(v % 10);
      if additional.Raise? then Raise(additional.exc) else Return(Role(main.value, additional.value))
  }

  /** Every role but a guest one comes back from its value; a guest role's value (1-9) is refused. */
  lemma FromIntValue(r: Role)
    ensures r.main != GUEST ==> FromInt(RoleValue(r)) == Return(r)
    ensures r.main == GUEST ==> FromInt(RoleValue(r)) == Raise(ValueError)
  {
    if r.main != GUEST {
      var v := RoleValue(r);
      assert v / 10 == MainValue(r.main) && v % 10 == AdditionalValue(r.additional);
      ValueInjective(FromInt(v).value, r);
    }
  }

  /** The right-hand side of a comparison: a role, an integer, or a value of another type. */
  datatype Operand = RoleArg(role: Role) | IntArg(n: int) | OtherArg

  /** `Role.__eq__`: by value against a role or an integer; any other type raises ValueError. */
  function RoleEq(r: Role, other: Operand): (res: Py<bool>)
    ensures other.OtherArg? <==> res == Raise(ValueError)
    ensures other.RoleArg? ==> res == Return(r == other.role)
    ensures other.IntArg? ==> res == Return(other.n == 10 * MainValue(r.main) + AdditionalValue(r.additional))
  {
    match other
    case RoleArg(s) => Return(RoleValue(r) == RoleValue(s))
    case IntArg(n) => Return(RoleValue(r) == n)
    case OtherArg => Raise(ValueError)
  }

  /** `Role.__ne__`: the negation of `__eq__`, with the same error. */
  function RoleNe(r: Role, other: Operand): (res: Py<bool>)
    ensures RoleEq(r, other).Return? ==> res == Return(!RoleEq(r, other).value)
    ensures RoleEq(r, other).Raise? ==> res == RoleEq(r, other)
  {
    match other
    case RoleArg(s) => Return(RoleValue(r) != RoleValue(s))
    case IntArg(n) => Return(RoleValue(r) != n)
    case OtherArg => Raise(ValueError)
  }

  datatype OperationType = LT | GT | LE | GE

  function Compare(op: OperationType, a: int, b: int): bool
  {
    match op
    case LT => a < b
    case GT => a > b
    case LE => a <= b
    case GE => a >= b
  }

  /** What the right-hand side stands for as an integer, when it has one. */
  function OperandValue(other: Operand): Option<int>
  {
    match other
    case RoleArg(s) => Some(RoleValue(s))
    case IntArg(n) => Some(n)
    case OtherArg => None
  }

  /**
   * `__lt__`, `__gt__`, `__le__`, `__ge__`: the comparison of values; with an
   * operand of another type the method falls through and returns None.
   */
  function RoleCompare(op: OperationType, r: Role, other: Operand): (res: Option<bool>)
    ensures res.None? <==> other.OtherArg?
    ensures other.RoleArg? ==> res == Some(Compare(op, 10 * MainValue(r.main) + AdditionalValue(r.additional),
                                                      10 * MainValue(other.role.main) + AdditionalValue(other.role.additional)))
    ensures other.IntArg? ==> res == Some(Compare(op, 10 * MainValue(r.main) + AdditionalValue(r.additional), other.n))
  {
    match other
    case RoleArg(s) => Some(Compare(op, RoleValue(r), RoleValue(s)))
    case IntArg(n) => Some(Compare(op, RoleValue(r), n))
    case OtherArg => None
  }

  /** Roles are totally ordered by value: exactly one of `<`, `==`, `>` holds between two roles. */
  lemma Trichotomy(r: Role, s: Role)
    ensures RoleCompare(LT, r, RoleArg(s)) == Some(true) || RoleEq(r, RoleArg(s)) == Return(true) ||
            RoleCompare(GT, r, RoleArg(s)) == Some(true)
    ensures RoleCompare(LT, r, RoleArg(s)) == Some(true) ==> r != s && RoleCompare(GT, r, RoleArg(s)) == Some(false)
    ensures RoleCompare(LE, r, RoleArg(s)) == Some(true) && RoleCompare(GE, r, RoleArg(s)) == Some(true) ==> r == s
  {
    if RoleValue(r) == RoleValue(s) { ValueInjective(r, s); }
  }

  /** A role range: a bound `right` and an operator (`left` is stored but never read by `is_include`). */
  datatype RoleRange = RoleRange(left: Option<Role>, operator: Option<OperationType>, right: Option<Role>)

  /** `RoleRange("*")`: from GUEST ONE to ADMIN NINE, inclusive. */
  function Star(): (rr: RoleRange)
    ensures rr.operator == Some(LE) && rr.right.Some? && RoleValue(rr.right.value) == 39
  {
    RoleRange(Some(Role(GUEST, ONE)), Some(LE), Some(Role(ADMIN, NINE)))
  }

  /**
   * `RoleRange.is_include(role)`: the role's value compared with the bound's
   * by the operator. Without an operator no branch is taken and the result is
   * None; with an operator but no bound, reading the bound's value raises.
   */
  function IsInclude(rr: RoleRange, role: Role): (res: Py<Option<bool>>)
    ensures rr.operator.None? ==> res == Return(None)
    ensures rr.operator.Some? && rr.right.None? ==> res == Raise(AttributeError)
    ensures rr.operator.Some? && rr.right.Some? ==>
              res == Return(Some(Compare(rr.operator.value, RoleValue(role), RoleValue(rr.right.value))))
  {
    match rr.operator
    case None => Return(None)
    case Some(op) =>
      if rr.right.None? then Raise(AttributeError)
      else Return(Some(Compare(op, RoleValue(role), RoleValue(rr.right.value))))
  }

  /** The star range includes every role. */
  lemma StarIncludesAll(role: Role)
    ensures IsInclude(Star(), role) == Return(Some(true))
  {
  }

  /** `Role == Role` inside a range's `__eq__`: None against None is equal, None against a role raises. */
  function OptionalRoleEq(a: Option<Role>, b: Option<Role>): (res: Py<bool>)
    ensures a.None? && b.None? ==> res == Return(true)
    ensures a.None? != b.None? ==> res == Raise(ValueError)
    ensures a.Some? && b.Some? ==> res == Return(a.value == b.value)
  {
    match (a, b)
    case (None, None) => Return(true)
    case (Some(x), Some(y)) => RoleEq(x, RoleArg(y))
    case _ => Raise(ValueError)
  }

  /** The right-hand side of a range's `==`. */
  datatype RangeOperand = RangeRole(role: Role) | Range(range: RoleRange) | RangeOther

  /**
   * `RoleRange.__eq__`: against a role it is `is_include`; against a range
   * the bounds and then the operators are compared, stopping at the first
   * False; any other type raises ValueError.
   */
  function RangeEq(rr: RoleRange, other: RangeOperand): (res: Py<Option<bool>>)
    ensures other.RangeRole? ==> res == IsInclude(rr, other.role)
    ensures other.RangeOther? ==> res == Raise(ValueError)
    ensures other.Range? && res == Return(Some(true)) ==> rr == other.range
    ensures other == Range(rr) ==> res == Return(Some(true))
  {
    match other
    case RangeRole(role) => IsInclude(rr, role)
    case RangeOther => Raise(ValueError)
    case Range(o) =>
      match OptionalRoleEq(rr.left, o.left)
      case Raise(e) => Raise(e)
      case Return(false) => Return(Some(false))
      case Return(true) =>
        match OptionalRoleEq(rr.right, o.right)
        case Raise(e) => Raise(e)
        case Return(false) => Return(Some(false))
        case Return(true) => Return(Some(rr.operator == o.operator))
  }
}
