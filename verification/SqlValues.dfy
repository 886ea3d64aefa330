/** SQL values and the three-valued operators on them. NULL is the unknown truth value. */
module SqlValues {
  import opened Wrappers

  datatype SqlValue = SqlNull | SqlInt(i: int)

  datatype BinOp = And | Or | Lt | Gt | Ge | Le | Eq | Ne | Plus | Minus | Star

  datatype UnOp = Not | UMinus | UPlus | IsNull | NotNull

  const False: SqlValue := SqlInt(0)
  const True: SqlValue := SqlInt(1)

  function OfBool(b: bool): SqlValue {
    if b then True else False
  }

  predicate IsTrue(v: SqlValue) {
    v.SqlInt? && v.i != 0
  }

  predicate IsFalse(v: SqlValue) {
    v == False
  }

  function Not3(v: SqlValue): SqlValue {
    if v.SqlNull? then SqlNull else OfBool(IsFalse(v))
  }

  function And3(a: SqlValue, b: SqlValue): SqlValue {
    if IsFalse(a) || IsFalse(b) then False
    else if a.SqlNull? || b.SqlNull? then SqlNull
    else True
  }

  function Or3(a: SqlValue, b: SqlValue): SqlValue {
    if IsTrue(a) || IsTrue(b) then True
    else if a.SqlNull? || b.SqlNull? then SqlNull
    else False
  }

  function Binary(op: BinOp, a: SqlValue, b: SqlValue): SqlValue {
    match op
    case And => And3(a, b)
    case Or => Or3(a, b)
    case _ => if a.SqlNull? || b.SqlNull? then SqlNull else OnInts(op, a.i, b.i)
  }

  function OnInts(op: BinOp, a: int, b: int): SqlValue {
    match op
    case Lt => OfBool(a < b)
    case Gt => OfBool(a > b)
    case Ge => OfBool(a >= b)
    case Le => OfBool(a <= b)
    case Eq => OfBool(a == b)
    case Ne => OfBool(a != b)
    case Plus => SqlInt(a + b)
    case Minus => SqlInt(a - b)
    case Star => SqlInt(a * b)
    case _ => SqlNull
  }

  function Unary(op: UnOp, v: SqlValue): SqlValue {
    match op
    case Not => Not3(v)
    case UMinus => if v.SqlNull? then SqlNull else SqlInt(-v.i)
    case UPlus => v
    case IsNull => OfBool(v.SqlNull?)
    case NotNull => OfBool(!v.SqlNull?)
  }

  /** v IN (vals): some element equal, unknown if that turns on a NULL, false for the empty list. */
  function Member(v: SqlValue, vals: seq<SqlValue>): SqlValue {
    if vals == [] then False
    else Or3(Binary(Eq, v, vals[0]), Member(v, vals[1..]))
  }

  function BetweenBounds(v: SqlValue, lo: SqlValue, hi: SqlValue): SqlValue {
    And3(Binary(Ge, v, lo), Binary(Le, v, hi))
  }

  /** An arm is taken if its condition is true, or, with a CASE operand, equal to the operand. */
  predicate TakesArm(operand: Option<SqlValue>, cond: SqlValue) {
    match operand
    case None => IsTrue(cond)
    case Some(x) => IsTrue(Binary(Eq, x, cond))
  }
}
