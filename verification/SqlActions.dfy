/**
 The reduce actions of parse.c that build expressions, as functions from the popped
 entries and the heap to the value of the left-hand side and the new heap, and the proof
 that each one hands over every node it is given.
 */
module SqlActions {
  import opened Wrappers
  import opened SqlValues
  import opened SqlExprs

  // ----- Token codes of parse.h that the actions read from an entry's major

  const TK_NOT: nat := 19
  const TK_OR: nat := 43
  const TK_AND: nat := 44
  const TK_ISNULL: nat := 50
  const TK_NOTNULL: nat := 51
  const TK_NE: nat := 52
  const TK_EQ: nat := 53
  const TK_GT: nat := 54
  const TK_LE: nat := 55
  const TK_LT: nat := 56
  const TK_GE: nat := 57
  const TK_PLUS: nat := 96
  const TK_MINUS: nat := 97
  const TK_STAR: nat := 98

  function BinaryOf(major: nat): Option<BinOp> {
    if major == TK_AND then Some(And)
    else if major == TK_OR then Some(Or)
    else if major == TK_LT then Some(Lt)
    else if major == TK_GT then Some(Gt)
    else if major == TK_GE then Some(Ge)
    else if major == TK_LE then Some(Le)
    else if major == TK_EQ then Some(Eq)
    else if major == TK_NE then Some(Ne)
    else if major == TK_PLUS then Some(Plus)
    else if major == TK_MINUS then Some(Minus)
    else if major == TK_STAR then Some(Star)
    else None
  }

  function PrefixOf(major: nat): Option<UnOp> {
    if major == TK_NOT then Some(Not)
    else if major == TK_PLUS then Some(UPlus)
    else if major == TK_MINUS then Some(UMinus)
    else None
  }

  function PostfixOf(major: nat): Option<UnOp> {
    if major == TK_ISNULL then Some(IsNull)
    else if major == TK_NOTNULL then Some(NotNull)
    else None
  }

  // ----- Semantic values

  /** The member of the value union that a symbol uses. */
  datatype Kind = KNone | KToken | KFlag | KExpr | KList

  /** A token's text matters only where it denotes a literal or a column. */
  datatype Minor =
    | NoValue
    | TokenValue(leaf: Op)
    | FlagValue(flag: bool)
    | ExprValue(e: Expr)
    | ListValue(list: List)
  {
    function KindOf(): Kind {
      match this
      case NoValue => KNone
      case TokenValue(_) => KToken
      case FlagValue(_) => KFlag
      case ExprValue(_) => KExpr
      case ListValue(_) => KList
    }

    function OwnedTimes(id: nat): nat {
      match this
      case ExprValue(e) => Owns(e, id)
      case ListValue(list) => ListOwns(list, id)
      case _ => 0
    }
  }

  /** Deleting a semantic value through the member of the union that its kind names. */
  function DeleteMinor(h: Heap, minor: Minor): (h': Heap)
    ensures forall id: nat :: h'.Balance(id) == h.Balance(id) - minor.OwnedTimes(id)
    ensures Later(h, h')
  {
    match minor
    case ExprValue(e) => h.Delete(e)
    case ListValue(list) => h.DeleteList(list)
    case _ => h
  }

  datatype Arg = Arg(major: nat, minor: Minor)

  /** How many times the entries together own node id. */
  function OwnedBy(args: seq<Arg>, id: nat): nat {
    if args == [] then 0 else args[0].minor.OwnedTimes(id) + OwnedBy(args[1..], id)
  }

  function DeleteAll(h: Heap, args: seq<Arg>): (h': Heap)
    ensures Later(h, h')
    ensures forall id: nat :: h'.Balance(id) == h.Balance(id) - OwnedBy(args, id)
    decreases |args|
  {
    if args == [] then h else DeleteAll(DeleteMinor(h, args[0].minor), args[1..])
  }

  // ----- The actions

  datatype Action =
    | Keep                // no code: the value stays where the leftmost entry was
    | Leaf                // term ::= NULL|FLOAT|BLOB, STRING, INTEGER; expr ::= ID
    | Parens              // expr ::= LP expr RP
    | BinaryOp            // expr ::= expr AND expr, and the other binary operators
    | PrefixOp            // expr ::= NOT expr; expr ::= PLUS|MINUS expr
    | PostfixNull         // expr ::= expr ISNULL|NOTNULL
    | PostfixNotNull      // expr ::= expr NOT NULL
    | IsOp                // expr ::= expr IS expr
    | IsNotOp             // expr ::= expr IS NOT expr
    | Affirm              // in_op ::= IN; between_op ::= BETWEEN
    | Negate              // in_op ::= NOT IN; between_op ::= NOT BETWEEN
    | BetweenOp           // expr ::= expr between_op expr AND expr
    | InOp                // expr ::= expr in_op LP exprlist RP
    | CaseOp              // expr ::= CASE case_operand case_exprlist case_else END
    | CaseMore            // case_exprlist ::= case_exprlist WHEN expr THEN expr
    | CaseFirst           // case_exprlist ::= WHEN expr THEN expr
    | Else                // case_else ::= ELSE expr
    | NoExpr              // case_else ::= ; case_operand ::=
    | ListMore            // nexprlist ::= nexprlist COMMA expr
    | ListFirst           // nexprlist ::= expr
    | NoItems             // exprlist ::=
    | VectorOp            // expr ::= LP nexprlist COMMA expr RP
    | Discard             // a command that uses its parts and then deletes them

  /** What the value of the left-hand side is, given the kinds on the right-hand side. */
  function ResultKind(action: Action, kinds: seq<Kind>): Kind {
    match action
    case Keep => if kinds == [] then KNone else kinds[0]
    case Discard => KNone
    case Affirm | Negate => KFlag
    case CaseMore | CaseFirst | ListMore | ListFirst | NoItems => KList
    case _ => KExpr
  }

  predicate Ownerless(k: Kind) {
    k == KNone || k == KToken || k == KFlag
  }

  /** The kinds an action expects on its right-hand side. */
  predicate ExpectsKinds(action: Action, kinds: seq<Kind>) {
    match action
    case Keep => forall i | 1 <= i < |kinds| :: Ownerless(kinds[i])
    case Leaf => kinds == [KToken]
    case Parens => kinds == [KToken, KExpr, KToken]
    case BinaryOp => kinds == [KExpr, KToken, KExpr]
    case PrefixOp => kinds == [KToken, KExpr]
    case PostfixNull => kinds == [KExpr, KToken]
    case PostfixNotNull => kinds == [KExpr, KToken, KToken]
    case IsOp => kinds == [KExpr, KToken, KExpr]
    case IsNotOp => kinds == [KExpr, KToken, KToken, KExpr]
    case Affirm => kinds == [KToken]
    case Negate => kinds == [KToken, KToken]
    case BetweenOp => kinds == [KExpr, KFlag, KExpr, KToken, KExpr]
    case InOp => kinds == [KExpr, KFlag, KToken, KList, KToken]
    case CaseOp => kinds == [KToken, KExpr, KList, KExpr, KToken]
    case CaseMore => kinds == [KList, KToken, KExpr, KToken, KExpr]
    case CaseFirst => kinds == [KToken, KExpr, KToken, KExpr]
    case Else => kinds == [KToken, KExpr]
    case NoExpr => kinds == []
    case ListMore => kinds == [KList, KToken, KExpr]
    case ListFirst => kinds == [KExpr]
    case NoItems => kinds == []
    case VectorOp => kinds == [KToken, KList, KToken, KExpr, KToken]
    case Discard => true
  }

  /** Where an action reads the major of an entry, the token must be one it knows. */
  predicate KnowsMajor(action: Action, i: nat, major: nat) {
    match action
    case BinaryOp => i == 1 ==> BinaryOf(major).Some?
    case PrefixOp => i == 0 ==> PrefixOf(major).Some?
    case PostfixNull => i == 1 ==> PostfixOf(major).Some?
    case _ => true
  }

  function Kinds(args: seq<Arg>): (kinds: seq<Kind>)
    ensures |kinds| == |args|
  {
    seq(|args|, i requires 0 <= i < |args| => args[i].minor.KindOf())
  }

  predicate Accepts(action: Action, args: seq<Arg>) {
    && ExpectsKinds(action, Kinds(args))
    && forall i | 0 <= i < |args| :: KnowsMajor(action, i, args[i].major)
  }

  function NegateIf(h: Heap, flag: bool, e: Expr): (r: (Expr, Heap))
    ensures Later(h, r.1)
  {
    if flag then PExpr(h, Un(Not), e, Null) else (e, h)
  }

  function MakeIs(h: Heap, op: Op, left: Expr, right: Expr, unary: UnOp): (r: (Expr, Heap))
    ensures Later(h, r.1)
  {
    var (e, h1) := PExpr(h, op, left, right);
    BinaryToUnaryIfNull(h1, right, e, unary)
  }

  function MakeBetween(h: Heap, flag: bool, x: Expr, lo: Expr, hi: Expr): (r: (Expr, Heap))
    ensures Later(h, r.1)
  {
    var (list1, h1) := ListAppend(h, NoList, lo);
    var (list2, h2) := ListAppend(h1, list1, hi);
    var (e, h3) := PExpr(h2, Between, x, Null);
    var (e', h4) := AttachList(h3, e, list2);
    NegateIf(h4, flag, e')
  }

  function MakeIn(h: Heap, flag: bool, x: Expr, list: List): (r: (Expr, Heap))
    ensures Later(h, r.1)
  {
    if list.NoList? then
      if h.renaming then (x, h)
      else NewLeaf(h.Delete(x), Literal(OfBool(flag)))
    else if Count(list.items) == 1 then
      var (only, h1) := TakeOnly(h, list);
      PExpr(h1, Bin(if flag then Ne else Eq), x, only)
    else
      var (e, h1) := PExpr(h, In, x, Null);
      var (e', h2) := AttachList(h1, e, list);
      NegateIf(h2, flag, e')
  }

  function MakeCase(h: Heap, operand: Expr, arms: List, otherwise: Expr): (r: (Expr, Heap))
    ensures Later(h, r.1)
  {
    var (e, h1) := PExpr(h, Case, operand, Null);
    if e.Null? then (Null, h1.DeleteList(arms).Delete(otherwise))
    else
      var (list, h2) := if otherwise.Null? then (arms, h1) else ListAppend(h1, arms, otherwise);
      AttachList(h2, e, list)
  }

  function AppendArm(h: Heap, arms: List, cond: Expr, result: Expr): (r: (List, Heap))
    ensures Later(h, r.1)
  {
    var (list, h1) := ListAppend(h, arms, cond);
    ListAppend(h1, list, result)
  }

  function MakeVector(h: Heap, init: List, last: Expr): (r: (Expr, Heap))
    ensures Later(h, r.1)
  {
    var (list, h1) := ListAppend(h, init, last);
    var (e, h2) := PExpr(h1, Vector, Null, Null);
    AttachList(h2, e, list)
  }

  function OfExpr(r: (Expr, Heap)): (Minor, Heap) {
    (ExprValue(r.0), r.1)
  }

  function OfList(r: (List, Heap)): (Minor, Heap) {
    (ListValue(r.0), r.1)
  }

  function ExprAt(args: seq<Arg>, i: nat): Expr
    requires i < |args| && Kinds(args)[i] == KExpr
  {
    args[i].minor.e
  }

  function ListAt(args: seq<Arg>, i: nat): List
    requires i < |args| && Kinds(args)[i] == KList
  {
    args[i].minor.list
  }

  function FlagAt(args: seq<Arg>, i: nat): bool
    requires i < |args| && Kinds(args)[i] == KFlag
  {
    args[i].minor.flag
  }

  function LeafAt(args: seq<Arg>, i: nat): Op
    requires i < |args| && Kinds(args)[i] == KToken
  {
    args[i].minor.leaf
  }

  function Perform(action: Action, h: Heap, args: seq<Arg>): (r: (Minor, Heap))
    requires Accepts(action, args)
  {
    match action
    case Keep => (if args == [] then NoValue else args[0].minor, h)
    case Discard => (NoValue, DeleteAll(h, args))
    case Affirm => (FlagValue(false), h)
    case Negate => (FlagValue(true), h)
    case NoItems => (ListValue(NoList), h)
    case CaseMore => OfList(AppendArm(h, ListAt(args, 0), ExprAt(args, 2), ExprAt(args, 4)))
    case CaseFirst => OfList(AppendArm(h, NoList, ExprAt(args, 1), ExprAt(args, 3)))
    case ListMore => OfList(ListAppend(h, ListAt(args, 0), ExprAt(args, 2)))
    case ListFirst => OfList(ListAppend(h, NoList, ExprAt(args, 0)))
    case _ => OfExpr(MakeExpr(action, h, args))
  }

  function MakeExpr(action: Action, h: Heap, args: seq<Arg>): (r: (Expr, Heap))
    requires Accepts(action, args)
    requires !action.Keep? && ResultKind(action, []) == KExpr
  {
    match action
    case Leaf => NewLeaf(h, LeafAt(args, 0))
    case Parens | Else => (ExprAt(args, 1), h)
    case BinaryOp => PExpr(h, Bin(BinaryOf(args[1].major).value), ExprAt(args, 0), ExprAt(args, 2))
    case PrefixOp => PExpr(h, Un(PrefixOf(args[0].major).value), ExprAt(args, 1), Null)
    case PostfixNull => PExpr(h, Un(PostfixOf(args[1].major).value), ExprAt(args, 0), Null)
    case PostfixNotNull => PExpr(h, Un(NotNull), ExprAt(args, 0), Null)
    case IsOp => MakeIs(h, Is, ExprAt(args, 0), ExprAt(args, 2), IsNull)
    case IsNotOp => MakeIs(h, IsNot, ExprAt(args, 0), ExprAt(args, 3), NotNull)
    case BetweenOp => MakeBetween(h, FlagAt(args, 1), ExprAt(args, 0), ExprAt(args, 2), ExprAt(args, 4))
    case InOp => MakeIn(h, FlagAt(args, 1), ExprAt(args, 0), ListAt(args, 3))
    case CaseOp => MakeCase(h, ExprAt(args, 1), ListAt(args, 2), ExprAt(args, 3))
    case VectorOp => MakeVector(h, ListAt(args, 1), ExprAt(args, 3))
    case NoExpr => (Null, h)
  }
}
