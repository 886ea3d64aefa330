/**
 The expression rewrites of the reduce actions preserve SQL's three-valued meaning: a
 source expression, built bottom-up by the actions in the order the parser runs them,
 evaluates to what the source means in every environment.
 */
module SqlMeaning {
  import opened Wrappers
  import opened SqlValues
  import opened SqlExprs
  import opened SqlActions

  type Env = nat -> SqlValue

  // ----- Source expressions and what they mean

  datatype Src =
    | SLiteral(v: SqlValue)
    | SColumn(n: nat)
    | SParens(e: Src)
    | SBinary(op: BinOp, left: Src, right: Src)
    | SPrefix(u: UnOp, e: Src)               // NOT e, -e, +e
    | SNullTest(u: UnOp, e: Src)             // e ISNULL, e NOTNULL, e NOT NULL
    | SIs(negated: bool, left: Src, right: Src)
    | SBetween(negated: bool, x: Src, lo: Src, hi: Src)
    | SIn(negated: bool, x: Src, list: SrcList)
    | SCase(operand: SrcOpt, arms: SrcArms, otherwise: SrcOpt)

  datatype SrcOpt = Absent | Present(e: Src)

  datatype SrcList = SNil | SMore(init: SrcList, last: Src)

  datatype SrcArms = SFirst(cond: Src, result: Src) | SMoreArms(init: SrcArms, cond: Src, result: Src)

  function NegatedIf(negated: bool, v: SqlValue): SqlValue {
    if negated then Not3(v) else v
  }

  function Meaning(s: Src, env: Env): SqlValue {
    match s
    case SLiteral(v) => v
    case SColumn(n) => env(n)
    case SParens(e) => Meaning(e, env)
    case SBinary(op, left, right) => Binary(op, Meaning(left, env), Meaning(right, env))
    case SPrefix(u, e) => Unary(u, Meaning(e, env))
    case SNullTest(u, e) => Unary(u, Meaning(e, env))
    case SIs(negated, left, right) => NegatedIf(negated, OfBool(Meaning(left, env) == Meaning(right, env)))
    case SBetween(negated, x, lo, hi) =>
      NegatedIf(negated, BetweenBounds(Meaning(x, env), Meaning(lo, env), Meaning(hi, env)))
    case SIn(negated, x, list) => NegatedIf(negated, Member(Meaning(x, env), ListMeaning(list, env)))
    case SCase(operand, arms, otherwise) =>
      FirstArm(OptMeaning(operand, env), ArmsMeaning(arms, env), OptMeaning(otherwise, env))
  }

  function OptMeaning(o: SrcOpt, env: Env): Option<SqlValue> {
    match o
    case Absent => None
    case Present(e) => Some(Meaning(e, env))
  }

  function ListMeaning(list: SrcList, env: Env): seq<SqlValue> {
    match list
    case SNil => []
    case SMore(init, last) => ListMeaning(init, env) + [Meaning(last, env)]
  }

  function ArmsMeaning(arms: SrcArms, env: Env): seq<(SqlValue, SqlValue)> {
    match arms
    case SFirst(cond, result) => [(Meaning(cond, env), Meaning(result, env))]
    case SMoreArms(init, cond, result) => ArmsMeaning(init, env) + [(Meaning(cond, env), Meaning(result, env))]
  }

  /** The result of the first arm taken, else the ELSE value, else NULL. */
  function FirstArm(operand: Option<SqlValue>, arms: seq<(SqlValue, SqlValue)>, otherwise: Option<SqlValue>): SqlValue {
    if arms == [] then (if otherwise.Some? then otherwise.value else SqlNull)
    else if TakesArm(operand, arms[0].0) then arms[0].1
    else FirstArm(operand, arms[1..], otherwise)
  }

  // ----- Trees and what they evaluate to

  function Eval(e: Expr, env: Env): SqlValue {
    match e
    case Null => SqlNull
    case Node(_, op, left, right, list) =>
      match op
      case Literal(v) => v
      case Column(n) => env(n)
      case Bin(b) => Binary(b, Eval(left, env), Eval(right, env))
      case Un(u) => Unary(u, Eval(left, env))
      case Is => OfBool(Eval(left, env) == Eval(right, env))
      case IsNot => OfBool(Eval(left, env) != Eval(right, env))
      case In => Member(Eval(left, env), EvalList(list, env))
      case Between =>
        var bounds := EvalList(list, env);
        if |bounds| == 2 then BetweenBounds(Eval(left, env), bounds[0], bounds[1]) else SqlNull
      case Case => RunCase(if left.Null? then None else Some(Eval(left, env)), EvalList(list, env))
      case _ => SqlNull
  }

  function EvalList(list: List, env: Env): seq<SqlValue> {
    match list
    case NoList => []
    case Exprs(_, items) => EvalItems(items, env)
  }

  function EvalItems(items: Items, env: Env): (vals: seq<SqlValue>)
    ensures |vals| == Count(items)
  {
    match items
    case Nil => []
    case Snoc(init, last) => EvalItems(init, env) + [Eval(last, env)]
  }

  /** The flat list of a CASE: conditions and results in turn, and an odd one out that is the ELSE. */
  function RunCase(operand: Option<SqlValue>, vals: seq<SqlValue>): SqlValue {
    if |vals| == 0 then SqlNull
    else if |vals| == 1 then vals[0]
    else if TakesArm(operand, vals[0]) then vals[1]
    else RunCase(operand, vals[2..])
  }

  // ----- Building a source expression with the reduce actions

  function Build(s: Src, h: Heap): (r: (Expr, Heap))
    ensures Later(h, r.1)
    decreases s, 0
  {
    match s
    case SLiteral(v) => NewLeaf(h, Literal(v))
    case SColumn(n) => NewLeaf(h, Column(n))
    case SParens(e) => Build(e, h)
    case SBinary(op, left, right) =>
      var (l, h1) := Build(left, h);
      var (r, h2) := Build(right, h1);
      PExpr(h2, Bin(op), l, r)
    case SPrefix(u, e) => BuildUnary(u, e, h)
    case SNullTest(u, e) => BuildUnary(u, e, h)
    case SIs(negated, left, right) =>
      var (l, h1) := Build(left, h);
      var (r, h2) := Build(right, h1);
      if negated then MakeIs(h2, IsNot, l, r, NotNull) else MakeIs(h2, Is, l, r, IsNull)
    case SBetween(negated, x, lo, hi) =>
      var (ex, h1) := Build(x, h);
      var (elo, h2) := Build(lo, h1);
      var (ehi, h3) := Build(hi, h2);
      MakeBetween(h3, negated, ex, elo, ehi)
    case SIn(negated, x, list) =>
      var (ex, h1) := Build(x, h);
      var (items, h2) := BuildList(list, h1);
      MakeIn(h2, negated, ex, items)
    case SCase(operand, arms, otherwise) =>
      var (eop, h1) := BuildOpt(operand, h);
      var (list, h2) := BuildArms(arms, h1);
      var (eelse, h3) := BuildOpt(otherwise, h2);
      MakeCase(h3, eop, list, eelse)
  }

  function BuildUnary(u: UnOp, e: Src, h: Heap): (r: (Expr, Heap))
    ensures Later(h, r.1)
    decreases e, 1
  {
    var (x, h1) := Build(e, h);
    PExpr(h1, Un(u), x, Null)
  }

  function BuildOpt(o: SrcOpt, h: Heap): (r: (Expr, Heap))
    ensures Later(h, r.1)
    decreases o
  {
    match o
    case Absent => (Null, h)
    case Present(e) => Build(e, h)
  }

  function BuildList(list: SrcList, h: Heap): (r: (List, Heap))
    ensures Later(h, r.1)
    decreases list
  {
    match list
    case SNil => (NoList, h)
    case SMore(init, last) =>
      var (items, h1) := BuildList(init, h);
      var (e, h2) := Build(last, h1);
      ListAppend(h2, items, e)
  }

  function BuildArms(arms: SrcArms, h: Heap): (r: (List, Heap))
    ensures Later(h, r.1)
    decreases arms
  {
    match arms
    case SFirst(cond, result) =>
      var (c, h1) := Build(cond, h);
      var (e, h2) := Build(result, h1);
      AppendArm(h2, NoList, c, e)
    case SMoreArms(init, cond, result) =>
      var (list, h1) := BuildArms(init, h);
      var (c, h2) := Build(cond, h1);
      var (e, h3) := Build(result, h2);
      AppendArm(h3, list, c, e)
  }

  // ----- One construction at a time

  /** No allocation fails; a parse that is renaming meets no empty IN list. */
  predicate Quiet(h: Heap, plainIn: bool) {
    h.NeverFails() && (h.renaming ==> plainIn)
  }

  predicate PlainIn(s: Src) {
    match s
    case SLiteral(_) | SColumn(_) => true
    case SParens(e) => PlainIn(e)
    case SBinary(_, left, right) => PlainIn(left) && PlainIn(right)
    case SPrefix(_, e) => PlainIn(e)
    case SNullTest(_, e) => PlainIn(e)
    case SIs(_, left, right) => PlainIn(left) && PlainIn(right)
    case SBetween(_, x, lo, hi) => PlainIn(x) && PlainIn(lo) && PlainIn(hi)
    case SIn(_, x, list) => PlainIn(x) && list.SMore? && PlainInList(list)
    case SCase(operand, arms, otherwise) => PlainInOpt(operand) && PlainInArms(arms) && PlainInOpt(otherwise)
  }

  predicate PlainInOpt(o: SrcOpt) {
    o.Present? ==> PlainIn(o.e)
  }

  predicate PlainInList(list: SrcList) {
    match list
    case SNil => true
    case SMore(init, last) => PlainInList(init) && PlainIn(last)
  }

  predicate PlainInArms(arms: SrcArms) {
    match arms
    case SFirst(cond, result) => PlainIn(cond) && PlainIn(result)
    case SMoreArms(init, cond, result) => PlainInArms(init) && PlainIn(cond) && PlainIn(result)
  }

  ghost predicate Evaluates(e: Expr, v: SqlValue, env: Env) {
    e.Node? && Eval(e, env) == v
  }

  /** An integer known at parse time is the value in every environment. */
  lemma {:induction false} IntegerIsValue(e: Expr, env: Env)
    requires IntegerOf(e).Some?
    ensures Eval(e, env) == SqlInt(IntegerOf(e).value)
    decreases e
  {
    if e.op.Un? {
      IntegerIsValue(e.left, env);
    }
  }

  /** Folding AND to the constant 0 is right even when the other operand is NULL. */
  lemma PExprBinary(h: Heap, op: BinOp, left: Expr, right: Expr, env: Env)
    requires h.NeverFails() && left.Node? && right.Node?
    ensures Evaluates(PExpr(h, Bin(op), left, right).0, Binary(op, Eval(left, env), Eval(right, env)), env)
  {
    if AlwaysFalse(left) {
      IntegerIsValue(left, env);
    }
    if AlwaysFalse(right) {
      IntegerIsValue(right, env);
    }
  }

  lemma PExprUnary(h: Heap, u: UnOp, x: Expr, env: Env)
    requires h.NeverFails() && x.Node?
    ensures Evaluates(PExpr(h, Un(u), x, Null).0, Unary(u, Eval(x, env)), env)
  {
  }

  lemma MakeIsMeans(h: Heap, negated: bool, left: Expr, right: Expr, env: Env)
    requires h.NeverFails() && left.Node? && right.Node?
    ensures var r := if negated then MakeIs(h, IsNot, left, right, NotNull) else MakeIs(h, Is, left, right, IsNull);
            Evaluates(r.0, NegatedIf(negated, OfBool(Eval(left, env) == Eval(right, env))), env)
  {
    if right.op == Literal(SqlNull) {
      assert Eval(right, env) == SqlNull;
    }
  }

  lemma AppendEvaluates(h: Heap, list: List, e: Expr, env: Env)
    requires h.NeverFails()
    ensures var r := ListAppend(h, list, e).0;
            r.Exprs? && EvalList(r, env) == EvalList(list, env) + [Eval(e, env)]
  {
    assert EvalItems(Snoc(Nil, e), env) == [] + [Eval(e, env)];
  }

  lemma NegateIfMeans(h: Heap, flag: bool, e: Expr, env: Env)
    requires h.NeverFails() && e.Node?
    ensures Evaluates(NegateIf(h, flag, e).0, NegatedIf(flag, Eval(e, env)), env)
  {
  }

  lemma MakeBetweenMeans(h: Heap, flag: bool, x: Expr, lo: Expr, hi: Expr, env: Env)
    requires h.NeverFails() && x.Node?
    ensures Evaluates(MakeBetween(h, flag, x, lo, hi).0,
                      NegatedIf(flag, BetweenBounds(Eval(x, env), Eval(lo, env), Eval(hi, env))), env)
  {
    var (list1, h1) := ListAppend(h, NoList, lo);
    var (list2, h2) := ListAppend(h1, list1, hi);
    AppendEvaluates(h, NoList, lo, env);
    AppendEvaluates(h1, list1, hi, env);
    assert EvalList(list2, env) == [Eval(lo, env), Eval(hi, env)];
    var (e, h3) := PExpr(h2, Between, x, Null);
    var (e', h4) := AttachList(h3, e, list2);
    NegateIfMeans(h4, flag, e', env);
  }

  /** The empty list gives a constant, a single element a comparison, more elements an IN. */
  lemma MakeInMeans(h: Heap, flag: bool, x: Expr, list: List, env: Env)
    requires Quiet(h, list.Exprs?) && x.Node?
    requires list.Exprs? ==> Count(list.items) > 0
    requires list.Exprs? && Count(list.items) == 1 ==> list.items.last.Node?
    ensures Evaluates(MakeIn(h, flag, x, list).0,
                      NegatedIf(flag, Member(Eval(x, env), EvalList(list, env))), env)
  {
    if list.Exprs? && Count(list.items) == 1 {
      assert list.items.init.Nil?;
      var only := list.items.last;
      assert EvalList(list, env) == [] + [Eval(only, env)] == [Eval(only, env)];
      assert Member(Eval(x, env), [Eval(only, env)]) == Or3(Binary(Eq, Eval(x, env), Eval(only, env)), False);
      PExprBinary(h.Free(list.id), if flag then Ne else Eq, x, only, env);
    } else if list.Exprs? {
      var (e, h1) := PExpr(h, In, x, Null);
      var (e', h2) := AttachList(h1, e, list);
      NegateIfMeans(h2, flag, e', env);
    }
  }

  // ----- CASE

  /** The values of the arms laid flat, the way the list of a CASE node holds them. */
  function Flat(arms: seq<(SqlValue, SqlValue)>): (vals: seq<SqlValue>)
    ensures |vals| == 2 * |arms|
  {
    if arms == [] then [] else [arms[0].0, arms[0].1] + Flat(arms[1..])
  }

  lemma {:induction false} FlatSnoc(arms: seq<(SqlValue, SqlValue)>, cond: SqlValue, result: SqlValue)
    ensures Flat(arms + [(cond, result)]) == Flat(arms) + [cond] + [result]
  {
    if arms == [] {
      assert arms + [(cond, result)] == [(cond, result)];
      assert [(cond, result)][1..] == [];
    } else {
      assert (arms + [(cond, result)])[1..] == arms[1..] + [(cond, result)];
      FlatSnoc(arms[1..], cond, result);
    }
  }

  lemma {:induction false} RunFlat(operand: Option<SqlValue>, arms: seq<(SqlValue, SqlValue)>, otherwise: Option<SqlValue>)
    ensures RunCase(operand, Flat(arms) + (if otherwise.Some? then [otherwise.value] else []))
         == FirstArm(operand, arms, otherwise)
  {
    var tail := if otherwise.Some? then [otherwise.value] else [];
    if arms == [] {
      assert Flat(arms) + tail == tail;
    } else {
      assert (Flat(arms) + tail)[2..] == Flat(arms[1..]) + tail;
      RunFlat(operand, arms[1..], otherwise);
    }
  }

  lemma MakeCaseMeans(h: Heap, operand: Expr, arms: List, otherwise: Expr, env: Env,
                      op: Option<SqlValue>, vals: seq<(SqlValue, SqlValue)>, els: Option<SqlValue>)
    requires h.NeverFails()
    requires if op.None? then operand.Null? else Evaluates(operand, op.value, env)
    requires if els.None? then otherwise.Null? else Evaluates(otherwise, els.value, env)
    requires EvalList(arms, env) == Flat(vals)
    ensures Evaluates(MakeCase(h, operand, arms, otherwise).0, FirstArm(op, vals, els), env)
  {
    RunFlat(op, vals, els);
    var (e, h1) := PExpr(h, Case, operand, Null);
    if els.Some? {
      AppendEvaluates(h1, arms, otherwise, env);
    } else {
      assert Flat(vals) + [] == Flat(vals);
    }
  }

  // ----- Whole expressions

  /**
   Whatever the environment, the tree built for a source expression has the source's value.
   While renaming this needs every IN list to be non-empty.
   */
  lemma {:induction false} BuildPreservesMeaning(s: Src, h: Heap, env: Env)
    requires Quiet(h, PlainIn(s))
    ensures Evaluates(Build(s, h).0, Meaning(s, env), env)
    decreases s, 0
  {
    match s {
      case SLiteral(v) =>
      case SColumn(n) =>
      case SParens(e) => BuildPreservesMeaning(e, h, env);
      case SBinary(op, left, right) =>
        var (l, h1) := Build(left, h);
        var (r, h2) := Build(right, h1);
        BuildPreservesMeaning(left, h, env);
        BuildPreservesMeaning(right, h1, env);
        PExprBinary(h2, op, l, r, env);
      case SPrefix(u, e) => BuildUnaryMeans(u, e, h, env);
      case SNullTest(u, e) => BuildUnaryMeans(u, e, h, env);
      case SIs(negated, left, right) =>
        var (l, h1) := Build(left, h);
        var (r, h2) := Build(right, h1);
        BuildPreservesMeaning(left, h, env);
        BuildPreservesMeaning(right, h1, env);
        MakeIsMeans(h2, negated, l, r, env);
      case SBetween(negated, x, lo, hi) =>
        var (ex, h1) := Build(x, h);
        var (elo, h2) := Build(lo, h1);
        var (ehi, h3) := Build(hi, h2);
        BuildPreservesMeaning(x, h, env);
        BuildPreservesMeaning(lo, h1, env);
        BuildPreservesMeaning(hi, h2, env);
        MakeBetweenMeans(h3, negated, ex, elo, ehi, env);
      case SIn(negated, x, list) =>
        var (ex, h1) := Build(x, h);
        var (items, h2) := BuildList(list, h1);
        BuildPreservesMeaning(x, h, env);
        BuildListMeans(list, h1, env);
        MakeInMeans(h2, negated, ex, items, env);
      case SCase(operand, arms, otherwise) =>
        var (eop, h1) := BuildOpt(operand, h);
        var (list, h2) := BuildArms(arms, h1);
        var (eelse, h3) := BuildOpt(otherwise, h2);
        BuildOptMeans(operand, h, env);
        BuildArmsMeans(arms, h1, env);
        BuildOptMeans(otherwise, h2, env);
        MakeCaseMeans(h3, eop, list, eelse, env,
                      OptMeaning(operand, env), ArmsMeaning(arms, env), OptMeaning(otherwise, env));
    }
  }

  lemma {:induction false} BuildUnaryMeans(u: UnOp, e: Src, h: Heap, env: Env)
    requires Quiet(h, PlainIn(e))
    ensures Evaluates(BuildUnary(u, e, h).0, Unary(u, Meaning(e, env)), env)
    decreases e, 1
  {
    var (x, h1) := Build(e, h);
    BuildPreservesMeaning(e, h, env);
    PExprUnary(h1, u, x, env);
  }

  lemma {:induction false} BuildOptMeans(o: SrcOpt, h: Heap, env: Env)
    requires Quiet(h, PlainInOpt(o))
    ensures var e := BuildOpt(o, h).0;
            if o.Absent? then e.Null? else Evaluates(e, Meaning(o.e, env), env)
    decreases o
  {
    if o.Present? {
      BuildPreservesMeaning(o.e, h, env);
    }
  }

  lemma {:induction false} BuildListMeans(list: SrcList, h: Heap, env: Env)
    requires Quiet(h, PlainInList(list))
    ensures var items := BuildList(list, h).0;
            && EvalList(items, env) == ListMeaning(list, env)
            && (items.NoList? <==> list.SNil?)
            && (items.Exprs? ==> items.items.Snoc? && items.items.last.Node?)
    decreases list
  {
    if list.SMore? {
      var (items, h1) := BuildList(list.init, h);
      var (e, h2) := Build(list.last, h1);
      BuildListMeans(list.init, h, env);
      BuildPreservesMeaning(list.last, h1, env);
      AppendEvaluates(h2, items, e, env);
    }
  }

  lemma {:induction false} BuildArmsMeans(arms: SrcArms, h: Heap, env: Env)
    requires Quiet(h, PlainInArms(arms))
    ensures EvalList(BuildArms(arms, h).0, env) == Flat(ArmsMeaning(arms, env))
    decreases arms
  {
    var before := if arms.SFirst? then [] else ArmsMeaning(arms.init, env);
    var (list, h1) := if arms.SFirst? then (NoList, h) else BuildArms(arms.init, h);
    if arms.SMoreArms? {
      BuildArmsMeans(arms.init, h, env);
    }
    var (c, h2) := Build(arms.cond, h1);
    var (e, h3) := Build(arms.result, h2);
    BuildPreservesMeaning(arms.cond, h1, env);
    BuildPreservesMeaning(arms.result, h2, env);
    var (list1, h4) := ListAppend(h3, list, c);
    AppendEvaluates(h3, list, c, env);
    AppendEvaluates(h4, list1, e, env);
    FlatSnoc(before, Eval(c, env), Eval(e, env));
    assert before + [(Eval(c, env), Eval(e, env))] == ArmsMeaning(arms, env);
  }

  // ----- While ALTER TABLE RENAME parses

  /** The source with each x IN () and each x NOT IN () replaced by x. */
  function Strip(s: Src): Src {
    match s
    case SLiteral(_) | SColumn(_) => s
    case SParens(e) => SParens(Strip(e))
    case SBinary(op, left, right) => SBinary(op, Strip(left), Strip(right))
    case SPrefix(u, e) => SPrefix(u, Strip(e))
    case SNullTest(u, e) => SNullTest(u, Strip(e))
    case SIs(negated, left, right) => SIs(negated, Strip(left), Strip(right))
    case SBetween(negated, x, lo, hi) => SBetween(negated, Strip(x), Strip(lo), Strip(hi))
    case SIn(negated, x, list) => if list.SNil? then Strip(x) else SIn(negated, Strip(x), StripList(list))
    case SCase(operand, arms, otherwise) => SCase(StripOpt(operand), StripArms(arms), StripOpt(otherwise))
  }

  function StripOpt(o: SrcOpt): SrcOpt {
    if o.Absent? then o else Present(Strip(o.e))
  }

  function StripList(list: SrcList): SrcList {
    match list
    case SNil => SNil
    case SMore(init, last) => SMore(StripList(init), Strip(last))
  }

  function StripArms(arms: SrcArms): SrcArms {
    match arms
    case SFirst(cond, result) => SFirst(Strip(cond), Strip(result))
    case SMoreArms(init, cond, result) => SMoreArms(StripArms(init), Strip(cond), Strip(result))
  }

  /** What is stripped has no empty list, and while renaming it is built into the same tree, by the same steps. */
  lemma {:induction false} BuildStrips(s: Src, h: Heap)
    requires h.NeverFails() && h.renaming
    ensures PlainIn(Strip(s)) && Build(s, h) == Build(Strip(s), h)
    decreases s, 1
  {
    match s {
      case SLiteral(_) =>
      case SColumn(_) =>
      case SParens(e) => BuildStrips(e, h);
      case SBinary(_, left, right) =>
        BuildStrips(left, h);
        BuildStrips(right, Build(left, h).1);
      case SPrefix(u, e) => BuildUnaryStrips(u, e, h);
      case SNullTest(u, e) => BuildUnaryStrips(u, e, h);
      case SIs(_, left, right) =>
        BuildStrips(left, h);
        BuildStrips(right, Build(left, h).1);
      case SBetween(_, x, lo, hi) =>
        BuildStrips(x, h);
        BuildStrips(lo, Build(x, h).1);
        BuildStrips(hi, Build(lo, Build(x, h).1).1);
      case SIn(_, _, _) => BuildInStrips(s, h);
      case SCase(_, _, _) => BuildCaseStrips(s, h);
    }
  }

  lemma {:induction false} BuildUnaryStrips(u: UnOp, e: Src, h: Heap)
    requires h.NeverFails() && h.renaming
    ensures PlainIn(Strip(e)) && BuildUnary(u, e, h) == BuildUnary(u, Strip(e), h)
    decreases e, 2
  {
    BuildStrips(e, h);
  }

  lemma {:induction false} BuildInStrips(s: Src, h: Heap)
    requires h.NeverFails() && h.renaming && s.SIn?
    ensures PlainIn(Strip(s)) && Build(s, h) == Build(Strip(s), h)
    decreases s, 0
  {
    BuildStrips(s.x, h);
    BuildListStrips(s.list, Build(s.x, h).1);
  }

  lemma {:induction false} BuildCaseStrips(s: Src, h: Heap)
    requires h.NeverFails() && h.renaming && s.SCase?
    ensures PlainIn(Strip(s)) && Build(s, h) == Build(Strip(s), h)
    decreases s, 0
  {
    BuildOptStrips(s.operand, h);
    BuildArmsStrips(s.arms, BuildOpt(s.operand, h).1);
    BuildOptStrips(s.otherwise, BuildArms(s.arms, BuildOpt(s.operand, h).1).1);
  }

  lemma {:induction false} BuildOptStrips(o: SrcOpt, h: Heap)
    requires h.NeverFails() && h.renaming
    ensures PlainInOpt(StripOpt(o)) && BuildOpt(o, h) == BuildOpt(StripOpt(o), h)
    decreases o
  {
    if o.Present? {
      BuildStrips(o.e, h);
    }
  }

  lemma {:induction false} BuildListStrips(list: SrcList, h: Heap)
    requires h.NeverFails() && h.renaming
    ensures PlainInList(StripList(list)) && BuildList(list, h) == BuildList(StripList(list), h)
    decreases list
  {
    if list.SMore? {
      BuildListStrips(list.init, h);
      BuildStrips(list.last, BuildList(list.init, h).1);
    }
  }

  lemma {:induction false} BuildArmsStrips(arms: SrcArms, h: Heap)
    requires h.NeverFails() && h.renaming
    ensures PlainInArms(StripArms(arms)) && BuildArms(arms, h) == BuildArms(StripArms(arms), h)
    decreases arms
  {
    var h1 := if arms.SFirst? then h else BuildArms(arms.init, h).1;
    if arms.SMoreArms? {
      BuildArmsStrips(arms.init, h);
    }
    BuildStrips(arms.cond, h1);
    BuildStrips(arms.result, Build(arms.cond, h1).1);
  }

  /**
   While renaming, every source expression, wherever its empty lists are, is built into a
   tree that means the stripped source.
   */
  lemma RenamingMeansStripped(s: Src, h: Heap, env: Env)
    requires h.NeverFails() && h.renaming
    ensures Evaluates(Build(s, h).0, Meaning(Strip(s), env), env)
  {
    BuildStrips(s, h);
    BuildPreservesMeaning(Strip(s), h, env);
  }

  lemma EmptyInMeans(negated: bool, x: Src, env: Env)
    ensures var s := SIn(negated, x, SNil);
            Meaning(s, env) == OfBool(negated) && Strip(s) == Strip(x)
  {
    assert Member(Meaning(x, env), []) == False;
  }

  /** For one empty list at the root: it survives exactly where x already has the constant's value. */
  lemma EmptyInWhileRenaming(negated: bool, x: Src, h: Heap, env: Env)
    requires h.NeverFails() && h.renaming
    ensures var s := SIn(negated, x, SNil);
            Eval(Build(s, h).0, env) == Meaning(s, env) <==> Meaning(Strip(x), env) == OfBool(negated)
  {
    EmptyInMeans(negated, x, env);
    RenamingMeansStripped(SIn(negated, x, SNil), h, env);
  }

  lemma RenamingBreaksEmptyIn()
    ensures var h := Heap(0, {}, Nothing, true, true);
            var s := SIn(false, SLiteral(True), SNil);
            forall env: Env :: Eval(Build(s, h).0, env) == True && Meaning(s, env) == False
  {
  }

  // ----- LIMIT

  /** The two forms with an offset: LIMIT count OFFSET skip, and LIMIT skip, count. */
  datatype LimitClause = LimitOffset(count: Src, skip: Src) | LimitComma(skip: Src, count: Src)

  function BuildLimit(c: LimitClause, h: Heap): (r: (Expr, Heap)) {
    match c
    case LimitOffset(count, skip) =>
      var (l, h1) := Build(count, h);
      var (r, h2) := Build(skip, h1);
      PExpr(h2, Limit, l, r)
    case LimitComma(skip, count) =>
      var (l, h1) := Build(skip, h);
      var (r, h2) := Build(count, h1);
      PExpr(h2, Limit, r, l)
  }

  /** However it is written, the count ends up on the left and the number skipped on the right. */
  lemma BuildLimitMeans(c: LimitClause, h: Heap, env: Env)
    requires Quiet(h, PlainIn(c.count) && PlainIn(c.skip))
    ensures var e := BuildLimit(c, h).0;
            e.Node? && Eval(e.left, env) == Meaning(c.count, env) && Eval(e.right, env) == Meaning(c.skip, env)
  {
    var (first, second) := if c.LimitOffset? then (c.count, c.skip) else (c.skip, c.count);
    BuildPreservesMeaning(first, h, env);
    BuildPreservesMeaning(second, Build(first, h).1, env);
  }
}
