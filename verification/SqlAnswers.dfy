/**
 What the expressions built by the reduce actions evaluate to, token by token, said in
 integers and NULL: the token codes are those of parse.h, and the answers those of SQL.
 */
module SqlAnswers {
  import opened SqlActions
  import opened SqlExprs
  import opened SqlMeaning
  import opened SqlValues
  import opened Wrappers

  ghost predicate Means(e: Expr, v: SqlValue, env: Env) {
    e.Node? && Eval(e, env) == v
  }

  /** The action takes these entries, and the expression it makes of them has the value v. */
  ghost predicate Answers(action: Action, h: Heap, args: seq<Arg>, v: SqlValue, env: Env) {
    && Accepts(action, args)
    && var minor := Perform(action, h, args).0;
       minor.ExprValue? && Means(minor.e, v, env)
  }

  function Entry(e: Expr): Arg {
    Arg(0, ExprValue(e))
  }

  function Token(major: nat): Arg {
    Arg(major, TokenValue(Literal(SqlNull)))
  }

  lemma MadeAnswers(action: Action, h: Heap, args: seq<Arg>, made: (Expr, Heap), v: SqlValue, env: Env)
    requires Accepts(action, args) && Perform(action, h, args) == OfExpr(made) && Means(made.0, v, env)
    ensures Answers(action, h, args, v, env)
  {
  }

  // ----- Operators

  lemma Infix(h: Heap, l: Expr, major: nat, r: Expr, v: SqlValue, env: Env)
    requires h.NeverFails() && l.Node? && r.Node? && BinaryOf(major).Some?
    requires v == Binary(BinaryOf(major).value, Eval(l, env), Eval(r, env))
    ensures Answers(BinaryOp, h, [Entry(l), Token(major), Entry(r)], v, env)
  {
    var args := [Entry(l), Token(major), Entry(r)];
    var op := BinaryOf(major).value;
    assert Kinds(args) == [KExpr, KToken, KExpr];
    PExprBinary(h, op, l, r, env);
    MadeAnswers(BinaryOp, h, args, PExpr(h, Bin(op), l, r), v, env);
  }

  /** l < r, l > r, l >= r and l <= r, on integers. */
  lemma Comparisons(h: Heap, l: Expr, r: Expr, x: int, y: int, env: Env)
    requires h.NeverFails() && Means(l, SqlInt(x), env) && Means(r, SqlInt(y), env)
    ensures Answers(BinaryOp, h, [Entry(l), Token(56), Entry(r)], SqlInt(if x < y then 1 else 0), env)
    ensures Answers(BinaryOp, h, [Entry(l), Token(54), Entry(r)], SqlInt(if x > y then 1 else 0), env)
    ensures Answers(BinaryOp, h, [Entry(l), Token(57), Entry(r)], SqlInt(if x >= y then 1 else 0), env)
    ensures Answers(BinaryOp, h, [Entry(l), Token(55), Entry(r)], SqlInt(if x <= y then 1 else 0), env)
  {
    Infix(h, l, 56, r, SqlInt(if x < y then 1 else 0), env);
    Infix(h, l, 54, r, SqlInt(if x > y then 1 else 0), env);
    Infix(h, l, 57, r, SqlInt(if x >= y then 1 else 0), env);
    Infix(h, l, 55, r, SqlInt(if x <= y then 1 else 0), env);
  }

  /** l = r and l <> r, on integers. */
  lemma Equalities(h: Heap, l: Expr, r: Expr, x: int, y: int, env: Env)
    requires h.NeverFails() && Means(l, SqlInt(x), env) && Means(r, SqlInt(y), env)
    ensures Answers(BinaryOp, h, [Entry(l), Token(53), Entry(r)], SqlInt(if x == y then 1 else 0), env)
    ensures Answers(BinaryOp, h, [Entry(l), Token(52), Entry(r)], SqlInt(if x != y then 1 else 0), env)
  {
    Infix(h, l, 53, r, SqlInt(if x == y then 1 else 0), env);
    Infix(h, l, 52, r, SqlInt(if x != y then 1 else 0), env);
  }

  /** l + r, l - r and l * r, on integers. */
  lemma Arithmetic(h: Heap, l: Expr, r: Expr, x: int, y: int, env: Env)
    requires h.NeverFails() && Means(l, SqlInt(x), env) && Means(r, SqlInt(y), env)
    ensures Answers(BinaryOp, h, [Entry(l), Token(96), Entry(r)], SqlInt(x + y), env)
    ensures Answers(BinaryOp, h, [Entry(l), Token(97), Entry(r)], SqlInt(x - y), env)
    ensures Answers(BinaryOp, h, [Entry(l), Token(98), Entry(r)], SqlInt(x * y), env)
  {
    Infix(h, l, 96, r, SqlInt(x + y), env);
    Infix(h, l, 97, r, SqlInt(x - y), env);
    Infix(h, l, 98, r, SqlInt(x * y), env);
  }

  /** All of these are NULL if an operand is. */
  lemma WithNull(h: Heap, l: Expr, major: nat, r: Expr, env: Env)
    requires h.NeverFails() && l.Node? && r.Node? && (Eval(l, env) == SqlNull || Eval(r, env) == SqlNull)
    requires 52 <= major <= 57 || 96 <= major <= 98
    ensures Answers(BinaryOp, h, [Entry(l), Token(major), Entry(r)], SqlNull, env)
  {
    Infix(h, l, major, r, SqlNull, env);
  }

  /** l AND r is false if one of them is, else NULL if one of them is, else true. */
  lemma Conjunction(h: Heap, l: Expr, r: Expr, env: Env)
    requires h.NeverFails() && l.Node? && r.Node?
    ensures var v, w := Eval(l, env), Eval(r, env);
            Answers(BinaryOp, h, [Entry(l), Token(44), Entry(r)],
                    if v == SqlInt(0) || w == SqlInt(0) then SqlInt(0)
                    else if v == SqlNull || w == SqlNull then SqlNull
                    else SqlInt(1), env)
  {
    Infix(h, l, 44, r, And3(Eval(l, env), Eval(r, env)), env);
  }

  /** l OR r is false if both are, else NULL if neither is true, else true. */
  lemma Disjunction(h: Heap, l: Expr, r: Expr, env: Env)
    requires h.NeverFails() && l.Node? && r.Node?
    ensures var v, w := Eval(l, env), Eval(r, env);
            Answers(BinaryOp, h, [Entry(l), Token(43), Entry(r)],
                    if v == SqlInt(0) && w == SqlInt(0) then SqlInt(0)
                    else if v in {SqlNull, SqlInt(0)} && w in {SqlNull, SqlInt(0)} then SqlNull
                    else SqlInt(1), env)
  {
    Infix(h, l, 43, r, Or3(Eval(l, env), Eval(r, env)), env);
  }

  lemma Prefix(h: Heap, major: nat, e: Expr, env: Env)
    requires h.NeverFails() && e.Node? && PrefixOf(major).Some?
    ensures Answers(PrefixOp, h, [Token(major), Entry(e)], Unary(PrefixOf(major).value, Eval(e, env)), env)
  {
    assert Kinds([Token(major), Entry(e)]) == [KToken, KExpr];
    PExprUnary(h, PrefixOf(major).value, e, env);
  }

  /** NOT e, -e and +e. */
  lemma Prefixes(h: Heap, e: Expr, env: Env)
    requires h.NeverFails() && e.Node?
    ensures Answers(PrefixOp, h, [Token(19), Entry(e)],
                    if Eval(e, env) == SqlNull then SqlNull
                    else if Eval(e, env) == SqlInt(0) then SqlInt(1)
                    else SqlInt(0), env)
    ensures Answers(PrefixOp, h, [Token(97), Entry(e)],
                    if Eval(e, env) == SqlNull then SqlNull else SqlInt(0 - Eval(e, env).i), env)
    ensures Answers(PrefixOp, h, [Token(96), Entry(e)], Eval(e, env), env)
  {
    Prefix(h, 19, e, env);
    Prefix(h, 97, e, env);
    Prefix(h, 96, e, env);
  }

  lemma Postfix(h: Heap, e: Expr, major: nat, env: Env)
    requires h.NeverFails() && e.Node? && PostfixOf(major).Some?
    ensures Answers(PostfixNull, h, [Entry(e), Token(major)], Unary(PostfixOf(major).value, Eval(e, env)), env)
  {
    assert Kinds([Entry(e), Token(major)]) == [KExpr, KToken];
    PExprUnary(h, PostfixOf(major).value, e, env);
  }

  /** e ISNULL, e NOTNULL and e NOT NULL. */
  lemma NullTests(h: Heap, e: Expr, env: Env)
    requires h.NeverFails() && e.Node?
    ensures var isNull := if Eval(e, env) == SqlNull then 1 else 0;
            && Answers(PostfixNull, h, [Entry(e), Token(50)], SqlInt(isNull), env)
            && Answers(PostfixNull, h, [Entry(e), Token(51)], SqlInt(1 - isNull), env)
            && Answers(PostfixNotNull, h, [Entry(e), Token(19), Token(110)], SqlInt(1 - isNull), env)
  {
    Postfix(h, e, 50, env);
    Postfix(h, e, 51, env);
    assert Kinds([Entry(e), Token(19), Token(110)]) == [KExpr, KToken, KToken];
    PExprUnary(h, NotNull, e, env);
  }

  lemma IsMade(h: Heap, l: Expr, r: Expr)
    ensures var args := [Entry(l), Token(45), Entry(r)];
            Accepts(IsOp, args) && Perform(IsOp, h, args) == OfExpr(MakeIs(h, Is, l, r, IsNull))
  {
    assert Kinds([Entry(l), Token(45), Entry(r)]) == [KExpr, KToken, KExpr];
  }

  lemma IsNotMade(h: Heap, l: Expr, r: Expr)
    ensures var args := [Entry(l), Token(45), Token(19), Entry(r)];
            Accepts(IsNotOp, args) && Perform(IsNotOp, h, args) == OfExpr(MakeIs(h, IsNot, l, r, NotNull))
  {
    assert Kinds([Entry(l), Token(45), Token(19), Entry(r)]) == [KExpr, KToken, KToken, KExpr];
  }

  /** l IS r compares NULLs as any other value, and is never NULL; l IS NOT r is its opposite. */
  lemma Identity(h: Heap, l: Expr, r: Expr, env: Env)
    requires h.NeverFails() && l.Node? && r.Node?
    ensures Answers(IsOp, h, [Entry(l), Token(45), Entry(r)],
                    SqlInt(if Eval(l, env) == Eval(r, env) then 1 else 0), env)
    ensures Answers(IsNotOp, h, [Entry(l), Token(45), Token(19), Entry(r)],
                    SqlInt(if Eval(l, env) == Eval(r, env) then 0 else 1), env)
  {
    IsMade(h, l, r);
    IsNotMade(h, l, r);
    MakeIsMeans(h, false, l, r, env);
    MakeIsMeans(h, true, l, r, env);
  }

  // ----- IN and BETWEEN

  /** What the two forms of in_op and between_op leave on the stack. */
  lemma Flags(h: Heap, major: nat)
    ensures Accepts(Affirm, [Token(major)]) && Perform(Affirm, h, [Token(major)]) == (FlagValue(false), h)
    ensures Accepts(Negate, [Token(19), Token(major)])
    ensures Perform(Negate, h, [Token(19), Token(major)]) == (FlagValue(true), h)
  {
    assert Kinds([Token(major)]) == [KToken];
    assert Kinds([Token(19), Token(major)]) == [KToken, KToken];
  }

  /** 0 for 1, 1 for 0, NULL for NULL. */
  function Opposite(flag: bool, v: SqlValue): SqlValue {
    if !flag || v == SqlNull then v else SqlInt(1 - v.i)
  }

  /** v IN (vals) is true if v is one of them, else NULL if a NULL might be, else false. */
  lemma {:induction false} MemberIs(v: SqlValue, vals: seq<SqlValue>)
    ensures Member(v, vals) ==
            if v != SqlNull && v in vals then SqlInt(1)
            else if vals != [] && (v == SqlNull || SqlNull in vals) then SqlNull
            else SqlInt(0)
    decreases |vals|
  {
    if vals != [] {
      MemberIs(v, vals[1..]);
      assert vals == [vals[0]] + vals[1..];
    }
  }

  /** x IN (list), and with the flag set x NOT IN (list), for lists of every length, none included. */
  lemma Membership(h: Heap, x: Expr, flag: bool, list: List, env: Env)
    requires Quiet(h, list.Exprs?) && x.Node?
    requires list.Exprs? ==> Count(list.items) > 0
    requires list.Exprs? && Count(list.items) == 1 ==> list.items.last.Node?
    ensures var v, vals := Eval(x, env), EvalList(list, env);
            Answers(InOp, h, [Entry(x), Arg(0, FlagValue(flag)), Token(22), Arg(0, ListValue(list)), Token(23)],
                    Opposite(flag, if v != SqlNull && v in vals then SqlInt(1)
                                   else if vals != [] && (v == SqlNull || SqlNull in vals) then SqlNull
                                   else SqlInt(0)), env)
  {
    var args := [Entry(x), Arg(0, FlagValue(flag)), Token(22), Arg(0, ListValue(list)), Token(23)];
    assert Kinds(args) == [KExpr, KFlag, KToken, KList, KToken];
    MakeInMeans(h, flag, x, list, env);
    MemberIs(Eval(x, env), EvalList(list, env));
  }

  lemma BetweenMade(h: Heap, x: Expr, flag: bool, lo: Expr, hi: Expr)
    ensures var args := [Entry(x), Arg(0, FlagValue(flag)), Entry(lo), Token(44), Entry(hi)];
            Accepts(BetweenOp, args) && Perform(BetweenOp, h, args) == OfExpr(MakeBetween(h, flag, x, lo, hi))
  {
    assert Kinds([Entry(x), Arg(0, FlagValue(flag)), Entry(lo), Token(44), Entry(hi)]) ==
           [KExpr, KFlag, KExpr, KToken, KExpr];
  }

  lemma BetweenIs(flag: bool, v: SqlValue, a: SqlValue, b: SqlValue)
    ensures NegatedIf(flag, BetweenBounds(v, a, b)) ==
            Opposite(flag, if v != SqlNull && ((a != SqlNull && v.i < a.i) || (b != SqlNull && b.i < v.i))
                           then SqlInt(0)
                           else if v == SqlNull || a == SqlNull || b == SqlNull then SqlNull
                           else SqlInt(1))
  {
  }

  /** x BETWEEN lo AND hi: false if x is below lo or above hi, else NULL if one of the three is, else true. */
  lemma Betweenness(h: Heap, x: Expr, flag: bool, lo: Expr, hi: Expr, env: Env)
    requires h.NeverFails() && x.Node?
    ensures var v, a, b := Eval(x, env), Eval(lo, env), Eval(hi, env);
            Answers(BetweenOp, h, [Entry(x), Arg(0, FlagValue(flag)), Entry(lo), Token(44), Entry(hi)],
                    Opposite(flag, if v != SqlNull && ((a != SqlNull && v.i < a.i) || (b != SqlNull && b.i < v.i))
                                   then SqlInt(0)
                                   else if v == SqlNull || a == SqlNull || b == SqlNull then SqlNull
                                   else SqlInt(1)), env)
  {
    var v := NegatedIf(flag, BetweenBounds(Eval(x, env), Eval(lo, env), Eval(hi, env)));
    var args := [Entry(x), Arg(0, FlagValue(flag)), Entry(lo), Token(44), Entry(hi)];
    BetweenIs(flag, Eval(x, env), Eval(lo, env), Eval(hi, env));
    BetweenMade(h, x, flag, lo, hi);
    MakeBetweenMeans(h, flag, x, lo, hi, env);
    MadeAnswers(BetweenOp, h, args, MakeBetween(h, flag, x, lo, hi), v, env);
  }

  // ----- CASE

  /** Without an operand a condition must be a number other than 0, with one it must equal it. */
  predicate Chosen(operand: Option<SqlValue>, cond: SqlValue) {
    if operand.None? then cond != SqlNull && cond != SqlInt(0)
    else cond != SqlNull && cond == operand.value
  }

  /** Conditions and results in turn: the result of the first condition chosen. */
  lemma {:induction false} FirstChosen(operand: Option<SqlValue>, vals: seq<SqlValue>, k: nat)
    requires 2 * k + 1 < |vals| && Chosen(operand, vals[2 * k])
    requires forall j | 0 <= j < k :: !Chosen(operand, vals[2 * j])
    ensures RunCase(operand, vals) == vals[2 * k + 1]
    decreases k
  {
    if k > 0 {
      assert !Chosen(operand, vals[2 * 0]);
      forall j | 0 <= j < k - 1
        ensures !Chosen(operand, vals[2..][2 * j])
      {
        assert vals[2..][2 * j] == vals[2 * (j + 1)];
      }
      FirstChosen(operand, vals[2..], k - 1);
    }
  }

  /** If none is chosen, the ELSE, or NULL. */
  lemma {:induction false} NoneChosen(operand: Option<SqlValue>, vals: seq<SqlValue>, n: nat)
    requires 2 * n <= |vals| <= 2 * n + 1
    requires forall j | 0 <= j < n :: !Chosen(operand, vals[2 * j])
    ensures RunCase(operand, vals) == if |vals| == 2 * n then SqlNull else vals[2 * n]
    decreases n
  {
    if n > 0 {
      assert !Chosen(operand, vals[2 * 0]);
      forall j | 0 <= j < n - 1
        ensures !Chosen(operand, vals[2..][2 * j])
      {
        assert vals[2..][2 * j] == vals[2 * (j + 1)];
      }
      NoneChosen(operand, vals[2..], n - 1);
    }
  }

  lemma CaseMade(h: Heap, operand: Expr, arms: List, otherwise: Expr)
    ensures var args := [Token(0), Entry(operand), Arg(0, ListValue(arms)), Entry(otherwise), Token(11)];
            Accepts(CaseOp, args) && Perform(CaseOp, h, args) == OfExpr(MakeCase(h, operand, arms, otherwise))
  {
    assert Kinds([Token(0), Entry(operand), Arg(0, ListValue(arms)), Entry(otherwise), Token(11)]) ==
           [KToken, KExpr, KList, KExpr, KToken];
  }

  lemma CaseRuns(h: Heap, operand: Expr, arms: List, otherwise: Expr, env: Env)
    requires h.NeverFails()
    ensures Means(MakeCase(h, operand, arms, otherwise).0,
                  RunCase(if operand.Null? then None else Some(Eval(operand, env)),
                          EvalList(arms, env) + if otherwise.Null? then [] else [Eval(otherwise, env)]), env)
  {
    var (e, h1) := PExpr(h, Case, operand, Null);
    if otherwise.Null? {
      assert EvalList(arms, env) + [] == EvalList(arms, env);
    } else {
      AppendEvaluates(h1, arms, otherwise, env);
    }
  }

  /** CASE operand WHEN .. THEN .. ELSE otherwise END, over a flat list of n conditions and their results. */
  lemma Choice(h: Heap, operand: Expr, arms: List, n: nat, otherwise: Expr, env: Env)
    requires h.NeverFails() && |EvalList(arms, env)| == 2 * n
    ensures var op := if operand.Null? then None else Some(Eval(operand, env));
            var vals := EvalList(arms, env);
            var args := [Token(0), Entry(operand), Arg(0, ListValue(arms)), Entry(otherwise), Token(11)];
            && (forall k | 0 <= k < n && Chosen(op, vals[2 * k]) && forall j | 0 <= j < k :: !Chosen(op, vals[2 * j]) ::
                  Answers(CaseOp, h, args, vals[2 * k + 1], env))
            && ((forall j | 0 <= j < n :: !Chosen(op, vals[2 * j])) ==>
                  Answers(CaseOp, h, args, if otherwise.Null? then SqlNull else Eval(otherwise, env), env))
  {
    var op := if operand.Null? then None else Some(Eval(operand, env));
    var vals := EvalList(arms, env);
    var all := vals + if otherwise.Null? then [] else [Eval(otherwise, env)];
    CaseMade(h, operand, arms, otherwise);
    CaseRuns(h, operand, arms, otherwise, env);
    assert forall j | 0 <= j < n :: all[2 * j] == vals[2 * j] && all[2 * j + 1] == vals[2 * j + 1];
    forall k | 0 <= k < n && Chosen(op, vals[2 * k]) && forall j | 0 <= j < k :: !Chosen(op, vals[2 * j])
      ensures RunCase(op, all) == vals[2 * k + 1]
    {
      FirstChosen(op, all, k);
    }
    if forall j | 0 <= j < n :: !Chosen(op, vals[2 * j]) {
      NoneChosen(op, all, n);
    }
  }

  // ----- Lists, row values and what is passed on

  function ItemsOf(list: List): Items {
    if list.NoList? then Nil else list.items
  }

  /** A list built from another by one more element. */
  predicate OneMore(r: Minor, list: List, e: Expr) {
    r.ListValue? && r.list.Exprs? && r.list.items == Snoc(ItemsOf(list), e)
  }

  /** nexprlist, exprlist and case_exprlist: the elements in the order they are written. */
  lemma Lists(h: Heap, list: List, e: Expr)
    requires h.NeverFails()
    ensures var args := [Arg(0, ListValue(list)), Token(26), Entry(e)];
            Accepts(ListMore, args) && OneMore(Perform(ListMore, h, args).0, list, e)
    ensures Accepts(ListFirst, [Entry(e)]) && OneMore(Perform(ListFirst, h, [Entry(e)]).0, NoList, e)
    ensures Accepts(NoItems, []) && Perform(NoItems, h, []) == (ListValue(NoList), h)
  {
    assert Kinds([Arg(0, ListValue(list)), Token(26), Entry(e)]) == [KList, KToken, KExpr];
    assert Kinds([Entry(e)]) == [KExpr];
  }

  lemma Arms(h: Heap, list: List, cond: Expr, result: Expr)
    requires h.NeverFails()
    ensures var args := [Token(0), Entry(cond), Token(0), Entry(result)];
            && Accepts(CaseFirst, args)
            && Perform(CaseFirst, h, args).0.ListValue? && Perform(CaseFirst, h, args).0.list.Exprs?
            && Perform(CaseFirst, h, args).0.list.items == Snoc(Snoc(Nil, cond), result)
    ensures var args := [Arg(0, ListValue(list)), Token(0), Entry(cond), Token(0), Entry(result)];
            && Accepts(CaseMore, args)
            && Perform(CaseMore, h, args).0.ListValue? && Perform(CaseMore, h, args).0.list.Exprs?
            && Perform(CaseMore, h, args).0.list.items == Snoc(Snoc(ItemsOf(list), cond), result)
  {
    assert Kinds([Token(0), Entry(cond), Token(0), Entry(result)]) == [KToken, KExpr, KToken, KExpr];
    assert Kinds([Arg(0, ListValue(list)), Token(0), Entry(cond), Token(0), Entry(result)]) ==
           [KList, KToken, KExpr, KToken, KExpr];
  }

  /** A row value has the elements written, the last one included. */
  lemma RowValue(h: Heap, init: List, last: Expr)
    requires h.NeverFails()
    ensures var args := [Token(22), Arg(0, ListValue(init)), Token(26), Entry(last), Token(23)];
            && Accepts(VectorOp, args)
            && var e := Perform(VectorOp, h, args).0;
               && e.ExprValue? && e.e.Node? && e.e.op == Vector && e.e.left.Null? && e.e.right.Null?
               && e.e.list.Exprs? && e.e.list.items == Snoc(ItemsOf(init), last)
  {
    assert Kinds([Token(22), Arg(0, ListValue(init)), Token(26), Entry(last), Token(23)]) ==
           [KToken, KList, KToken, KExpr, KToken];
  }

  /** A literal, a column, parentheses and ELSE add nothing to the value; what is absent is null. */
  lemma PassedOn(h: Heap, v: SqlValue, n: nat, e: Expr, env: Env)
    requires h.NeverFails()
    ensures Answers(Leaf, h, [Arg(0, TokenValue(Literal(v)))], v, env)
    ensures Answers(Leaf, h, [Arg(0, TokenValue(Column(n)))], env(n), env)
    ensures var args := [Token(22), Entry(e), Token(23)];
            Accepts(Parens, args) && Perform(Parens, h, args) == (ExprValue(e), h)
    ensures Accepts(Else, [Token(0), Entry(e)]) && Perform(Else, h, [Token(0), Entry(e)]) == (ExprValue(e), h)
    ensures Accepts(NoExpr, []) && Perform(NoExpr, h, []) == (ExprValue(Null), h)
  {
    assert Kinds([Arg(0, TokenValue(Literal(v)))]) == [KToken];
    assert Kinds([Arg(0, TokenValue(Column(n)))]) == [KToken];
    assert Kinds([Token(22), Entry(e), Token(23)]) == [KToken, KExpr, KToken];
    assert Kinds([Token(0), Entry(e)]) == [KToken, KExpr];
  }

  // ----- The trees themselves

  /** The integer 0, under any number of unary signs. */
  predicate Zero(e: Expr) {
    e.Node? && (e.op == Literal(SqlInt(0)) || (e.op in {Un(UPlus), Un(UMinus)} && Zero(e.left)))
  }

  lemma {:induction false} ZeroIsFalse(e: Expr)
    ensures IntegerOf(e) == Some(0) <==> Zero(e)
  {
    if e.Node? && e.op in {Un(UPlus), Un(UMinus)} {
      ZeroIsFalse(e.left);
    }
  }

  /** AND with a constant 0 becomes that constant and releases both sides, unless an error or a renaming forbids it. */
  lemma AndTree(h: Heap, l: Expr, r: Expr)
    requires h.NeverFails() && l.Node? && r.Node?
    ensures var (e, h') := PExpr(h, Bin(And), l, r);
            if h.foldAnd && !h.renaming && (Zero(l) || Zero(r)) then
              e == Node(h.tries, Literal(SqlInt(0)), Null, Null, NoList) && h'.freed == OfTree(OfTree(h.freed, l), r)
            else e == Node(h.tries, Bin(And), l, r, NoList) && h'.freed == h.freed
  {
    ZeroIsFalse(l);
    ZeroIsFalse(r);
  }

  /** IS and IS NOT are unary over x when the right side is the literal NULL, which is released; not while renaming. */
  lemma IsTree(h: Heap, l: Expr, r: Expr)
    requires h.NeverFails() && l.Node? && r.Node?
    ensures var toNull := r.op == Literal(SqlNull) && !h.renaming;
            var (e, h1) := MakeIs(h, Is, l, r, IsNull);
            var (e', h2) := MakeIs(h, IsNot, l, r, NotNull);
            && e == Node(h.tries, if toNull then Un(IsNull) else Is, l, if toNull then Null else r, NoList)
            && e' == Node(h.tries, if toNull then Un(NotNull) else IsNot, l, if toNull then Null else r, NoList)
            && h1.freed == h2.freed == if toNull then OfTree(h.freed, r) else h.freed
  {
  }

  /** The forms of IN: a constant for no element, a comparison for one, an IN node for more; x alone while renaming. */
  lemma InTree(h: Heap, flag: bool, x: Expr, list: List)
    requires h.NeverFails() && x.Node?
    ensures var e := MakeIn(h, flag, x, list).0;
            if list.NoList? then
              if h.renaming then e == x
              else e == Node(h.tries, Literal(SqlInt(if flag then 1 else 0)), Null, Null, NoList)
            else if Count(list.items) == 1 then
              e == Node(h.tries, Bin(if flag then Ne else Eq), x, list.items.last, NoList)
            else if flag then e == Node(h.tries + 1, Un(Not), Node(h.tries, In, x, Null, list), Null, NoList)
            else e == Node(h.tries, In, x, Null, list)
  {
  }

  /** BETWEEN is a node over x with the two bounds as its list, under a NOT if negated. */
  lemma BetweenTree(h: Heap, flag: bool, x: Expr, lo: Expr, hi: Expr)
    requires h.NeverFails() && x.Node?
    ensures var e := MakeBetween(h, flag, x, lo, hi).0;
            && (flag ==> e.Node? && e.op == Un(Not) && e.right.Null?)
            && var between := if flag then e.left else e;
               && between.Node? && between.op == Between && between.left == x && between.right.Null?
               && between.list.Exprs? && between.list.items == Snoc(Snoc(Nil, lo), hi)
  {
  }

  function Power(k: nat): nat {
    if k == 0 then 1 else 2 * Power(k - 1)
  }

  lemma {:induction false} PowerHalves(n: nat, k: nat)
    requires n == Power(k)
    ensures PowerOfTwo(n)
  {
    if k > 0 {
      PowerHalves(n / 2, k - 1);
    }
  }

  lemma {:induction false} HalvesArePower(n: nat) returns (k: nat)
    requires PowerOfTwo(n) && n > 0
    ensures n == Power(k)
  {
    if n == 1 {
      k := 0;
    } else {
      k := HalvesArePower(n / 2);
      k := k + 1;
    }
  }

  /** Appending moves the block exactly when the length so far is 0 or a power of two. */
  lemma BlockMoves(h: Heap, list: List, e: Expr)
    requires h.NeverFails() && list.Exprs?
    ensures var (list', h') := ListAppend(h, list, e);
            var full := Count(list.items) == 0 || exists k :: Count(list.items) == Power(k);
            list' == Exprs(if full then h.tries else list.id, Snoc(list.items, e))
            && h'.freed == if full then OfBlock(h.freed, list.id) else h.freed
  {
    var n := Count(list.items);
    if PowerOfTwo(n) && n > 0 {
      var k := HalvesArePower(n);
    }
    if k :| n == Power(k) {
      PowerHalves(n, k);
    }
  }
}
