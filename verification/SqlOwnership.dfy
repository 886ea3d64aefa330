/**
 Ownership of expression nodes: whichever of its allocations fail, every reduce action
 accounts for every node. What its right-hand side owns is afterwards owned by its
 left-hand side or has been released once more.
 */
module SqlOwnership {
  import opened SqlValues
  import opened SqlExprs
  import opened SqlActions

  lemma {:induction false} NegateIfConserves(h: Heap, flag: bool, e: Expr, id: nat)
    ensures var (e', h') := NegateIf(h, flag, e); Conserved(h, Owns(e, id), h', Owns(e', id), id)
  {
    PExprConserves(h, Un(Not), e, Null, id);
  }

  lemma {:induction false} NodeWithListConserves(h: Heap, op: Op, x: Expr, list: List, id: nat)
    requires op != Bin(And)
    ensures var (e, h1) := PExpr(h, op, x, Null); var (e', h2) := AttachList(h1, e, list);
            Conserved(h, Owns(x, id) + ListOwns(list, id), h2, Owns(e', id), id)
  {
    var (e, h1) := PExpr(h, op, x, Null);
    PExprConserves(h, op, x, Null, id);
    AttachListConserves(h1, e, list, id);
  }

  lemma {:induction false} MakeIsConserves(h: Heap, op: Op, left: Expr, right: Expr, unary: UnOp, id: nat)
    ensures var (e, h') := MakeIs(h, op, left, right, unary);
            Conserved(h, Owns(left, id) + Owns(right, id), h', Owns(e, id), id)
  {
    var (e, h1) := PExpr(h, op, left, right);
    PExprConserves(h, op, left, right, id);
    BinaryToUnaryConserves(h1, right, e, unary, id);
  }

  lemma {:induction false} AppendArmConserves(h: Heap, arms: List, cond: Expr, result: Expr, id: nat)
    ensures var (list, h') := AppendArm(h, arms, cond, result);
            Conserved(h, ListOwns(arms, id) + Owns(cond, id) + Owns(result, id), h', ListOwns(list, id), id)
  {
    var (list, h1) := ListAppend(h, arms, cond);
    ListAppendConserves(h, arms, cond, id);
    ListAppendConserves(h1, list, result, id);
  }

  lemma {:induction false} MakeBetweenConserves(h: Heap, flag: bool, x: Expr, lo: Expr, hi: Expr, id: nat)
    ensures var (e, h') := MakeBetween(h, flag, x, lo, hi);
            Conserved(h, Owns(x, id) + Owns(lo, id) + Owns(hi, id), h', Owns(e, id), id)
  {
    var (list1, h1) := ListAppend(h, NoList, lo);
    var (list2, h2) := ListAppend(h1, list1, hi);
    var (e, h3) := PExpr(h2, Between, x, Null);
    var (e', h4) := AttachList(h3, e, list2);
    ListAppendConserves(h, NoList, lo, id);
    ListAppendConserves(h1, list1, hi, id);
    NodeWithListConserves(h2, Between, x, list2, id);
    NegateIfConserves(h4, flag, e', id);
  }

  lemma {:induction false} MakeInConserves(h: Heap, flag: bool, x: Expr, list: List, id: nat)
    ensures var (e, h') := MakeIn(h, flag, x, list);
            Conserved(h, Owns(x, id) + ListOwns(list, id), h', Owns(e, id), id)
  {
    if list.NoList? {
      NewLeafConserves(h.Delete(x), Literal(OfBool(flag)), id);
    } else if Count(list.items) == 1 {
      var (only, h1) := TakeOnly(h, list);
      TakeOnlyConserves(h, list, id);
      PExprConserves(h1, Bin(if flag then Ne else Eq), x, only, id);
    } else {
      var (e, h1) := PExpr(h, In, x, Null);
      var (e', h2) := AttachList(h1, e, list);
      NodeWithListConserves(h, In, x, list, id);
      NegateIfConserves(h2, flag, e', id);
    }
  }

  lemma {:induction false} MakeCaseConserves(h: Heap, operand: Expr, arms: List, otherwise: Expr, id: nat)
    ensures var (e, h') := MakeCase(h, operand, arms, otherwise);
            Conserved(h, Owns(operand, id) + ListOwns(arms, id) + Owns(otherwise, id), h', Owns(e, id), id)
  {
    var (e, h1) := PExpr(h, Case, operand, Null);
    PExprConserves(h, Case, operand, Null, id);
    if e.Node? {
      var (list, h2) := if otherwise.Null? then (arms, h1) else ListAppend(h1, arms, otherwise);
      ListAppendConserves(h1, arms, otherwise, id);
      AttachListConserves(h2, e, list, id);
    }
  }

  lemma {:induction false} MakeVectorConserves(h: Heap, init: List, last: Expr, id: nat)
    ensures var (e, h') := MakeVector(h, init, last);
            Conserved(h, ListOwns(init, id) + Owns(last, id), h', Owns(e, id), id)
  {
    var (list, h1) := ListAppend(h, init, last);
    ListAppendConserves(h, init, last, id);
    NodeWithListConserves(h1, Vector, Null, list, id);
  }

  // ----- What a right-hand side owns

  function OwnedAt(args: seq<Arg>, i: nat, id: nat): nat {
    if i < |args| then args[i].minor.OwnedTimes(id) else 0
  }

  lemma {:induction false} OwnedByFew(args: seq<Arg>, id: nat)
    requires |args| <= 5
    ensures OwnedBy(args, id) ==
      OwnedAt(args, 0, id) + OwnedAt(args, 1, id) + OwnedAt(args, 2, id) + OwnedAt(args, 3, id) + OwnedAt(args, 4, id)
    decreases |args|
  {
    if args != [] {
      OwnedByFew(args[1..], id);
      assert forall i: nat :: OwnedAt(args[1..], i, id) == OwnedAt(args, i + 1, id);
    }
  }

  lemma {:induction false} KeepConserves(args: seq<Arg>, id: nat)
    requires forall i | 0 <= i < |args| :: Ownerless(args[i].minor.KindOf())
    ensures OwnedBy(args, id) == 0
  {
    if args != [] {
      KeepConserves(args[1..], id);
    }
  }

  lemma KindsAre(args: seq<Arg>)
    ensures forall i | 0 <= i < |args| :: Kinds(args)[i] == args[i].minor.KindOf()
  {
  }

  // ----- The actions

  lemma {:induction false} ListActionConserves(action: Action, h: Heap, args: seq<Arg>, id: nat)
    requires Accepts(action, args) && ResultKind(action, []) == KList
    ensures var (minor, h') := Perform(action, h, args);
            Conserved(h, OwnedBy(args, id), h', minor.OwnedTimes(id), id)
  {
    KindsAre(args);
    OwnedByFew(args, id);
    match action {
      case NoItems =>
      case CaseMore => AppendArmConserves(h, ListAt(args, 0), ExprAt(args, 2), ExprAt(args, 4), id);
      case CaseFirst => AppendArmConserves(h, NoList, ExprAt(args, 1), ExprAt(args, 3), id);
      case ListMore => ListAppendConserves(h, ListAt(args, 0), ExprAt(args, 2), id);
      case ListFirst => ListAppendConserves(h, NoList, ExprAt(args, 0), id);
    }
  }

  predicate OverList(action: Action) {
    action in {BetweenOp, InOp, CaseOp, VectorOp}
  }

  lemma {:induction false} ListedExprConserves(action: Action, h: Heap, args: seq<Arg>, id: nat)
    requires Accepts(action, args) && OverList(action)
    ensures var (e, h') := MakeExpr(action, h, args);
            Conserved(h, OwnedBy(args, id), h', Owns(e, id), id)
  {
    KindsAre(args);
    OwnedByFew(args, id);
    match action {
      case BetweenOp =>
        MakeBetweenConserves(h, FlagAt(args, 1), ExprAt(args, 0), ExprAt(args, 2), ExprAt(args, 4), id);
      case InOp => MakeInConserves(h, FlagAt(args, 1), ExprAt(args, 0), ListAt(args, 3), id);
      case CaseOp => MakeCaseConserves(h, ExprAt(args, 1), ListAt(args, 2), ExprAt(args, 3), id);
      case VectorOp => MakeVectorConserves(h, ListAt(args, 1), ExprAt(args, 3), id);
    }
  }

  lemma {:induction false} PlainExprConserves(action: Action, h: Heap, args: seq<Arg>, id: nat)
    requires Accepts(action, args) && !OverList(action)
    requires !action.Keep? && ResultKind(action, []) == KExpr
    ensures var (e, h') := MakeExpr(action, h, args);
            Conserved(h, OwnedBy(args, id), h', Owns(e, id), id)
  {
    KindsAre(args);
    OwnedByFew(args, id);
    match action {
      case Leaf => NewLeafConserves(h, LeafAt(args, 0), id);
      case Parens | Else | NoExpr =>
      case BinaryOp => PExprConserves(h, Bin(BinaryOf(args[1].major).value), ExprAt(args, 0), ExprAt(args, 2), id);
      case PrefixOp => PExprConserves(h, Un(PrefixOf(args[0].major).value), ExprAt(args, 1), Null, id);
      case PostfixNull => PExprConserves(h, Un(PostfixOf(args[1].major).value), ExprAt(args, 0), Null, id);
      case PostfixNotNull => PExprConserves(h, Un(NotNull), ExprAt(args, 0), Null, id);
      case IsOp => MakeIsConserves(h, Is, ExprAt(args, 0), ExprAt(args, 2), IsNull, id);
      case IsNotOp => MakeIsConserves(h, IsNot, ExprAt(args, 0), ExprAt(args, 3), NotNull, id);
    }
  }

  /** Every modelled action, every pattern of failing allocations, every node. */
  lemma {:induction false} PerformConserves(action: Action, h: Heap, args: seq<Arg>, id: nat)
    requires Accepts(action, args)
    ensures var (minor, h') := Perform(action, h, args);
            Conserved(h, OwnedBy(args, id), h', minor.OwnedTimes(id), id)
  {
    KindsAre(args);
    if action == Keep {
      if args != [] {
        KeepConserves(args[1..], id);
      }
    } else if action == Discard {
    } else if action in {Affirm, Negate} {
      OwnedByFew(args, id);
    } else if ResultKind(action, []) == KList {
      ListActionConserves(action, h, args, id);
    } else if OverList(action) {
      ListedExprConserves(action, h, args, id);
    } else {
      PlainExprConserves(action, h, args, id);
    }
  }

  /** The value an action returns has the kind its left-hand side is declared to have. */
  lemma PerformKind(action: Action, h: Heap, args: seq<Arg>)
    requires Accepts(action, args)
    ensures Perform(action, h, args).0.KindOf() == ResultKind(action, Kinds(args))
  {
    KindsAre(args);
  }
}
