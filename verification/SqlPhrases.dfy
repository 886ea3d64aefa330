/**
 What a derivation tree says: the source expression of which it is a derivation, read off
 the actions of its rules. Folding the actions over the tree builds that source, so the
 values on the parser's stack mean what was parsed.
 */
module SqlPhrases {
  import opened LemonTrees
  import opened LemonValues
  import opened SqlActions
  import opened SqlExprs
  import opened SqlMeaning
  import opened SqlValues

  // ----- The source of a tree

  /** What an entry says. Nothing is said of row values, and of symbols that are no part of an expression. */
  datatype Phrase =
    | Unsaid
    | SaidToken(leaf: Op)
    | SaidFlag(flag: bool)
    | SaidExpr(o: SrcOpt)
    | SaidList(list: SrcList)
    | SaidArms(arms: SrcArms)
  {
    function KindOf(): Kind {
      match this
      case Unsaid => KNone
      case SaidToken(_) => KToken
      case SaidFlag(_) => KFlag
      case SaidExpr(_) => KExpr
      case _ => KList
    }
  }

  datatype Piece = Piece(major: nat, phrase: Phrase)

  function PieceKinds(ps: seq<Piece>): (kinds: seq<Kind>)
    ensures |kinds| == |ps|
    ensures forall i | 0 <= i < |ps| :: kinds[i] == ps[i].phrase.KindOf()
  {
    seq(|ps|, i requires 0 <= i < |ps| => ps[i].phrase.KindOf())
  }

  /** Whether an action's place can be taken by the piece, its kind being right. */
  predicate Suits(action: Action, i: nat, p: Piece) {
    && KnowsMajor(action, i, p.major)
    && (p.phrase.SaidExpr? && p.phrase.o.Absent? ==> action == CaseOp)
    && (p.phrase.SaidArms? ==> action == CaseOp || action == CaseMore)
    && (p.phrase.SaidList? ==> action != CaseOp && action != CaseMore)
    && (action == Leaf && p.phrase.SaidToken? ==> p.phrase.leaf.Literal? || p.phrase.leaf.Column?)
  }

  predicate Sayable(action: Action, ps: seq<Piece>) {
    && ExpectsKinds(action, PieceKinds(ps))
    && forall i | 0 <= i < |ps| :: Suits(action, i, ps[i])
  }

  function SrcAt(ps: seq<Piece>, i: nat): Src
    requires i < |ps| && ps[i].phrase.SaidExpr? && ps[i].phrase.o.Present?
  {
    ps[i].phrase.o.e
  }

  function OfSrc(s: Src): Phrase {
    SaidExpr(Present(s))
  }

  /** What a rule with this action says, given what its parts say. */
  function Saying(action: Action, ps: seq<Piece>): Phrase {
    if action == Keep then
      if |ps| == 1 then ps[0].phrase else Unsaid
    else if !Sayable(action, ps) then Unsaid
    else
      match action
      case Affirm => SaidFlag(false)
      case Negate => SaidFlag(true)
      case NoItems => SaidList(SNil)
      case ListFirst => SaidList(SMore(SNil, SrcAt(ps, 0)))
      case ListMore => SaidList(SMore(ps[0].phrase.list, SrcAt(ps, 2)))
      case CaseFirst => SaidArms(SFirst(SrcAt(ps, 1), SrcAt(ps, 3)))
      case CaseMore => SaidArms(SMoreArms(ps[0].phrase.arms, SrcAt(ps, 2), SrcAt(ps, 4)))
      case NoExpr => SaidExpr(Absent)
      case Else => OfSrc(SrcAt(ps, 1))
      case Leaf =>
        OfSrc(match ps[0].phrase.leaf case Literal(v) => SLiteral(v) case Column(n) => SColumn(n))
      case Parens => OfSrc(SParens(SrcAt(ps, 1)))
      case BinaryOp => OfSrc(SBinary(BinaryOf(ps[1].major).value, SrcAt(ps, 0), SrcAt(ps, 2)))
      case PrefixOp => OfSrc(SPrefix(PrefixOf(ps[0].major).value, SrcAt(ps, 1)))
      case PostfixNull => OfSrc(SNullTest(PostfixOf(ps[1].major).value, SrcAt(ps, 0)))
      case PostfixNotNull => OfSrc(SNullTest(NotNull, SrcAt(ps, 0)))
      case IsOp => OfSrc(SIs(false, SrcAt(ps, 0), SrcAt(ps, 2)))
      case IsNotOp => OfSrc(SIs(true, SrcAt(ps, 0), SrcAt(ps, 3)))
      case BetweenOp => OfSrc(SBetween(ps[1].phrase.flag, SrcAt(ps, 0), SrcAt(ps, 2), SrcAt(ps, 4)))
      case InOp => OfSrc(SIn(ps[1].phrase.flag, SrcAt(ps, 0), ps[3].phrase.list))
      case CaseOp => OfSrc(SCase(ps[1].phrase.o, ps[2].phrase.arms, ps[3].phrase.o))
      case _ => Unsaid
  }

  function PieceOf(ty: Typing, lhs: seq<nat>, tree: Tree): Piece
    decreases tree, 0
  {
    match tree
    case Read(major, leaf) => Piece(major, SaidToken(leaf))
    case Apply(rule, kids) =>
      if rule < |lhs| && rule < |ty.actions| then
        Piece(lhs[rule], Saying(ty.actions[rule], PiecesOf(ty, lhs, kids)))
      else Piece(0, Unsaid)
  }

  function PiecesOf(ty: Typing, lhs: seq<nat>, trees: seq<Tree>): (ps: seq<Piece>)
    ensures |ps| == |trees|
    decreases trees, 1
  {
    if trees == [] then []
    else PiecesOf(ty, lhs, trees[..|trees| - 1]) + [PieceOf(ty, lhs, trees[|trees| - 1])]
  }

  // ----- Building what is said

  function BuildPhrase(p: Phrase, h: Heap): (Minor, Heap) {
    match p
    case Unsaid => (NoValue, h)
    case SaidToken(leaf) => (TokenValue(leaf), h)
    case SaidFlag(flag) => (FlagValue(flag), h)
    case SaidExpr(Absent) => (ExprValue(Null), h)
    case SaidExpr(Present(s)) => OfExpr(Build(s, h))
    case SaidList(list) => SqlActions.OfList(BuildList(list, h))
    case SaidArms(arms) => SqlActions.OfList(BuildArms(arms, h))
  }

  /** The heap before the piece at i is built, when all are built in order. */
  function HeapAt(ps: seq<Piece>, h: Heap, i: nat): Heap
    requires i <= |ps|
  {
    if i == 0 then h else BuildPhrase(ps[i - 1].phrase, HeapAt(ps, h, i - 1)).1
  }

  /** The entries are those built from the pieces, in order. */
  ghost predicate Built(ps: seq<Piece>, h: Heap, args: seq<Arg>) {
    && |args| == |ps|
    && forall i | 0 <= i < |ps| ::
         args[i] == Arg(ps[i].major, BuildPhrase(ps[i].phrase, HeapAt(ps, h, i)).0)
  }

  lemma BuiltAccepted(action: Action, ps: seq<Piece>, h: Heap, args: seq<Arg>)
    requires Built(ps, h, args) && Sayable(action, ps)
    ensures Accepts(action, args)
  {
    assert Kinds(args) == PieceKinds(ps);
  }

  /** What is built at the place i, and what it does to the heap. */
  ghost predicate BuiltAt(ps: seq<Piece>, h: Heap, args: seq<Arg>, i: nat)
    requires i < |ps| == |args|
  {
    var before, after := HeapAt(ps, h, i), HeapAt(ps, h, i + 1);
    match ps[i].phrase
    case SaidExpr(Present(s)) => args[i].minor == ExprValue(Build(s, before).0) && after == Build(s, before).1
    case SaidExpr(Absent) => args[i].minor == ExprValue(Null) && after == before
    case SaidList(list) => args[i].minor == ListValue(BuildList(list, before).0) && after == BuildList(list, before).1
    case SaidArms(arms) => args[i].minor == ListValue(BuildArms(arms, before).0) && after == BuildArms(arms, before).1
    case SaidToken(leaf) => args[i].minor == TokenValue(leaf) && after == before
    case SaidFlag(flag) => args[i].minor == FlagValue(flag) && after == before
    case Unsaid => true
  }

  lemma BuiltAtAll(ps: seq<Piece>, h: Heap, args: seq<Arg>)
    requires Built(ps, h, args) && |ps| <= 5
    ensures HeapAt(ps, h, 0) == h
    ensures |ps| >= 1 ==> BuiltAt(ps, h, args, 0)
    ensures |ps| >= 2 ==> BuiltAt(ps, h, args, 1)
    ensures |ps| >= 3 ==> BuiltAt(ps, h, args, 2)
    ensures |ps| >= 4 ==> BuiltAt(ps, h, args, 3)
    ensures |ps| >= 5 ==> BuiltAt(ps, h, args, 4)
  {
    forall i | 0 <= i < |ps|
      ensures BuiltAt(ps, h, args, i)
    {
    }
  }

  lemma OptBuilt(o: SrcOpt, h: Heap)
    ensures BuildPhrase(SaidExpr(o), h) == OfExpr(BuildOpt(o, h))
  {
  }

  lemma SimpleBuilds(action: Action, ps: seq<Piece>, h: Heap, args: seq<Arg>)
    requires action in {Affirm, Negate, NoItems, NoExpr, Leaf, Else}
    requires Built(ps, h, args) && Sayable(action, ps) && Accepts(action, args)
    ensures Perform(action, HeapAt(ps, h, |ps|), args) == BuildPhrase(Saying(action, ps), h)
  {
    assert |PieceKinds(ps)| <= 5;
    BuiltAtAll(ps, h, args);
    match action
    case Affirm => assert |ps| == 1;
    case Negate => assert |ps| == 2;
    case NoItems => assert |ps| == 0;
    case NoExpr => assert |ps| == 0;
    case Leaf => assert |ps| == 1;
    case Else => assert |ps| == 2;
  }

  lemma ListFirstBuilds(ps: seq<Piece>, h: Heap, args: seq<Arg>)
    requires Built(ps, h, args) && Sayable(ListFirst, ps) && Accepts(ListFirst, args)
    ensures Perform(ListFirst, HeapAt(ps, h, |ps|), args) == BuildPhrase(Saying(ListFirst, ps), h)
  {
    assert |PieceKinds(ps)| == 1;
    BuiltAtAll(ps, h, args);
    assert BuildList(SNil, h) == (NoList, h);
  }

  lemma ListMoreBuilds(ps: seq<Piece>, h: Heap, args: seq<Arg>)
    requires Built(ps, h, args) && Sayable(ListMore, ps) && Accepts(ListMore, args)
    ensures Perform(ListMore, HeapAt(ps, h, |ps|), args) == BuildPhrase(Saying(ListMore, ps), h)
  {
    assert |PieceKinds(ps)| == 3;
    BuiltAtAll(ps, h, args);
  }

  lemma CaseFirstBuilds(ps: seq<Piece>, h: Heap, args: seq<Arg>)
    requires Built(ps, h, args) && Sayable(CaseFirst, ps) && Accepts(CaseFirst, args)
    ensures Perform(CaseFirst, HeapAt(ps, h, |ps|), args) == BuildPhrase(Saying(CaseFirst, ps), h)
  {
    assert |PieceKinds(ps)| == 4;
    BuiltAtAll(ps, h, args);
  }

  lemma CaseMoreBuilds(ps: seq<Piece>, h: Heap, args: seq<Arg>)
    requires Built(ps, h, args) && Sayable(CaseMore, ps) && Accepts(CaseMore, args)
    ensures Perform(CaseMore, HeapAt(ps, h, |ps|), args) == BuildPhrase(Saying(CaseMore, ps), h)
  {
    assert |PieceKinds(ps)| == 5;
    BuiltAtAll(ps, h, args);
  }

  lemma ParensBuilds(ps: seq<Piece>, h: Heap, args: seq<Arg>)
    requires Built(ps, h, args) && Sayable(Parens, ps) && Accepts(Parens, args)
    ensures Perform(Parens, HeapAt(ps, h, |ps|), args) == BuildPhrase(Saying(Parens, ps), h)
  {
    assert |PieceKinds(ps)| == 3;
    BuiltAtAll(ps, h, args);
  }

  lemma BinaryOpBuilds(ps: seq<Piece>, h: Heap, args: seq<Arg>)
    requires Built(ps, h, args) && Sayable(BinaryOp, ps) && Accepts(BinaryOp, args)
    ensures Perform(BinaryOp, HeapAt(ps, h, |ps|), args) == BuildPhrase(Saying(BinaryOp, ps), h)
  {
    assert |PieceKinds(ps)| == 3;
    BuiltAtAll(ps, h, args);
  }

  lemma PrefixOpBuilds(ps: seq<Piece>, h: Heap, args: seq<Arg>)
    requires Built(ps, h, args) && Sayable(PrefixOp, ps) && Accepts(PrefixOp, args)
    ensures Perform(PrefixOp, HeapAt(ps, h, |ps|), args) == BuildPhrase(Saying(PrefixOp, ps), h)
  {
    assert |PieceKinds(ps)| == 2;
    BuiltAtAll(ps, h, args);
    var u, e := PrefixOf(ps[0].major).value, SrcAt(ps, 1);
    assert Build(SPrefix(u, e), h) == BuildUnary(u, e, h);
  }

  lemma PostfixNullBuilds(ps: seq<Piece>, h: Heap, args: seq<Arg>)
    requires Built(ps, h, args) && Sayable(PostfixNull, ps) && Accepts(PostfixNull, args)
    ensures Perform(PostfixNull, HeapAt(ps, h, |ps|), args) == BuildPhrase(Saying(PostfixNull, ps), h)
  {
    assert |PieceKinds(ps)| == 2;
    BuiltAtAll(ps, h, args);
    var u, e := PostfixOf(ps[1].major).value, SrcAt(ps, 0);
    assert Build(SNullTest(u, e), h) == BuildUnary(u, e, h);
  }

  lemma PostfixNotNullBuilds(ps: seq<Piece>, h: Heap, args: seq<Arg>)
    requires Built(ps, h, args) && Sayable(PostfixNotNull, ps) && Accepts(PostfixNotNull, args)
    ensures Perform(PostfixNotNull, HeapAt(ps, h, |ps|), args) == BuildPhrase(Saying(PostfixNotNull, ps), h)
  {
    assert |PieceKinds(ps)| == 3;
    BuiltAtAll(ps, h, args);
    var e := SrcAt(ps, 0);
    assert Build(SNullTest(NotNull, e), h) == BuildUnary(NotNull, e, h);
  }

  lemma IsOpBuilds(ps: seq<Piece>, h: Heap, args: seq<Arg>)
    requires Built(ps, h, args) && Sayable(IsOp, ps) && Accepts(IsOp, args)
    ensures Perform(IsOp, HeapAt(ps, h, |ps|), args) == BuildPhrase(Saying(IsOp, ps), h)
  {
    assert |PieceKinds(ps)| == 3;
    BuiltAtAll(ps, h, args);
  }

  lemma IsNotOpBuilds(ps: seq<Piece>, h: Heap, args: seq<Arg>)
    requires Built(ps, h, args) && Sayable(IsNotOp, ps) && Accepts(IsNotOp, args)
    ensures Perform(IsNotOp, HeapAt(ps, h, |ps|), args) == BuildPhrase(Saying(IsNotOp, ps), h)
  {
    assert |PieceKinds(ps)| == 4;
    BuiltAtAll(ps, h, args);
  }

  lemma BetweenOpBuilds(ps: seq<Piece>, h: Heap, args: seq<Arg>)
    requires Built(ps, h, args) && Sayable(BetweenOp, ps) && Accepts(BetweenOp, args)
    ensures Perform(BetweenOp, HeapAt(ps, h, |ps|), args) == BuildPhrase(Saying(BetweenOp, ps), h)
  {
    assert |PieceKinds(ps)| == 5;
    BuiltAtAll(ps, h, args);
    var (_, h1) := Build(SrcAt(ps, 0), h);
    var (_, h2) := Build(SrcAt(ps, 2), h1);
    assert HeapAt(ps, h, 2) == h1 && HeapAt(ps, h, 4) == h2;
  }

  lemma InOpBuilds(ps: seq<Piece>, h: Heap, args: seq<Arg>)
    requires Built(ps, h, args) && Sayable(InOp, ps) && Accepts(InOp, args)
    ensures Perform(InOp, HeapAt(ps, h, |ps|), args) == BuildPhrase(Saying(InOp, ps), h)
  {
    assert |PieceKinds(ps)| == 5;
    BuiltAtAll(ps, h, args);
  }

  lemma CaseOpBuilds(ps: seq<Piece>, h: Heap, args: seq<Arg>)
    requires Built(ps, h, args) && Sayable(CaseOp, ps) && Accepts(CaseOp, args)
    ensures Perform(CaseOp, HeapAt(ps, h, |ps|), args) == BuildPhrase(Saying(CaseOp, ps), h)
  {
    assert |PieceKinds(ps)| == 5;
    BuiltAtAll(ps, h, args);
    OptBuilt(ps[1].phrase.o, h);
    OptBuilt(ps[3].phrase.o, HeapAt(ps, h, 3));
  }

  /** An action that says something, run on what its parts build, builds what it says. */
  lemma SayingBuilds(action: Action, ps: seq<Piece>, h: Heap, args: seq<Arg>)
    requires Built(ps, h, args) && Saying(action, ps) != Unsaid
    ensures Accepts(action, args)
    ensures Perform(action, HeapAt(ps, h, |ps|), args) == BuildPhrase(Saying(action, ps), h)
  {
    if action == Keep {
      assert HeapAt(ps, h, 0) == h;
    } else {
      BuiltAccepted(action, ps, h, args);
      match action
      case Parens => ParensBuilds(ps, h, args);
      case BinaryOp => BinaryOpBuilds(ps, h, args);
      case PrefixOp => PrefixOpBuilds(ps, h, args);
      case PostfixNull => PostfixNullBuilds(ps, h, args);
      case PostfixNotNull => PostfixNotNullBuilds(ps, h, args);
      case IsOp => IsOpBuilds(ps, h, args);
      case IsNotOp => IsNotOpBuilds(ps, h, args);
      case BetweenOp => BetweenOpBuilds(ps, h, args);
      case InOp => InOpBuilds(ps, h, args);
      case CaseOp => CaseOpBuilds(ps, h, args);
      case ListFirst => ListFirstBuilds(ps, h, args);
      case ListMore => ListMoreBuilds(ps, h, args);
      case CaseFirst => CaseFirstBuilds(ps, h, args);
      case CaseMore => CaseMoreBuilds(ps, h, args);
      case _ => SimpleBuilds(action, ps, h, args);
    }
  }

  // ----- Trees

  lemma PartsSaid(action: Action, ps: seq<Piece>)
    requires Saying(action, ps) != Unsaid
    ensures forall i | 0 <= i < |ps| :: ps[i].phrase != Unsaid
  {
    if action != Keep {
      forall i | 0 <= i < |ps|
        ensures ps[i].phrase != Unsaid
      {
        assert PieceKinds(ps)[i] != KNone;
      }
    }
  }

  lemma {:induction false} HeapAtPrefix(ps: seq<Piece>, p: Piece, h: Heap, i: nat)
    requires i <= |ps|
    ensures HeapAt(ps + [p], h, i) == HeapAt(ps, h, i)
  {
    if i > 0 {
      HeapAtPrefix(ps, p, h, i - 1);
    }
  }

  lemma BuiltOneMore(ps: seq<Piece>, p: Piece, h: Heap, args: seq<Arg>)
    requires Built(ps, h, args)
    ensures var (minor, h') := BuildPhrase(p.phrase, HeapAt(ps, h, |ps|));
            && Built(ps + [p], h, args + [Arg(p.major, minor)])
            && HeapAt(ps + [p], h, |ps| + 1) == h'
  {
    forall i | 0 <= i <= |ps|
      ensures HeapAt(ps + [p], h, i) == HeapAt(ps, h, i)
    {
      HeapAtPrefix(ps, p, h, i);
    }
  }

  /** Folding the actions over a tree builds what the tree says. */
  lemma {:induction false} TreeBuilds(ty: Typing, lhs: seq<nat>, tree: Tree, h: Heap)
    requires PieceOf(ty, lhs, tree).phrase != Unsaid
    ensures var piece := PieceOf(ty, lhs, tree);
            var (minor, h') := BuildPhrase(piece.phrase, h);
            Fold(Actions(ty, lhs), tree, h) == (Arg(piece.major, minor), h')
    decreases tree, 0
  {
    if tree.Apply? {
      var ps := PiecesOf(ty, lhs, tree.kids);
      var action := ty.actions[tree.rule];
      PartsSaid(action, ps);
      TreesBuild(ty, lhs, tree.kids, h);
      SayingBuilds(action, ps, h, FoldAll(Actions(ty, lhs), tree.kids, h).0);
    }
  }

  lemma {:induction false} TreesBuild(ty: Typing, lhs: seq<nat>, trees: seq<Tree>, h: Heap)
    requires forall i | 0 <= i < |trees| :: PiecesOf(ty, lhs, trees)[i].phrase != Unsaid
    ensures var ps := PiecesOf(ty, lhs, trees);
            var (args, h') := FoldAll(Actions(ty, lhs), trees, h);
            Built(ps, h, args) && h' == HeapAt(ps, h, |ps|)
    decreases trees, 1
  {
    if trees != [] {
      var n := |trees| - 1;
      var ps, front := PiecesOf(ty, lhs, trees), PiecesOf(ty, lhs, trees[..n]);
      assert forall i | 0 <= i < n :: front[i] == ps[i];
      assert ps[n] == PieceOf(ty, lhs, trees[n]);
      TreesBuild(ty, lhs, trees[..n], h);
      TreeBuilds(ty, lhs, trees[n], HeapAt(front, h, n));
      BuiltOneMore(front, ps[n], h, FoldAll(Actions(ty, lhs), trees[..n], h).0);
    }
  }

  lemma {:induction false} PiecesAre(ty: Typing, lhs: seq<nat>, trees: seq<Tree>, i: nat)
    requires i < |trees|
    ensures PiecesOf(ty, lhs, trees)[i] == PieceOf(ty, lhs, trees[i])
    decreases |trees|
  {
    if i < |trees| - 1 {
      PiecesAre(ty, lhs, trees[..|trees| - 1], i);
    }
  }

  /** Two tokens under a rule that negates: NOT IN, NOT BETWEEN. */
  predicate Negated(ty: Typing, lhs: seq<nat>, tree: Tree) {
    && tree.Apply? && tree.rule < |lhs| && tree.rule < |ty.actions| && ty.actions[tree.rule] == Negate
    && |tree.kids| == 2 && tree.kids[0].Read? && tree.kids[1].Read?
  }

  lemma NegatedSays(ty: Typing, lhs: seq<nat>, tree: Tree)
    requires Negated(ty, lhs, tree)
    ensures PieceOf(ty, lhs, tree).phrase == SaidFlag(true)
  {
    var ps := PiecesOf(ty, lhs, tree.kids);
    PiecesAre(ty, lhs, tree.kids, 0);
    PiecesAre(ty, lhs, tree.kids, 1);
    assert PieceKinds(ps) == [KToken, KToken];
  }

  /** A derivation of x NOT IN (list) says so. */
  lemma NotInSays(ty: Typing, lhs: seq<nat>, r: nat, kids: seq<Tree>, x: Src, list: SrcList)
    requires r < |lhs| && r < |ty.actions| && ty.actions[r] == InOp && |kids| == 5
    requires PieceOf(ty, lhs, kids[0]).phrase == OfSrc(x) && PieceOf(ty, lhs, kids[3]).phrase == SaidList(list)
    requires Negated(ty, lhs, kids[1]) && kids[2].Read? && kids[4].Read?
    ensures PieceOf(ty, lhs, Apply(r, kids)).phrase == OfSrc(SIn(true, x, list))
  {
    var ps := PiecesOf(ty, lhs, kids);
    NegatedSays(ty, lhs, kids[1]);
    forall i | 0 <= i < 5
      ensures ps[i] == PieceOf(ty, lhs, kids[i])
    {
      PiecesAre(ty, lhs, kids, i);
    }
    assert PieceKinds(ps) == [KExpr, KFlag, KToken, KList, KToken];
  }

  // ----- The entries of the stack

  lemma PerformLater(action: Action, h: Heap, args: seq<Arg>)
    requires Accepts(action, args)
    ensures Later(h, Perform(action, h, args).1)
  {
  }

  lemma {:induction false} FoldLater(ty: Typing, lhs: seq<nat>, tree: Tree, h: Heap)
    ensures Later(h, Fold(Actions(ty, lhs), tree, h).1)
    decreases tree, 0
  {
    if tree.Apply? {
      var (args, h1) := FoldAll(Actions(ty, lhs), tree.kids, h);
      FoldAllLater(ty, lhs, tree.kids, h);
      if tree.rule < |lhs| && tree.rule < |ty.actions| && Accepts(ty.actions[tree.rule], args) {
        PerformLater(ty.actions[tree.rule], h1, args);
      }
    }
  }

  lemma {:induction false} FoldAllLater(ty: Typing, lhs: seq<nat>, trees: seq<Tree>, h: Heap)
    ensures Later(h, FoldAll(Actions(ty, lhs), trees, h).1)
    decreases trees, 1
  {
    if trees != [] {
      var n := |trees| - 1;
      FoldAllLater(ty, lhs, trees[..n], h);
      FoldLater(ty, lhs, trees[n], FoldAll(Actions(ty, lhs), trees[..n], h).1);
    }
  }

  lemma SourceBuilds(ty: Typing, lhs: seq<nat>, tree: Tree, h: Heap, s: Src)
    requires PieceOf(ty, lhs, tree).phrase == OfSrc(s)
    ensures Fold(Actions(ty, lhs), tree, h).0.minor == ExprValue(Build(s, h).0)
  {
    TreeBuilds(ty, lhs, tree, h);
  }

  /**
   At every moment of a parse from which nothing was dropped, an entry whose tree says a
   source expression holds what building the source gives, and where no allocation fails
   that evaluates to what the source means.
   */
  lemma EntryMeans(ty: Typing, lhs: seq<nat>, past: Past, o: seq<StackEntry>, h: Heap, k: nat, s: Src, env: Env)
    requires Told(Actions(ty, lhs), past, o, h) && Growing(past)
    requires k < |TreesOf(past)| && PieceOf(ty, lhs, TreesOf(past)[k]).phrase == OfSrc(s)
    ensures |TreesOf(past)| == |o| - 1
    ensures o[k + 1].minor == ExprValue(Build(s, HeapBelow(past, k)).0)
    ensures Quiet(StartOf(past), PlainIn(s)) ==> Evaluates(o[k + 1].minor.e, Meaning(s, env), env)
  {
    EntryFolded(Actions(ty, lhs), past, o, h, k);
    var before := HeapBelow(past, k);
    SourceBuilds(ty, lhs, TreesOf(past)[k], before, s);
    FoldAllLater(ty, lhs, TreesOf(past)[..k], StartOf(past));
    if Quiet(StartOf(past), PlainIn(s)) {
      BuildPreservesMeaning(s, before, env);
    }
  }
}
