/**
 A small excerpt of the SQL grammar with its automaton and its compressed tables, written
 out by hand, and the proof that they satisfy every condition the driver is proved under.
 The excerpt has a keyword that falls back to ID, an empty rule, a unit rule that the
 tables skip, a left-recursive list and a shift fused with its reduction.
 */
module LemonExample {
  import opened Wrappers
  import opened Grammars
  import opened LrAutomata
  import opened LemonTables
  import opened LemonValues
  import opened LemonParser
  import opened SqlActions

  const END: nat := 0
  const COMMA: nat := 1
  const KEY: nat := 2
  const ID: nat := 3
  const NULL: nat := 4
  const ANY: nat := 5
  const INPUT: nat := 6
  const EXPRLIST: nat := 7
  const NEXPRLIST: nat := 8
  const EXPR: nat := 9
  const TERM: nat := 10

  const ExampleGrammar: Grammar := Grammar(6, 11, INPUT, [
    Rule(INPUT, [Sym(EXPRLIST)], true),
    Rule(EXPRLIST, [], true),
    Rule(EXPRLIST, [Sym(NEXPRLIST)], false),
    Rule(NEXPRLIST, [Sym(NEXPRLIST), Sym(COMMA), Sym(EXPR)], true),
    Rule(NEXPRLIST, [Sym(EXPR)], true),
    Rule(EXPR, [Sym(TERM)], false),
    Rule(EXPR, [Sym(ID)], true),
    Rule(TERM, [Sym(NULL)], true)])

  // States 0..3 look at a token; 4..8 only reduce (by rules 6, 7, 4, 3, 5); 9 accepts.
  const ExampleAutomaton: Automaton := Automaton(
    ExampleGrammar,
    [0, 0, ID],
    ANY,
    [map[ID := Shift(4), NULL := Shift(5)],
     map[END := Reduce(0)],
     map[COMMA := Shift(3)],
     map[ID := Shift(4), NULL := Shift(5)]],
    [Reduce(1), Error, Reduce(2), Error],
    [map[INPUT := 9, EXPRLIST := 1, NEXPRLIST := 2, EXPR := 6, TERM := 8],
     map[],
     map[],
     map[EXPR := 7, TERM := 8]],
    [6, 7, 4, 3, 5],
    [{Item(0, 0), Item(1, 0), Item(2, 0), Item(3, 0), Item(4, 0), Item(5, 0), Item(6, 0), Item(7, 0)},
     {Item(0, 1)},
     {Item(2, 1), Item(3, 1)},
     {Item(3, 2), Item(5, 0), Item(6, 0), Item(7, 0)},
     {Item(6, 1)},
     {Item(7, 1)},
     {Item(4, 1)},
     {Item(3, 3)},
     {Item(5, 1)},
     {}],
    [5, 5, 5, 5, 5, 5, -2, -1, 0, 1, 2],
    2)

  const ExampleTables: Tables := Tables(
    6, 11,
    3, 9, 16,
    17, 18, 19, 20, 27,
    [19, 19, 19, 15, 16, 20, 19, 3, 18, 1, 2, 24, 24, 23, 23],
    [11, 11, 11, ID, NULL, END, 11, COMMA, INPUT, EXPRLIST, NEXPRLIST, EXPR, TERM, EXPR, TERM, 11, 11, 11, 11, 11, 11],
    [0, 5, 6, 0], [2, -4, -4, 4], [21, 17, 22, 17],
    [0, 0, ID], ANY,
    [INPUT, EXPRLIST, EXPRLIST, NEXPRLIST, NEXPRLIST, EXPR, EXPR, TERM], [-1, 0, -1, -3, -1, -1, -1, -1])

  const ExampleTyping: Typing := Typing(
    [KToken, KToken, KToken, KToken, KToken, KToken, KNone, KList, KList, KExpr, KExpr],
    [Discard, NoItems, Keep, ListMore, ListFirst, Keep, Leaf, Leaf])

  lemma ExampleShape()
    ensures ExampleAutomaton.Shape()
  {
    var g := ExampleGrammar;
    forall r | 0 <= r < |g.rules|
      ensures g.RuleOk(g.rules[r])
    {
    }
  }

  lemma ExampleCells()
    ensures ExampleAutomaton.Shape()
    ensures forall s | 0 <= s < 4 :: ExampleAutomaton.CellsOk(s) && ExampleAutomaton.DefaultOk(s)
  {
    ExampleShape();
  }

  lemma ExampleGotos()
    ensures ExampleAutomaton.Shape()
    ensures forall s | 0 <= s < 4 :: ExampleAutomaton.GotosOk(s)
  {
    ExampleShape();
  }

  lemma ExampleItems()
    ensures ExampleAutomaton.Shape()
    ensures forall q | 0 <= q < 10 :: ExampleAutomaton.ItemSetOk(q)
  {
    ExampleShape();
  }

  lemma ExampleWeights()
    ensures ExampleAutomaton.Shape()
    ensures forall r | 0 <= r < 8 ::
              ExampleAutomaton.weight[ExampleAutomaton.Lhs(r)] < ExampleAutomaton.PartsWeight(ExampleAutomaton.Rhs(r))
  {
    ExampleShape();
    var a := ExampleAutomaton;
    assert [Sym(COMMA), Sym(EXPR)][1..] == [Sym(EXPR)];
    assert a.PartsWeight([Sym(EXPR)]) == 1;
    assert a.PartsWeight([Sym(COMMA), Sym(EXPR)]) == 6;
    assert a.Rhs(3)[1..] == [Sym(COMMA), Sym(EXPR)];
  }

  lemma ExampleConsistent()
    ensures ExampleAutomaton.Consistent()
  {
    ExampleCells();
    ExampleGotos();
    ExampleItems();
    ExampleWeights();
  }

  // The two-dimensional table, states by tokens.
  const ExampleCodes: seq<seq<Option<nat>>> := [
    [None, None, None, Some(15), Some(16), None],
    [Some(20), None, None, None, None, None],
    [None, Some(3), None, None, None, None],
    [None, None, None, Some(15), Some(16), None]]

  lemma ExampleLookupsStart(x: nat)
    requires x < 6
    ensures ExampleTables.WellFormed() && ExampleTables.Cell(0, x) == ExampleCodes[0][x]
  {
    assert ExampleTables.shiftOfst[0] == 0;
    assert x in {0, 1, 2, 3, 4, 5};
  }

  lemma ExampleLookupsList(x: nat)
    requires x < 6
    ensures ExampleTables.WellFormed() && ExampleTables.Cell(1, x) == ExampleCodes[1][x]
  {
    assert ExampleTables.shiftOfst[1] == 5;
    assert x in {0, 1, 2, 3, 4, 5};
  }

  lemma ExampleLookupsMore(x: nat)
    requires x < 6
    ensures ExampleTables.WellFormed() && ExampleTables.Cell(2, x) == ExampleCodes[2][x]
  {
    assert ExampleTables.shiftOfst[2] == 6;
    assert x in {0, 1, 2, 3, 4, 5};
  }

  lemma ExampleLookups(s: nat, x: nat)
    requires s < 4 && x < 6
    ensures ExampleTables.WellFormed() && ExampleTables.Cell(s, x) == ExampleCodes[s][x]
  {
    if s == 0 || s == 3 {
      ExampleLookupsStart(x);
    } else if s == 1 {
      ExampleLookupsList(x);
    } else {
      ExampleLookupsMore(x);
    }
  }

  lemma ExampleCodesMean(s: nat, x: nat)
    requires s < 4 && x < 6
    ensures ExampleCodes[s][x] ==
            if x in ExampleAutomaton.cells[s]
            then Some(ActCode(ExampleTables, ExampleAutomaton, ExampleAutomaton.cells[s][x])) else None
  {
    assert x in {0, 1, 2, 3, 4, 5};
  }

  lemma ExampleCellsMatch(s: nat)
    requires s < 4
    ensures ExampleTables.WellFormed() && CellsMatch(ExampleTables, ExampleAutomaton, s)
  {
    forall x: nat | x < ExampleTables.nToken
      ensures ExampleTables.Cell(s, x) ==
              if x in ExampleAutomaton.cells[s]
              then Some(ActCode(ExampleTables, ExampleAutomaton, ExampleAutomaton.cells[s][x])) else None
    {
      ExampleLookups(s, x);
      ExampleCodesMean(s, x);
    }
  }

  lemma ExampleGotoCells()
    ensures ExampleTables.WellFormed()
    ensures var t := ExampleTables;
            && t.GotoCell(0, INPUT) == Some(18) && t.GotoCell(0, EXPRLIST) == Some(1)
            && t.GotoCell(0, NEXPRLIST) == Some(2) && t.GotoCell(0, EXPR) == Some(24) && t.GotoCell(0, TERM) == Some(24)
            && t.GotoCell(3, EXPR) == Some(23) && t.GotoCell(3, TERM) == Some(23)
  {
  }

  lemma ExampleSkips()
    ensures var a := ExampleAutomaton;
            && !Skips(a, 9) && !Skips(a, 1) && !Skips(a, 2) && !Skips(a, 6) && !Skips(a, 7)
            && Skips(a, 8) && SkipTo(a, 8) == EXPR
    ensures var t, a := ExampleTables, ExampleAutomaton;
            && StateCode(t, a, 9) == 18 && StateCode(t, a, 1) == 1 && StateCode(t, a, 2) == 2
            && StateCode(t, a, 6) == 24 && StateCode(t, a, 7) == 23
  {
  }

  lemma ExampleGotoMatches(s: nat, x: nat)
    requires s < 4 && x in ExampleAutomaton.gotos[s]
    ensures var t, a := ExampleTables, ExampleAutomaton;
            var q := a.gotos[s][x];
            && t.GotoCell(s, x).Some?
            && t.GotoCell(s, x) == if Skips(a, q) then t.GotoCell(s, SkipTo(a, q)) else Some(StateCode(t, a, q))
  {
    ExampleGotoCells();
    ExampleSkips();
    assert s == 0 || s == 3;
    if s == 0 {
      assert x in {INPUT, EXPRLIST, NEXPRLIST, EXPR, TERM};
    } else {
      assert x in {EXPR, TERM};
    }
  }

  lemma ExampleGotosMatch(s: nat)
    requires s < 4
    ensures ExampleTables.WellFormed() && GotosMatch(ExampleTables, ExampleAutomaton, s)
  {
    forall x | x in ExampleAutomaton.gotos[s] {
      ExampleGotoMatches(s, x);
    }
  }

  lemma ExampleImplements()
    ensures Implements(ExampleTables, ExampleAutomaton)
  {
    ExampleShape();
    forall s | 0 <= s < 4
      ensures CellsMatch(ExampleTables, ExampleAutomaton, s) && GotosMatch(ExampleTables, ExampleAutomaton, s)
    {
      ExampleCellsMatch(s);
      ExampleGotosMatch(s);
    }
  }

  /** The kinds of the parts of each rule. */
  lemma ExampleKinds(r: nat)
    requires r < 8
    ensures ExampleAutomaton.Shape()
    ensures PartKinds(ExampleTyping, ExampleAutomaton.Rhs(r)) ==
            [[KList], [], [KList], [KList, KToken, KExpr], [KExpr], [KExpr], [KToken], [KToken]][r]
  {
    ExampleShape();
  }

  lemma ExampleRuleTyped(r: nat)
    requires r < 8
    ensures ExampleAutomaton.Shape() && RuleTyped(ExampleAutomaton, ExampleTyping, r)
  {
    ExampleKinds(r);
  }

  lemma ExampleWellTyped()
    ensures WellTyped(ExampleAutomaton, ExampleTyping)
  {
    ExampleShape();
    forall r | 0 <= r < 8
      ensures RuleTyped(ExampleAutomaton, ExampleTyping, r)
    {
      ExampleRuleTyped(r);
    }
  }

  /** The conditions under which the driver is proved can be met. */
  lemma ExampleSetup()
    ensures Setup(ExampleTables, ExampleAutomaton, ExampleTyping)
  {
    ExampleConsistent();
    ExampleImplements();
    ExampleWellTyped();
  }

  // ----- A run

  /** A reduction by a rule with one symbol, on a stack of one symbol. */
  lemma ReduceOne(a: Automaton, e: Entry, r: nat, token: nat)
    requires a.Consistent() && ValidStack(a, [Bottom, e])
    requires e.state < a.AcceptState() && a.ActionFor(e.state, token) == Reduce(r)
    requires r < |a.g.rules| && |a.Rhs(r)| == 1 && |a.gotos| > 0 && a.Lhs(r) in a.gotos[0]
    ensures var p' := [Bottom, Entry(a.gotos[0][a.Lhs(r)], a.Lhs(r))];
            && ValidStack(a, p')
            && ParseToken(a, 100, [Bottom, e], token) ==
               ParseToken(a, 100, p', token).After([r], Made(a, [Bottom, e], r))
  {
    var p := [Bottom, e];
    ActionOffered(a, p, token);
    ParseTokenReduces(a, 100, p, token);
    assert AfterReduce(a, p, r) == [Bottom, Entry(a.gotos[0][a.Lhs(r)], a.Lhs(r))];
  }

  /** The actions and gotos that the runs take. */
  lemma ExampleActions()
    ensures var a := ExampleAutomaton;
            && a.ActionFor(0, KEY) == Shift(4) && a.Reading(0, KEY) == ID && a.AcceptState() == 9
            && a.ActionFor(0, NULL) == Shift(5) && a.Reading(0, NULL) == NULL
            && a.ActionFor(4, END) == Reduce(6) && a.ActionFor(5, END) == Reduce(7)
            && a.ActionFor(8, END) == Reduce(5) && a.ActionFor(6, END) == Reduce(4)
            && a.ActionFor(2, END) == Reduce(2) && a.ActionFor(1, END) == Reduce(0)
            && a.Lhs(6) == EXPR && a.Lhs(7) == TERM && a.Lhs(5) == EXPR
            && a.Lhs(4) == NEXPRLIST && a.Lhs(2) == EXPRLIST && a.Lhs(0) == INPUT
            && |a.Rhs(6)| == 1 && |a.Rhs(7)| == 1 && |a.Rhs(5)| == 1
            && |a.Rhs(4)| == 1 && |a.Rhs(2)| == 1 && |a.Rhs(0)| == 1
  {
  }

  /** From an expression on, three reductions are made, one of them by a unit rule without code. */
  lemma ExprReduces(a: Automaton)
    requires a == ExampleAutomaton && a.Consistent() && ValidStack(a, [Bottom, Entry(6, EXPR)])
    ensures ParseToken(a, 100, [Bottom, Entry(6, EXPR)], END) == TokenResult([Bottom], [4, 2, 0], [4, 2, 0], Accepted)
    ensures Skippable(a, 2)
  {
    ExampleActions();
    ReduceOne(a, Entry(6, EXPR), 4, END);
    ListReduces(a);
  }

  lemma ListReduces(a: Automaton)
    requires a == ExampleAutomaton && a.Consistent() && ValidStack(a, [Bottom, Entry(2, NEXPRLIST)])
    ensures ParseToken(a, 100, [Bottom, Entry(2, NEXPRLIST)], END) == TokenResult([Bottom], [2, 0], [2, 0], Accepted)
    ensures Skippable(a, 2)
  {
    ExampleActions();
    ReduceOne(a, Entry(2, NEXPRLIST), 2, END);
    ReduceOne(a, Entry(1, EXPRLIST), 0, END);
    assert ParseToken(a, 100, [Bottom, Entry(9, INPUT)], END) == TokenResult([Bottom], [], [], Accepted);
  }

  /** Two tokens: one shifted, then one that is accepted. */
  lemma ShiftThenAccept(a: Automaton, token: nat, last: nat, e: Entry, rs: seq<nat>, made: seq<nat>)
    requires a.Consistent() && ValidStack(a, [Bottom])
    requires 0 < a.AcceptState() && a.ActionFor(0, token) == Shift(e.state) && a.Reading(0, token) == e.sym
    ensures ValidStack(a, [Bottom, e])
    ensures ParseToken(a, 100, [Bottom, e], last) == TokenResult([Bottom], rs, made, Accepted) ==>
              ParseTokens(a, 100, [Bottom], [token, last]) == TokenResult([Bottom], rs, made, Accepted)
  {
    var first := ParseToken(a, 100, [Bottom], token);
    assert first == TokenResult([Bottom, e], [], [], Shifted);
    assert [token, last][1..] == [last];
    assert ParseTokens(a, 100, [Bottom, e], [last]) == ParseToken(a, 100, [Bottom, e], last) ||
           ParseToken(a, 100, [Bottom, e], last).outcome == Shifted;
    assert [] + rs == rs && [] + made == made;
  }

  /** The keyword alone is an expression list: it is read as ID, and reduced to the start symbol. */
  lemma ExampleAccepts()
    ensures ExampleAutomaton.Consistent()
    ensures ParseTokens(ExampleAutomaton, 100, [Bottom], [KEY, END]) ==
            TokenResult([Bottom], [6, 4, 2, 0], [6, 4, 2, 0], Accepted)
  {
    var a := ExampleAutomaton;
    ExampleConsistent();
    ExampleActions();
    ShiftThenAccept(a, KEY, END, Entry(4, ID), [6, 4, 2, 0], [6, 4, 2, 0]);
    ReduceOne(a, Entry(4, ID), 6, END);
    ExprReduces(a);
  }

  /** In NULL the unit rule from term to expr is skipped, the other unit rule without code is not. */
  lemma ExampleSkipsOne()
    ensures ExampleAutomaton.Consistent()
    ensures ParseTokens(ExampleAutomaton, 100, [Bottom], [NULL, END]) ==
            TokenResult([Bottom], [7, 5, 4, 2, 0], [7, 4, 2, 0], Accepted)
  {
    var a := ExampleAutomaton;
    ExampleConsistent();
    ExampleActions();
    ExampleSkips();
    ShiftThenAccept(a, NULL, END, Entry(5, NULL), [7, 5, 4, 2, 0], [7, 4, 2, 0]);
    ReduceOne(a, Entry(5, NULL), 7, END);
    ReduceOne(a, Entry(8, TERM), 5, END);
    ExprReduces(a);
  }
}
