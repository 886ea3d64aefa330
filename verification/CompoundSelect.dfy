/**
 The chain of SELECT terms that parse.c builds for a compound SELECT: each term points to
 the one before it through pPrior, and after the whole SELECT has been parsed also to the
 one after it through pNext.
 */
module CompoundSelect {

  datatype Row = Row(values: seq<int>)

  type Bag = multiset<Row>

  /** The operator that joins a term to what comes before it. */
  datatype SetOp = First | Union | All | Except | Intersect

  function Distinct(a: Bag): Bag {
    multiset(set r | r in a)
  }

  function Combine(op: SetOp, a: Bag, b: Bag): Bag {
    match op
    case First => b
    case Union => Distinct(a + b)
    case All => a + b
    case Except => multiset(set r | r in a && r !in b)
    case Intersect => multiset(set r | r in a && r in b)
  }

  /** How often a row is in the result: UNION ALL adds up, the others leave each row at most once. */
  lemma TimesOf(a: Bag, b: Bag, r: Row)
    ensures Combine(All, a, b)[r] == a[r] + b[r]
    ensures Combine(Union, a, b)[r] == if r in a || r in b then 1 else 0
    ensures Combine(Except, a, b)[r] == if r in a && r !in b then 1 else 0
    ensures Combine(Intersect, a, b)[r] == if r in a && r in b then 1 else 0
  {
    SetTimes((set x | x in a + b), r);
    SetTimes((set x | x in a && x !in b), r);
    SetTimes((set x | x in a && x in b), r);
  }

  lemma SetTimes(s: set<Row>, r: Row)
    ensures multiset(s)[r] == if r in s then 1 else 0
  {
  }

  // ----- Source

  /** An operand is a single SELECT, of which only its rows matter, or VALUES with one or more rows. */
  datatype Operand = Single(rows: Bag) | Values(first: Row, more: seq<Row>)

  /** selectnowith: an operand, or a compound joined to one more operand on its right. */
  datatype Compound = Head(operand: Operand) | Then(init: Compound, op: SetOp, operand: Operand)

  function OperandRows(o: Operand): Bag {
    match o
    case Single(rows) => rows
    case Values(first, more) => multiset{first} + multiset(more)
  }

  /** Compound operators associate to the left. */
  function Meaning(c: Compound): Bag {
    match c
    case Head(operand) => OperandRows(operand)
    case Then(init, op, operand) => Combine(op, Meaning(init), OperandRows(operand))
  }

  /** The text of a compound after its first operand, and its evaluation from left to right. */
  function Text(c: Compound): seq<(SetOp, Operand)> {
    match c
    case Head(_) => []
    case Then(init, op, operand) => Text(init) + [(op, operand)]
  }

  function FirstOperand(c: Compound): Operand {
    match c
    case Head(operand) => operand
    case Then(init, _, _) => FirstOperand(init)
  }

  function LeftToRight(rows: Bag, text: seq<(SetOp, Operand)>): Bag
    decreases |text|
  {
    if text == [] then rows
    else LeftToRight(Combine(text[0].0, rows, OperandRows(text[0].1)), text[1..])
  }

  lemma {:induction false} LeftToRightSnoc(rows: Bag, text: seq<(SetOp, Operand)>, op: SetOp, operand: Operand)
    ensures LeftToRight(rows, text + [(op, operand)]) == Combine(op, LeftToRight(rows, text), OperandRows(operand))
    decreases |text|
  {
    if text == [] {
      assert [(op, operand)][1..] == [];
    } else {
      assert (text + [(op, operand)])[1..] == text[1..] + [(op, operand)];
      LeftToRightSnoc(Combine(text[0].0, rows, OperandRows(text[0].1)), text[1..], op, operand);
    }
  }

  /** The meaning is what reading the text from left to right computes. */
  lemma {:induction false} MeaningIsLeftToRight(c: Compound)
    ensures Meaning(c) == LeftToRight(OperandRows(FirstOperand(c)), Text(c))
  {
    if c.Then? {
      MeaningIsLeftToRight(c.init);
      LeftToRightSnoc(OperandRows(FirstOperand(c)), Text(c.init), c.op, c.operand);
    }
  }

  /** How many terms the chain of a compound has: a wrapped right operand counts once. */
  function Terms(c: Compound): nat {
    match c
    case Head(Single(_)) => 1
    case Head(Values(_, more)) => 1 + |more|
    case Then(init, _, _) => Terms(init) + 1
  }

  predicate MultiRow(o: Operand) {
    o.Values? && o.more != []
  }

  // ----- The objects

  class Select {
    var op: SetOp
    var multiValue: bool   // SF_MultiValue
    var compound: bool     // SF_Compound
    var pPrior: Select?
    var pNext: Select?
    const from: Select?    // the subquery of SELECT * FROM (...)
    // The chain of the subquery, oldest term first, and the rows this term returns on its own.
    ghost const sub: seq<Select>
    ghost const rows: Bag

    /** sqlite3SelectNew for a term that returns the given rows. */
    constructor (ghost rows: Bag, multiValue: bool)
      ensures fresh(this)
      ensures op == First && !compound && pPrior == null && pNext == null
      ensures this.rows == rows && this.multiValue == multiValue && from == null && sub == []
    {
      op, compound, pPrior, pNext := First, false, null, null;
      this.rows, this.multiValue, from, sub := rows, multiValue, null, [];
    }

    /** sqlite3SelectNew over a source list that holds only a subquery: it returns the subquery's rows. */
    constructor FromSubquery(from: Select, ghost sub: seq<Select>)
      requires IsChain(sub) && sub[|sub| - 1] == from
      ensures fresh(this)
      ensures op == First && !compound && !multiValue && pPrior == null && pNext == null
      ensures this.from == from && this.sub == sub && rows == ChainRows(sub)
    {
      op, compound, multiValue, pPrior, pNext := First, false, false, null, null;
      this.from, this.sub, rows := from, sub, ChainRows(sub);
    }
  }

  /** c lists the chain that ends in its last element, oldest term first. */
  ghost predicate IsChain(c: seq<Select>)
    reads c
  {
    && |c| > 0
    && c[0].pPrior == null
    && c[0].op == First
    && (forall i | 1 <= i < |c| :: c[i].pPrior == c[i - 1])
    && (forall i, j | 0 <= i < j < |c| :: c[i] != c[j])
  }

  ghost predicate DoublyLinked(c: seq<Select>)
    reads c
  {
    && (forall i | 0 <= i < |c| - 1 :: c[i].pNext == c[i + 1])
    && (|c| > 0 ==> c[|c| - 1].pNext == null)
    && (forall i | 0 <= i < |c| :: c[i].compound)
  }

  /** Only the head of a chain can carry the multi-row VALUES flag. */
  ghost predicate HeadOnlyMulti(c: seq<Select>)
    reads c
  {
    forall i | 0 <= i < |c| - 1 :: !c[i].multiValue
  }

  /** The rows of a chain, evaluated from its oldest term on. */
  ghost function ChainRows(c: seq<Select>): Bag
    reads c
  {
    if c == [] then multiset{}
    else Combine(c[|c| - 1].op, ChainRows(c[..|c| - 1]), c[|c| - 1].rows)
  }

  /** A term that reads from a subquery keeps a finished chain of its own. */
  ghost predicate Finished(s: Select)
    reads s.sub
  {
    && (s.from == null <==> s.sub == [])
    && (s.from != null ==>
          && IsChain(s.sub) && |s.sub| > 1 && s.sub[|s.sub| - 1] == s.from
          && DoublyLinked(s.sub) && HeadOnlyMulti(s.sub)
          && s.rows == ChainRows(s.sub))
  }

  // ----- The actions

  /** parserDoubleLinkSelect: link the chain both ways, count it, and complain if it is too long. */
  method DoubleLinkSelect(p: Select, ghost c: seq<Select>, mxSelect: int) returns (tooMany: bool)
    requires IsChain(c) && c[|c| - 1] == p
    requires forall x | x in c :: x.pNext == null && !x.compound
    modifies c`pNext, c`compound
    ensures IsChain(c)
    ensures |c| > 1 ==> DoublyLinked(c)
    ensures |c| == 1 ==> p.pNext == null && !p.compound
    ensures forall x | x in c :: x.op == old(x.op) && x.multiValue == old(x.multiValue)
    ensures tooMany <==> mxSelect > 0 && |c| > mxSelect && !p.multiValue
  {
    tooMany := false;
    assert |c| > 1 ==> c[|c| - 1].pPrior == c[|c| - 2];
    if p.pPrior != null {
      var cnt := LinkForward(p, c);
      if !p.multiValue && mxSelect > 0 && cnt > mxSelect {
        tooMany := true;
      }
    }
  }

  /** The loop of parserDoubleLinkSelect, from the head back to the oldest term. */
  method LinkForward(p: Select, ghost c: seq<Select>) returns (cnt: nat)
    requires IsChain(c) && c[|c| - 1] == p
    modifies c`pNext, c`compound
    ensures DoublyLinked(c) && cnt == |c|
  {
    var pNext: Select?, pLoop: Select? := null, p;
    cnt := 0;
    while pLoop != null
      invariant 0 <= cnt <= |c|
      invariant pLoop == if cnt < |c| then c[|c| - 1 - cnt] else null
      invariant pNext == if cnt > 0 then c[|c| - cnt] else null
      invariant forall i | |c| - cnt <= i < |c| :: c[i].compound
      invariant forall i | |c| - cnt <= i < |c| - 1 :: c[i].pNext == c[i + 1]
      invariant cnt > 0 ==> c[|c| - 1].pNext == null
      decreases |c| - cnt
    {
      pLoop.pNext := pNext;
      pLoop.compound := true;
      pNext := pLoop;
      pLoop := pLoop.pPrior;
      cnt := cnt + 1;
    }
  }

  // ----- Adding a term in front of a chain

  /** What a chain looks like while it is being built: nothing is linked forward yet. */
  ghost predicate Building(c: seq<Select>)
    reads c
  {
    && IsChain(c)
    && HeadOnlyMulti(c)
    && forall i | 0 <= i < |c| :: c[i].pNext == null && !c[i].compound
  }

  /** A term set in front of a chain that is not the head's any more. */
  lemma InFront(c: seq<Select>, p: Select)
    requires IsChain(c) && p !in c && p.pPrior == c[|c| - 1]
    requires forall i | 0 <= i < |c| :: c[i].pNext == null && !c[i].compound && !c[i].multiValue
    requires p.pNext == null && !p.compound
    ensures Building(c + [p]) && ChainRows(c + [p]) == Combine(p.op, ChainRows(c), p.rows)
  {
    assert (c + [p])[..|c|] == c;
  }

  /** The new term is put in front, with its operator; the old head loses the VALUES flag. */
  method Attach(pLhs: Select, op: SetOp, p: Select, ghost c: seq<Select>, multi: bool) returns (ghost c': seq<Select>)
    requires Building(c) && c[|c| - 1] == pLhs && p !in c
    requires p.pNext == null && !p.compound
    modifies pLhs`multiValue, p`op, p`pPrior, p`multiValue
    ensures c' == c + [p] && Building(c') && p.multiValue == multi && p.op == op
    ensures ChainRows(c') == Combine(op, old(ChainRows(c)), p.rows)
  {
    p.op := op;
    p.pPrior := pLhs;
    pLhs.multiValue := false;
    p.multiValue := multi;
    c' := c + [p];
    RowsUnchanged(c);
    InFront(c, p);
  }

  /** values ::= VALUES LP nexprlist RP. */
  method FirstValues(row: Row) returns (p: Select, ghost c: seq<Select>)
    ensures fresh(p) && c == [p] && Building(c)
    ensures ChainRows(c) == multiset{row}
    ensures p.from == null && p.sub == [] && !p.multiValue
  {
    p := new Select(multiset{row}, false);
    c := [p];
    assert c[..0] == [];
  }

  /** values ::= values COMMA LP nexprlist RP: one more row, joined by UNION ALL. */
  method MoreValues(pLeft: Select, row: Row, ghost c: seq<Select>) returns (p: Select, ghost c': seq<Select>)
    requires Building(c) && c[|c| - 1] == pLeft
    modifies pLeft`multiValue
    ensures fresh(p) && c' == c + [p] && Building(c')
    ensures ChainRows(c') == old(ChainRows(c)) + multiset{row}
    ensures p.multiValue && p.from == null && p.sub == []
  {
    p := new Select(multiset{row}, true);
    c' := Attach(pLeft, All, p, c, true);
  }

  /** The rows of a chain depend on the operators only. */
  twostate lemma RowsUnchanged(c: seq<Select>)
    requires forall i | 0 <= i < |c| :: c[i].op == old(c[i].op)
    ensures ChainRows(c) == old(ChainRows(c))
  {
    if c != [] {
      RowsUnchanged(c[..|c| - 1]);
    }
  }

  /** A chain none of whose terms is touched stays as it is. */
  twostate lemma Untouched(c: seq<Select>)
    requires unchanged(c)
    ensures old(Building(c)) ==> Building(c)
    ensures ChainRows(c) == old(ChainRows(c))
  {
    forall i | 0 <= i < |c|
      ensures c[i].op == old(c[i].op)
    {
      assert c[i] in c;
    }
    RowsUnchanged(c);
  }

  /** A right operand of several terms is finished and becomes the subquery of a single new term. */
  method WrapRight(rhs: Select, ghost d: seq<Select>, mxSelect: int) returns (p: Select, tooMany: bool)
    requires Building(d) && d[|d| - 1] == rhs
    requires forall x | x in d :: x.from == null && x.sub == []
    modifies d
    ensures if |d| > 1 then fresh(p) && p.from == rhs && p.sub == d else p == rhs
    ensures p.op == First && p.pPrior == null && p.pNext == null && !p.compound
    ensures p.rows == old(ChainRows(d)) && Finished(p)
    ensures tooMany <==> mxSelect > 0 && |d| > 1 && |d| > mxSelect && !old(rhs.multiValue)
  {
    p, tooMany := rhs, false;
    assert |d| > 1 ==> d[|d| - 1].pPrior == d[|d| - 2];
    if rhs.pPrior != null {
      tooMany := DoubleLinkSelect(rhs, d, mxSelect);
      RowsUnchanged(d);
      p := new Select.FromSubquery(rhs, d);
    } else {
      assert d == [rhs] && d[..0] == [];
    }
  }

  /** selectnowith ::= selectnowith multiselect_op oneselect. */
  method Join(pLhs: Select, op: SetOp, rhs: Select, ghost c: seq<Select>, ghost d: seq<Select>, mxSelect: int)
    returns (p: Select, ghost c': seq<Select>, tooMany: bool)
    requires Building(c) && c[|c| - 1] == pLhs
    requires Building(d) && d[|d| - 1] == rhs
    requires forall x | x in d :: x.from == null && x.sub == [] && x !in c
    modifies c, d
    ensures c' == c + [p] && Building(c') && !p.multiValue && p.op == op
    ensures if |d| > 1 then fresh(p) && p.from == rhs && p.sub == d else p == rhs
    ensures Finished(p)
    ensures ChainRows(c') == Combine(op, old(ChainRows(c)), old(ChainRows(d)))
    ensures tooMany <==> mxSelect > 0 && |d| > 1 && |d| > mxSelect && !old(rhs.multiValue)
  {
    assert forall i | 0 <= i < |c| :: c[i] !in d;
    p, tooMany := WrapRight(rhs, d, mxSelect);
    Untouched(c);
    label L:
    c' := Attach(pLhs, op, p, c, false);
    assert forall x | x in p.sub :: x in d && x != p;
    StillFinished@L(p);
  }

  // ----- A whole SELECT

  /** The subqueries of a chain are finished and share no term with the chain. */
  ghost predicate SubqueriesOk(c: seq<Select>, subs: set<Select>)
    reads c, subs
  {
    && (forall i | 0 <= i < |c| :: c[i] !in subs)
    && (forall i, x | 0 <= i < |c| && x in c[i].sub :: x in subs)
    && (forall i | 0 <= i < |c| :: Finished(c[i]))
  }

  lemma RowsSnoc(first: Row, more: seq<Row>)
    requires more != []
    ensures var n := |more| - 1;
            multiset{first} + multiset(more) == (multiset{first} + multiset(more[..n])) + multiset{more[n]}
  {
    assert more == more[..|more| - 1] + [more[|more| - 1]];
  }

  /** The values non-terminal, left-recursive: the rows before the last, then the last. */
  method BuildValues(first: Row, more: seq<Row>) returns (p: Select, ghost d: seq<Select>)
    ensures Building(d) && d[|d| - 1] == p && fresh(d)
    ensures ChainRows(d) == multiset{first} + multiset(more)
    ensures |d| == 1 + |more| && p.multiValue == (more != [])
    ensures forall x | x in d :: x.from == null && x.sub == []
    decreases |more|
  {
    if more == [] {
      p, d := FirstValues(first);
    } else {
      var n := |more| - 1;
      p, d := BuildValues(first, more[..n]);
      RowsSnoc(first, more);
      p, d := MoreValues(p, more[n], d);
    }
  }

  method BuildOperand(o: Operand) returns (p: Select, ghost d: seq<Select>)
    ensures Building(d) && d[|d| - 1] == p && fresh(d)
    ensures ChainRows(d) == OperandRows(o)
    ensures |d| == Terms(Head(o)) && p.multiValue == MultiRow(o)
    ensures forall x | x in d :: x.from == null && x.sub == []
  {
    match o {
      case Single(rows) =>
        p := new Select(rows, false);
        d := [p];
        assert d[..0] == [];
      case Values(first, more) =>
        p, d := BuildValues(first, more);
    }
  }

  twostate lemma StillFinished(s: Select)
    requires unchanged(s.sub)
    ensures old(Finished(s)) ==> Finished(s)
  {
    if s.sub != [] && old(Finished(s)) {
      forall i | 0 <= i < |s.sub|
        ensures s.sub[i].op == old(s.sub[i].op)
      {
        assert s.sub[i] in s.sub;
      }
      RowsUnchanged(s.sub);
    }
  }

  // The chain and its subqueries are passed as a pair.
  twostate lemma SubqueriesStillOk(cs: (seq<Select>, set<Select>))
    requires unchanged(cs.1)
    ensures old(SubqueriesOk(cs.0, cs.1)) ==> SubqueriesOk(cs.0, cs.1)
  {
    var (c, subs) := cs;
    if old(SubqueriesOk(c, subs)) {
      forall i | 0 <= i < |c|
        ensures Finished(c[i])
      {
        assert old(Finished(c[i]));
        assert forall x | x in c[i].sub :: x in subs;
        StillFinished(c[i]);
      }
    }
  }

  lemma SubqueriesExtend(c: seq<Select>, subs: set<Select>, p: Select, subs': set<Select>)
    requires SubqueriesOk(c, subs) && Finished(p)
    requires subs <= subs' && p !in subs' && forall x | x in p.sub :: x in subs'
    requires forall i | 0 <= i < |c| :: c[i] !in subs'
    ensures SubqueriesOk(c + [p], subs')
  {
  }

  /** Joining one more operand; its chain becomes a subquery if it has several terms. */
  method JoinOperand(pLhs: Select, op: SetOp, operand: Operand, mxSelect: int, ghost c: seq<Select>, ghost subs: set<Select>)
    returns (p: Select, ghost c': seq<Select>, ghost subs': set<Select>)
    requires Building(c) && c[|c| - 1] == pLhs && SubqueriesOk(c, subs)
    modifies c
    ensures c' == c + [p] && Building(c') && !p.multiValue && fresh(p)
    ensures ChainRows(c') == Combine(op, old(ChainRows(c)), OperandRows(operand))
    ensures fresh(subs' - subs) && SubqueriesOk(c', subs')
  {
    var rhs, d := BuildOperand(operand);
    Untouched(c);
    assert forall i | 0 <= i < |c| :: c[i] !in d;
    var tooLong;
    p, c', tooLong := Join(pLhs, op, rhs, c, d, mxSelect);
    assert !tooLong;  // several terms on the right are a VALUES clause, which may be of any length
    SubqueriesStillOk((c, subs));
    subs' := subs;
    if |d| > 1 {
      subs' := subs + set x | x in d;
    }
    SubqueriesExtend(c, subs, p, subs');
  }

  /** The selectnowith non-terminal: the compound before the last operand, then that operand. */
  method BuildTerms(src: Compound, mxSelect: int) returns (p: Select, ghost c: seq<Select>, ghost subs: set<Select>)
    ensures Building(c) && c[|c| - 1] == p && fresh(c) && fresh(subs)
    ensures |c| == Terms(src) && p.multiValue == (src.Head? && MultiRow(src.operand))
    ensures ChainRows(c) == Meaning(src)
    ensures SubqueriesOk(c, subs)
    decreases src
  {
    match src {
      case Head(operand) =>
        p, c := BuildOperand(operand);
        subs := {};
      case Then(init, op, operand) =>
        p, c, subs := BuildTerms(init, mxSelect);
        p, c, subs := JoinOperand(p, op, operand, mxSelect, c, subs);
    }
  }

  /**
   The chain built for a compound SELECT returns what the source means, is linked both
   ways with every term marked when it has two or more, and is rejected exactly when it is
   longer than a positive limit and not a VALUES clause by itself.
   */
  method BuildSelect(src: Compound, mxSelect: int) returns (p: Select, ghost c: seq<Select>, tooMany: bool)
    ensures IsChain(c) && c[|c| - 1] == p && |c| == Terms(src)
    ensures ChainRows(c) == Meaning(src)
    ensures |c| > 1 ==> DoublyLinked(c)
    ensures HeadOnlyMulti(c)
    ensures forall i | 0 <= i < |c| :: Finished(c[i])
    ensures tooMany <==> mxSelect > 0 && Terms(src) > mxSelect && !(src.Head? && MultiRow(src.operand))
  {
    ghost var subs;
    p, c, subs := BuildTerms(src, mxSelect);
    label L:
    tooMany := DoubleLinkSelect(p, c, mxSelect);
    RowsUnchanged@L(c);
    SubqueriesStillOk@L((c, subs));
  }

  // ----- Without the wrapping

  /** The rows before the last of a right operand are lost without changing the result. */
  predicate LossAgrees(op: SetOp, left: Bag, earlier: Bag, last: Bag) {
    match op
    case First | All => earlier == multiset{}
    case Union => forall r | r in earlier :: r in left || r in last
    case Except | Intersect => forall r | r in earlier :: r !in left || r in last
  }

  lemma LossExactly(op: SetOp, left: Bag, earlier: Bag, last: Bag)
    ensures Combine(op, left, last) == Combine(op, left, earlier + last) <==> LossAgrees(op, left, earlier, last)
  {
    var a, b := Combine(op, left, last), Combine(op, left, earlier + last);
    match op {
      case First =>
      case All =>
      case Union =>
        assert forall r :: (r in a <==> r in left || r in last) && (r in b <==> r in left || r in earlier || r in last);
      case Except =>
        assert forall r :: (r in a <==> r in left && r !in last) && (r in b <==> r in left && r !in earlier + last);
      case Intersect =>
        assert forall r :: (r in a <==> r in left && r in last) && (r in b <==> r in left && r in earlier + last);
    }
  }

  /**
   The action for a compound as it would be without the wrapping: the head of a VALUES
   clause is hung on the left operand, and its own rows before the last are cut off.
   */
  method JoinUnwrapped(pLhs: Select, op: SetOp, rhs: Select, ghost c: seq<Select>, ghost d: seq<Select>)
    returns (ghost c': seq<Select>)
    requires Building(c) && c[|c| - 1] == pLhs
    requires Building(d) && d[|d| - 1] == rhs && rhs.op == All
    requires forall x | x in d :: x !in c
    modifies pLhs`multiValue, rhs`op, rhs`pPrior, rhs`multiValue
    ensures c' == c + [rhs] && Building(c')
    ensures ChainRows(c') == Combine(op, old(ChainRows(c)), rhs.rows)
    ensures ChainRows(c') == Combine(op, old(ChainRows(c)), old(ChainRows(d))) <==>
            LossAgrees(op, old(ChainRows(c)), old(ChainRows(d[..|d| - 1])), rhs.rows)
  {
    LossExactly(op, ChainRows(c), ChainRows(d[..|d| - 1]), rhs.rows);
    c' := Attach(pLhs, op, rhs, c, false);
  }

  /** So the wrapping is needed: EXCEPT over a two-row VALUES would leave its first row in. */
  lemma UnwrappedWouldDiffer(x: Row, y: Row)
    requires x != y
    ensures OperandRows(Values(x, [y])) == multiset{x} + multiset{y}
    ensures !LossAgrees(Except, multiset{x, y}, multiset{x}, multiset{y})
    ensures Combine(Except, multiset{x, y}, multiset{y}) != Combine(Except, multiset{x, y}, OperandRows(Values(x, [y])))
  {
    assert multiset([y]) == multiset{y};
    assert x in multiset{x};
    LossExactly(Except, multiset{x, y}, multiset{x}, multiset{y});
  }
}
