/**
 Ownership of the terms of a compound SELECT: whichever allocations fail, the actions
 account for every block. Once an allocation has failed, sqlite3SelectNew gives up
 whatever it was given.
 */
module SelectOwnership {
  import opened SqlExprs

  /** A term with its result columns, its FROM clause and the term before it. */
  datatype Select = NoSelect | Select(id: nat, multiValue: bool, columns: List, src: From, prior: Select)

  /** A FROM clause: empty, or a subquery. */
  datatype From = NoFrom | From(id: nat, sub: Select)

  function SelectOwns(s: Select, id: nat): nat {
    match s
    case NoSelect => 0
    case Select(n, _, columns, src, prior) =>
      Same(n, id) + ListOwns(columns, id) + FromOwns(src, id) + SelectOwns(prior, id)
  }

  function FromOwns(f: From, id: nat): nat {
    match f
    case NoFrom => 0
    case From(n, sub) => Same(n, id) + SelectOwns(sub, id)
  }

  /** db->mallocFailed: it stays set once an attempt has failed. */
  predicate MallocFailed(h: Heap) {
    exists k | 0 <= k < h.tries :: k in h.failing
  }

  /** The number of terms of a chain. */
  function Length(s: Select): nat {
    if s.NoSelect? then 0 else Length(s.prior) + 1
  }

  /** Every term has its columns and a FROM clause, also in the subqueries; only the head has several rows. */
  predicate Whole(s: Select) {
    s.Select? ==> s.columns.Exprs? && s.src.From? && Whole(s.src.sub) && Whole(s.prior)
                  && (s.prior.Select? ==> !s.prior.multiValue)
  }

  // ----- The functions of select.c and build.c

  /** clearSelect for one term; a term that stands in for one not allocated is not freed itself. */
  function Clear(h: Heap, id: nat, free: bool, columns: List, src: From): Heap
    decreases src, 1
  {
    var h1 := DeleteFrom(h.DeleteList(columns), src);
    if free then h1.Free(id) else h1
  }

  /** sqlite3SelectDelete. */
  function DeleteSelect(h: Heap, s: Select): Heap
    decreases s
  {
    match s
    case NoSelect => h
    case Select(id, _, columns, src, prior) => DeleteSelect(Clear(h, id, true, columns, src), prior)
  }

  function DeleteFrom(h: Heap, f: From): Heap
    decreases f, 0
  {
    match f
    case NoFrom => h
    case From(id, sub) => DeleteSelect(h, sub).Free(id)
  }

  /** The column list of a term that was given none. */
  function Star(h: Heap): (List, Heap) {
    var (star, h1) := NewLeaf(h, Column(0));
    ListAppend(h1, NoList, star)
  }

  function EmptyFrom(h: Heap): (From, Heap) {
    if h.NextFails() then (NoFrom, h.Attempt()) else (From(h.tries, NoSelect), h.Attempt())
  }

  /** sqlite3SrcListAppendFromTerm for a subquery alone. */
  function FromSubquery(h: Heap, sub: Select): (From, Heap) {
    if h.NextFails() then (NoFrom, DeleteSelect(h.Attempt(), sub)) else (From(h.tries, sub), h.Attempt())
  }

  /** A term given no columns or no FROM clause gets ones of its own. */
  function Parts(h: Heap, columns: List, src: From): (List, From, Heap) {
    var (list, h1) := if columns.NoList? then Star(h) else (columns, h);
    var (from, h2) := if src.NoFrom? then EmptyFrom(h1) else (src, h1);
    (list, from, h2)
  }

  /** sqlite3SelectNew. */
  function SelectNew(h: Heap, columns: List, src: From, multiValue: bool): (Select, Heap) {
    var (list, from, h1) := Parts(h.Attempt(), columns, src);
    if MallocFailed(h1) then (NoSelect, Clear(h1, h.tries, !h.NextFails(), list, from))
    else (Select(h.tries, multiValue, list, from, NoSelect), h1)
  }

  // ----- The actions

  /** A term that is not the head of a VALUES clause any more. */
  function Unmarked(s: Select): Select {
    if s.Select? then s.(multiValue := false) else s
  }

  /** values ::= values COMMA LP nexprlist RP: on failure the rows so far are kept. */
  function MoreValues(h: Heap, left: Select, columns: List): (Select, Heap) {
    var (right, h1) := SelectNew(h, columns, NoFrom, true);
    (if right.Select? then right.(prior := Unmarked(left)) else Unmarked(left), h1)
  }

  /** A right operand of several terms becomes the subquery of a single new one. */
  function WrapRight(h: Heap, rhs: Select): (Select, Heap) {
    if rhs.Select? && rhs.prior.Select? then
      var (src, h1) := FromSubquery(h, rhs);
      SelectNew(h1, NoList, src, false)
    else (rhs, h)
  }

  /** selectnowith ::= selectnowith multiselect_op oneselect: on failure both sides are released. */
  function Join(h: Heap, lhs: Select, rhs: Select): (Select, Heap) {
    var (right, h1) := WrapRight(h, rhs);
    if right.Select? then (right.(prior := Unmarked(lhs), multiValue := false), h1)
    else (NoSelect, DeleteSelect(h1, lhs))
  }

  // ----- Each accounts for every block

  lemma {:induction false} DeleteSelectConserves(h: Heap, s: Select, id: nat)
    ensures Conserved(h, SelectOwns(s, id), DeleteSelect(h, s), 0, id)
    ensures MallocFailed(DeleteSelect(h, s)) == MallocFailed(h) && Later(h, DeleteSelect(h, s))
    decreases s
  {
    if s.Select? {
      DeleteFromConserves(h.DeleteList(s.columns), s.src, id);
      DeleteSelectConserves(Clear(h, s.id, true, s.columns, s.src), s.prior, id);
    }
  }

  lemma {:induction false} DeleteFromConserves(h: Heap, f: From, id: nat)
    ensures Conserved(h, FromOwns(f, id), DeleteFrom(h, f), 0, id)
    ensures MallocFailed(DeleteFrom(h, f)) == MallocFailed(h) && Later(h, DeleteFrom(h, f))
    decreases f
  {
    if f.From? {
      DeleteSelectConserves(h, f.sub, id);
    }
  }

  lemma ClearConserves(h: Heap, n: nat, free: bool, columns: List, src: From, id: nat)
    ensures Conserved(h, (if free then Same(n, id) else 0) + ListOwns(columns, id) + FromOwns(src, id),
                      Clear(h, n, free, columns, src), 0, id)
    ensures MallocFailed(Clear(h, n, free, columns, src)) == MallocFailed(h) && Later(h, Clear(h, n, free, columns, src))
  {
    DeleteFromConserves(h.DeleteList(columns), src, id);
  }

  lemma StarConserves(h: Heap, id: nat)
    ensures var (list, h') := Star(h);
            && Conserved(h, 0, h', ListOwns(list, id), id)
            && Later(h, h') && (list.NoList? || MallocFailed(h) ==> MallocFailed(h'))
  {
    var (star, h1) := NewLeaf(h, Column(0));
    NewLeafConserves(h, Column(0), id);
    ListAppendConserves(h1, NoList, star, id);
  }

  lemma EmptyFromConserves(h: Heap, id: nat)
    ensures var (from, h') := EmptyFrom(h);
            && Conserved(h, 0, h', FromOwns(from, id), id)
            && Later(h, h') && (from.NoFrom? || MallocFailed(h) ==> MallocFailed(h'))
            && (from.From? ==> from.sub.NoSelect?)
  {
  }

  lemma PartsConserve(h: Heap, columns: List, src: From, id: nat)
    ensures var (list, from, h') := Parts(h, columns, src);
            && Conserved(h, ListOwns(columns, id) + FromOwns(src, id), h', ListOwns(list, id) + FromOwns(from, id), id)
            && Later(h, h') && (list.NoList? || from.NoFrom? || MallocFailed(h) ==> MallocFailed(h'))
  {
    StarConserves(h, id);
    EmptyFromConserves(if columns.NoList? then Star(h).1 else h, id);
  }

  lemma SelectNewConserves(h: Heap, columns: List, src: From, multiValue: bool, id: nat)
    ensures var (s, h') := SelectNew(h, columns, src, multiValue);
            Conserved(h, ListOwns(columns, id) + FromOwns(src, id), h', SelectOwns(s, id), id)
  {
    var (list, from, h1) := Parts(h.Attempt(), columns, src);
    PartsConserve(h.Attempt(), columns, src, id);
    ClearConserves(h1, h.tries, !h.NextFails(), list, from, id);
  }

  /** It gives a term exactly if no allocation has failed so far; what stands in for one is never given out. */
  lemma SelectNewExactly(h: Heap, columns: List, src: From, multiValue: bool)
    ensures var (s, h') := SelectNew(h, columns, src, multiValue);
            && (s.Select? <==> !MallocFailed(h'))
            && (s.Select? ==> h'.Allocated(s.id) && s.columns.Exprs? && s.src.From?)
            && (s.Select? ==> s.prior.NoSelect? && s.multiValue == multiValue)
            && Later(h, h') && (MallocFailed(h) ==> MallocFailed(h'))
  {
    var (list, from, h1) := Parts(h.Attempt(), columns, src);
    PartsConserve(h.Attempt(), columns, src, 0);
    ClearConserves(h1, h.tries, !h.NextFails(), list, from, 0);
    if h.NextFails() {
      assert h.tries in h1.failing && h.tries < h1.tries;
    }
  }

  lemma MoreValuesConserves(h: Heap, left: Select, columns: List, id: nat)
    ensures var (s, h') := MoreValues(h, left, columns);
            Conserved(h, SelectOwns(left, id) + ListOwns(columns, id), h', SelectOwns(s, id), id)
  {
    SelectNewConserves(h, columns, NoFrom, true, id);
    SelectNewExactly(h, columns, NoFrom, true);
  }

  lemma WrapRightConserves(h: Heap, rhs: Select, id: nat)
    ensures var (s, h') := WrapRight(h, rhs);
            && Conserved(h, SelectOwns(rhs, id), h', SelectOwns(s, id), id)
            && Later(h, h') && (MallocFailed(h) ==> MallocFailed(h'))
            && (rhs.NoSelect? ==> s.NoSelect?) && (s.NoSelect? ==> rhs.NoSelect? || MallocFailed(h'))
            && (s.Select? ==> s.prior.NoSelect?)
  {
    if rhs.Select? && rhs.prior.Select? {
      var (src, h1) := FromSubquery(h, rhs);
      DeleteSelectConserves(h.Attempt(), rhs, id);
      SelectNewConserves(h1, NoList, src, false, id);
      SelectNewExactly(h1, NoList, src, false);
    }
  }

  lemma JoinConserves(h: Heap, lhs: Select, rhs: Select, id: nat)
    ensures var (s, h') := Join(h, lhs, rhs);
            && Conserved(h, SelectOwns(lhs, id) + SelectOwns(rhs, id), h', SelectOwns(s, id), id)
            && Later(h, h') && (MallocFailed(h) ==> MallocFailed(h'))
            && (rhs.NoSelect? ==> s.NoSelect?) && (s.NoSelect? ==> rhs.NoSelect? || MallocFailed(h'))
  {
    WrapRightConserves(h, rhs, id);
    DeleteSelectConserves(WrapRight(h, rhs).1, lhs, id);
  }

  // ----- Whole compounds

  /** A compound as the parser meets it; the lists and FROM clauses of its terms are built already. */
  datatype Source =
    | Single(columns: List, src: From)
    | Row(columns: List)
    | Rows(init: Source, columns: List)
    | Compound(left: Source, right: Source)

  function Build(src: Source, h: Heap): (Select, Heap) {
    match src
    case Single(columns, from) => SelectNew(h, columns, from, false)
    case Row(columns) => SelectNew(h, columns, NoFrom, false)
    case Rows(init, columns) =>
      var (left, h1) := Build(init, h);
      MoreValues(h1, left, columns)
    case Compound(left, right) =>
      var (lhs, h1) := Build(left, h);
      var (rhs, h2) := Build(right, h1);
      Join(h2, lhs, rhs)
  }

  /** What the parts of a compound own. */
  function Given(src: Source, id: nat): nat {
    match src
    case Single(columns, from) => ListOwns(columns, id) + FromOwns(from, id)
    case Row(columns) => ListOwns(columns, id)
    case Rows(init, columns) => Given(init, id) + ListOwns(columns, id)
    case Compound(left, right) => Given(left, id) + Given(right, id)
  }

  function Terms(src: Source): nat {
    match src
    case Single(_, _) | Row(_) => 1
    case Rows(init, _) => Terms(init) + 1
    case Compound(left, _) => Terms(left) + 1
  }

  /** Whichever allocations fail, what the parts owned is owned by the chain or has been released. */
  lemma {:induction false} BuildConserves(src: Source, h: Heap, id: nat)
    ensures var (s, h') := Build(src, h); Conserved(h, Given(src, id), h', SelectOwns(s, id), id)
  {
    match src
    case Single(columns, from) => SelectNewConserves(h, columns, from, false, id);
    case Row(columns) => SelectNewConserves(h, columns, NoFrom, false, id);
    case Rows(init, columns) =>
      BuildConserves(init, h, id);
      MoreValuesConserves(Build(init, h).1, Build(init, h).0, columns, id);
    case Compound(left, right) =>
      var (lhs, h1) := Build(left, h);
      var (rhs, h2) := Build(right, h1);
      BuildConserves(left, h, id);
      BuildConserves(right, h1, id);
      JoinConserves(h2, lhs, rhs, id);
  }

  /** cmd ::= select: after the chain is deleted every block has been released exactly once. */
  lemma ReleasedOnce(src: Source, h: Heap, id: nat)
    requires h.Balance(id) == Given(src, id)
    ensures var (s, h') := Build(src, h);
            var done := DeleteSelect(h', s);
            TimesFreed(done.freed, id) == if done.Allocated(id) then 1 else 0
  {
    BuildConserves(src, h, id);
    var (s, h') := Build(src, h);
    DeleteSelectConserves(h', s, id);
    assert DeleteSelect(h', s).Balance(id) == 0;
  }

  /** A chain is missing only after a failure, and after a failure nothing is built any more. */
  lemma {:induction false} MissingExactly(src: Source, h: Heap)
    ensures var (s, h') := Build(src, h);
            && Later(h, h')
            && (MallocFailed(h) ==> s.NoSelect? && MallocFailed(h'))
            && (s.NoSelect? ==> MallocFailed(h'))
  {
    match src
    case Single(columns, from) => SelectNewExactly(h, columns, from, false);
    case Row(columns) => SelectNewExactly(h, columns, NoFrom, false);
    case Rows(init, columns) =>
      MissingExactly(init, h);
      SelectNewExactly(Build(init, h).1, columns, NoFrom, true);
    case Compound(left, right) =>
      var (lhs, h1) := Build(left, h);
      var (rhs, h2) := Build(right, h1);
      MissingExactly(left, h);
      MissingExactly(right, h1);
      JoinConserves(h2, lhs, rhs, 0);
  }

  predicate WholeParts(src: Source) {
    match src
    case Single(_, from) => from.From? ==> Whole(from.sub)
    case Row(_) => true
    case Rows(init, _) => WholeParts(init)
    case Compound(left, right) => WholeParts(left) && WholeParts(right)
  }

  lemma SelectNewWhole(h: Heap, columns: List, src: From, multiValue: bool)
    requires src.From? ==> Whole(src.sub)
    ensures var (s, h') := SelectNew(h, columns, src, multiValue);
            !MallocFailed(h') ==> Whole(s) && Length(s) == 1
  {
    SelectNewExactly(h, columns, src, multiValue);
  }

  lemma JoinWhole(h: Heap, lhs: Select, rhs: Select)
    requires lhs.Select? && rhs.Select? && Whole(lhs) && Whole(rhs)
    ensures var (s, h') := Join(h, lhs, rhs);
            !MallocFailed(h') ==> Whole(s) && Length(s) == Length(lhs) + 1
  {
    JoinConserves(h, lhs, rhs, 0);
    WrapRightConserves(h, rhs, 0);
    if rhs.prior.Select? {
      var (src, h1) := FromSubquery(h, rhs);
      DeleteSelectConserves(h.Attempt(), rhs, 0);
      SelectNewExactly(h1, NoList, src, false);
      if src.From? {
        SelectNewWhole(h1, NoList, src, false);
      }
    }
  }

  /** If nothing has failed, the chain has all its terms, and only a head that is a VALUES clause is marked. */
  lemma {:induction false} BuildsWhole(src: Source, h: Heap)
    requires WholeParts(src)
    ensures var (s, h') := Build(src, h);
            !MallocFailed(h') ==> s.Select? && Whole(s) && Length(s) == Terms(src)
  {
    MissingExactly(src, h);
    match src
    case Single(columns, from) => SelectNewWhole(h, columns, from, false);
    case Row(columns) => SelectNewWhole(h, columns, NoFrom, false);
    case Rows(init, columns) =>
      var h1 := Build(init, h).1;
      BuildsWhole(init, h);
      SelectNewExactly(h1, columns, NoFrom, true);
      SelectNewWhole(h1, columns, NoFrom, true);
    case Compound(left, right) =>
      var (lhs, h1) := Build(left, h);
      var (rhs, h2) := Build(right, h1);
      BuildsWhole(left, h);
      BuildsWhole(right, h1);
      MissingExactly(right, h1);
      if lhs.Select? && rhs.Select? && Whole(lhs) && Whole(rhs) {
        JoinWhole(h2, lhs, rhs);
      }
      JoinConserves(h2, lhs, rhs, 0);
  }

  /** A term with the columns and the FROM clause given; without columns it selects *. */
  predicate Has(s: Select, columns: List, src: From) {
    && s.Select?
    && (if columns.Exprs? then s.columns == columns else StarAlone(s.columns))
    && (if src.From? then s.src == src else s.src.From? && s.src.sub.NoSelect?)
  }

  predicate StarAlone(list: List) {
    list.Exprs? && list.items.Snoc? && list.items.init.Nil? && list.items.last.Node? && list.items.last.op == Column(0)
  }

  /**
   The chain of a compound, newest term first: each has the columns and the FROM clause its
   part of the source has, and a right operand of several terms is the subquery of a term
   that selects * from it.
   */
  predicate Spells(s: Select, src: Source)
    decreases src
  {
    match src
    case Single(columns, from) => Has(s, columns, from) && s.prior.NoSelect?
    case Row(columns) => Has(s, columns, NoFrom) && s.prior.NoSelect?
    case Rows(init, columns) => Has(s, columns, NoFrom) && Spells(s.prior, init)
    case Compound(left, right) =>
      && s.Select? && Spells(s.prior, left)
      && if Terms(right) == 1 then Spells(s.(prior := NoSelect), right)
         else StarAlone(s.columns) && s.src.From? && Spells(s.src.sub, right)
  }

  /** The mark of a VALUES clause is no part of what is spelled. */
  lemma {:induction false} UnmarkedSpells(s: Select, src: Source)
    requires Spells(s, src)
    ensures Spells(Unmarked(s), src)
    decreases src
  {
    if src.Compound? && Terms(src.right) == 1 {
      assert Unmarked(s.(prior := NoSelect)) == s.(multiValue := false, prior := NoSelect);
      UnmarkedSpells(s.(prior := NoSelect), src.right);
    }
  }

  lemma StarIsAlone(h: Heap)
    ensures var (list, h') := Star(h); !MallocFailed(h') ==> StarAlone(list)
  {
    StarConserves(h, 0);
    assert h.NextFails() ==> MallocFailed(h.Attempt());
    assert h.tries in h.failing ==> MallocFailed(Star(h).1);
  }

  lemma SelectNewGives(h: Heap, columns: List, src: From, multiValue: bool)
    ensures var (s, h') := SelectNew(h, columns, src, multiValue);
            !MallocFailed(h') ==> Has(s, columns, src) && s.prior.NoSelect? && s.multiValue == multiValue
  {
    var (list, from, h1) := Parts(h.Attempt(), columns, src);
    SelectNewExactly(h, columns, src, multiValue);
    PartsConserve(h.Attempt(), columns, src, 0);
    if columns.NoList? {
      StarIsAlone(h.Attempt());
      EmptyFromConserves(Star(h.Attempt()).1, 0);
    }
    EmptyFromConserves(h.Attempt(), 0);
  }

  /** One term or several: a chain spelled by a source has a term before its head exactly in the latter case. */
  lemma SeveralTerms(s: Select, src: Source)
    requires Spells(s, src)
    ensures s.Select? && (s.prior.Select? <==> Terms(src) > 1)
  {
    match src
    case Rows(init, _) => SeveralTerms(s.prior, init);
    case Compound(left, _) => SeveralTerms(s.prior, left);
    case _ =>
  }

  lemma JoinSpells(h: Heap, lhs: Select, rhs: Select, left: Source, right: Source)
    requires Spells(lhs, left) && Spells(rhs, right)
    ensures var (s, h') := Join(h, lhs, rhs);
            !MallocFailed(h') ==> Spells(s, Compound(left, right)) && !s.multiValue
  {
    JoinConserves(h, lhs, rhs, 0);
    WrapRightConserves(h, rhs, 0);
    SeveralTerms(rhs, right);
    UnmarkedSpells(lhs, left);
    var h' := Join(h, lhs, rhs).1;
    if !MallocFailed(h') {
      if Terms(right) > 1 {
        var (src, h1) := FromSubquery(h, rhs);
        DeleteSelectConserves(h.Attempt(), rhs, 0);
        SelectNewExactly(h1, NoList, src, false);
        SelectNewGives(h1, NoList, src, false);
      } else {
        UnmarkedSpells(rhs, right);
        assert Unmarked(rhs).(prior := NoSelect) == Unmarked(rhs);
      }
    }
  }

  /** If nothing has failed, the chain built is the one the source spells, marked exactly for a VALUES clause. */
  lemma {:induction false} BuildSpells(src: Source, h: Heap)
    ensures var (s, h') := Build(src, h);
            !MallocFailed(h') ==> Spells(s, src) && s.multiValue == src.Rows?
  {
    MissingExactly(src, h);
    match src
    case Single(columns, from) => SelectNewGives(h, columns, from, false);
    case Row(columns) => SelectNewGives(h, columns, NoFrom, false);
    case Rows(init, columns) =>
      var (left, h1) := Build(init, h);
      BuildSpells(init, h);
      MissingExactly(init, h);
      SelectNewExactly(h1, columns, NoFrom, true);
      SelectNewGives(h1, columns, NoFrom, true);
      if Spells(left, init) {
        UnmarkedSpells(left, init);
      }
    case Compound(left, right) =>
      var (lhs, h1) := Build(left, h);
      var (rhs, h2) := Build(right, h1);
      BuildSpells(left, h);
      BuildSpells(right, h1);
      MissingExactly(left, h);
      MissingExactly(right, h1);
      JoinConserves(h2, lhs, rhs, 0);
      if Spells(lhs, left) && Spells(rhs, right) {
        JoinSpells(h2, lhs, rhs, left, right);
      }
  }

  /** One more row that cannot be had leaves the rows so far as they are, but for the mark. */
  lemma RowsSoFarStay(h: Heap, left: Select, columns: List)
    requires left.Select?
    ensures var (s, h') := MoreValues(h, left, columns);
            MallocFailed(h') ==> s == left.(multiValue := false)
  {
    SelectNewExactly(h, columns, NoFrom, true);
  }

  /** The ALWAYS in the action of a compound: where there is a right operand there is a left one. */
  lemma LeftIsThere(src: Source, h: Heap)
    requires src.Compound?
    ensures var (lhs, h1) := Build(src.left, h);
            Build(src.right, h1).0.Select? ==> lhs.Select?
  {
    MissingExactly(src.left, h);
    MissingExactly(src.right, Build(src.left, h).1);
  }
}
