/**
 How a stack of the table-driven parser stands for a stack of the ordinary automaton, and
 what one step of the former is in terms of the latter. A pending reduction stands for a
 reducing state, and an entry whose unit rule was skipped stands for the entry that the
 automaton has, or will have, after reducing that rule.
 */
module LemonSimulation {
  import opened Grammars
  import opened LemonTables
  import opened LrAutomata
  import opened Wrappers

  /** A stack entry's state number (or pending reduction) and its major symbol code. */
  datatype Slot = Slot(stateno: nat, major: nat)

  // ----- Agreement of symbols

  /** sym rewrites to major by the skippable rules rs, one after the other. */
  ghost predicate UnitChain(a: Automaton, sym: nat, rs: seq<nat>, major: nat)
    decreases |rs|
  {
    if rs == [] then sym == major
    else
      && Skippable(a, rs[0])
      && a.g.rules[rs[0]].lhs == sym
      && UnitChain(a, a.g.rules[rs[0]].rhs[0].x, rs[1..], major)
  }

  /**
   The major on the stack agrees with the symbol the state expects: the token itself, a
   token read as its fallback or as the wildcard, or a non-terminal left in place by
   skipped unit rules.
   */
  ghost predicate Agrees(a: Automaton, major: nat, sym: nat) {
    if a.g.IsTerminal(sym) then a.g.IsTerminal(major) && a.MayRead(major, sym)
    else exists rs: seq<nat> :: UnitChain(a, sym, rs, major)
  }

  lemma AgreesThroughUnit(a: Automaton, major: nat, r: nat)
    requires a.g.WellFormed() && Skippable(a, r)
    requires Agrees(a, major, a.g.rules[r].rhs[0].x)
    ensures Agrees(a, major, a.g.rules[r].lhs)
  {
    assert a.g.RuleOk(a.g.rules[r]);
    var rs: seq<nat> :| UnitChain(a, a.g.rules[r].rhs[0].x, rs, major);
    assert ([r] + rs)[1..] == rs;
    assert UnitChain(a, a.g.rules[r].lhs, [r] + rs, major);
  }

  lemma AgreesWithItself(a: Automaton, x: nat)
    ensures Agrees(a, x, x)
  {
    assert UnitChain(a, x, [], x);
  }

  // ----- Agreement of stacks

  /** The state number that stands for e on top of state s. */
  function SlotCode(t: Tables, a: Automaton, s: nat, e: Entry): Option<nat>
    requires |t.action| <= |t.lookahead|
  {
    if a.g.IsTerminal(e.sym) then Some(StateCode(t, a, e.state)) else t.GotoCell(s, e.sym)
  }

  ghost predicate StandsFor(t: Tables, a: Automaton, below: Entry, slot: Slot, e: Entry)
    requires |t.action| <= |t.lookahead|
  {
    && SlotCode(t, a, below.state, e) == Some(slot.stateno)
    && Agrees(a, slot.major, e.sym)
  }

  ghost predicate Related(t: Tables, a: Automaton, o: seq<Slot>, p: seq<Entry>)
    requires |t.action| <= |t.lookahead|
  {
    && |o| == |p| > 0
    && o[0] == Slot(0, 0)
    && forall i | 1 <= i < |p| :: StandsFor(t, a, p[i - 1], o[i], p[i])
  }

  lemma RelatedPrefix(t: Tables, a: Automaton, o: seq<Slot>, p: seq<Entry>, n: nat)
    requires t.WellFormed() && Related(t, a, o, p) && 0 < n <= |p|
    ensures Related(t, a, o[..n], p[..n])
  {
  }

  lemma RelatedPush(t: Tables, a: Automaton, o: seq<Slot>, p: seq<Entry>, slot: Slot, e: Entry)
    requires t.WellFormed() && Related(t, a, o, p) && StandsFor(t, a, Top(p), slot, e)
    ensures Related(t, a, o + [slot], p + [e])
  {
  }

  /** On a settled stack the two top states say the same. */
  lemma TopStateAgrees(t: Tables, a: Automaton, o: seq<Slot>, p: seq<Entry>)
    requires a.Consistent() && Implements(t, a) && ValidStack(a, p)
    requires Related(t, a, o, p) && !Unsettled(a, p)
    ensures Top(p).state < |a.items|
    ensures o[|o| - 1].stateno == StateCode(t, a, Top(p).state)
  {
    StackInRange(a, p);
    if |p| > 1 {
      var s := p[|p| - 2].state;
      assert StandsFor(t, a, p[|p| - 2], o[|p| - 1], p[|p| - 1]);
      assert Linked(a, s, Top(p));
      assert GotosMatch(t, a, s);
    }
  }

  // ----- Reductions that the tables do not make

  /** The run is the reductions made so far, and then what is left of it. */
  ghost predicate Resumes(whole: TokenResult, made: seq<nat>, rest: TokenResult) {
    whole.stack == rest.stack && whole.outcome == rest.outcome && whole.made == made + rest.made
  }

  /** The automaton reduces the unit rule on top; the table-driven stack already stands for the result. */
  lemma UnitStep(t: Tables, a: Automaton, o: seq<Slot>, p: seq<Entry>)
    requires a.Consistent() && Implements(t, a) && ValidStack(a, p)
    requires Related(t, a, o, p) && Unsettled(a, p)
    ensures var r := a.autoRule[Top(p).state - |a.cells|];
            && ReduceOffered(a, p, r) && CanPop(a, p, r) && |a.Rhs(r)| == 1
            && Related(t, a, o, AfterReduce(a, p, r))
  {
    var r := a.autoRule[Top(p).state - |a.cells|];
    StackInRange(a, p);
    assert a.ReduceOk(Top(p).state, r);
    HandleSpells(a, p, r);
    var n := |p| - 1;
    assert Handle(a, p, r)[0] == Top(p).sym;
    assert a.Rhs(r)[0].Matches(Top(p).sym);
    assert StandsFor(t, a, p[n - 1], o[n], p[n]);
    AgreesThroughUnit(a, o[n].major, r);
    assert Linked(a, p[n - 1].state, p[n]) && GotosMatch(t, a, p[n - 1].state);
    assert a.g.RuleOk(a.g.rules[r]);
    var e := Top(AfterReduce(a, p, r));
    assert StandsFor(t, a, p[n - 1], o[n], e);
    RelatedPrefix(t, a, o, p, n);
    RelatedPush(t, a, o[..n], p[..n], o[n], e);
    assert o[..n] + [o[n]] == o;
  }

  /** The run on an unsettled stack is the run on the stack after its unit reduction: nothing is made. */
  lemma UnitRun(t: Tables, a: Automaton, depth: nat, o: seq<Slot>, p: seq<Entry>, token: nat)
    returns (p': seq<Entry>)
    requires a.Consistent() && Implements(t, a) && ValidStack(a, p) && |p| <= depth
    requires Related(t, a, o, p) && Unsettled(a, p)
    ensures ValidStack(a, p') && |p'| == |p| && Related(t, a, o, p')
    ensures Resumes(ParseToken(a, depth, p, token), [], ParseToken(a, depth, p', token))
    ensures 0 <= Potential(a, p') + depth * a.bound < Potential(a, p) + depth * a.bound
  {
    UnitStep(t, a, o, p);
    ParseTokenReduces(a, depth, p, token);
    p' := AfterReduce(a, p, a.autoRule[Top(p).state - |a.cells|]);
  }

  /** Reducing the skipped unit rules on top leads to a settled stack; none of it is in the reductions made. */
  lemma {:induction false} Settle(t: Tables, a: Automaton, depth: nat, o: seq<Slot>, p: seq<Entry>, token: nat)
    returns (p': seq<Entry>)
    requires a.Consistent() && Implements(t, a) && ValidStack(a, p) && |p| <= depth
    requires Related(t, a, o, p)
    ensures ValidStack(a, p') && |p'| == |p|
    ensures Related(t, a, o, p') && !Unsettled(a, p')
    ensures Resumes(ParseToken(a, depth, p, token), [], ParseToken(a, depth, p', token))
    ensures Potential(a, p') <= Potential(a, p)
    decreases Potential(a, p) + depth * a.bound
  {
    p' := p;
    if Unsettled(a, p) {
      PotentialBounded(a, p, depth);
      p' := UnitRun(t, a, depth, o, p, token);
      p' := Settle(t, a, depth, o, p', token);
    }
  }

  // ----- The steps that both make

  lemma ShiftStep(t: Tables, a: Automaton, o: seq<Slot>, p: seq<Entry>, token: nat)
    requires a.Consistent() && Implements(t, a) && ValidStack(a, p) && Related(t, a, o, p)
    requires Top(p).state < |a.cells| && token < a.g.nToken
    requires a.ActionFor(Top(p).state, token).Shift?
    ensures var q := a.ActionFor(Top(p).state, token).target;
            var e := Entry(q, a.Reading(Top(p).state, token));
            && ValidStack(a, p + [e])
            && Related(t, a, o + [Slot(StateCode(t, a, q), token)], p + [e])
  {
    ActionOffered(a, p, token);
    assert a.CellsOk(Top(p).state);
    var q := a.ActionFor(Top(p).state, token).target;
    var e := Entry(q, a.Reading(Top(p).state, token));
    PushValid(a, p, e);
    RelatedPush(t, a, o, p, Slot(StateCode(t, a, q), token), e);
  }

  /** The stack of the parser after reducing by r: what yy_reduce leaves. */
  function SlotsAfterReduce(t: Tables, a: Automaton, o: seq<Slot>, p: seq<Entry>, r: nat): seq<Slot>
    requires |t.action| <= |t.lookahead| && |o| == |p| && CanPop(a, p, r)
    requires t.GotoCell(Below(a, p, r).state, a.Lhs(r)).Some?
  {
    o[..|o| - |a.Rhs(r)|] + [Slot(t.GotoCell(Below(a, p, r).state, a.Lhs(r)).value, a.Lhs(r))]
  }

  /** Where a unit rule is skipped its left-hand side has a goto too, and weighs less. */
  lemma SkipLowersWeight(a: Automaton, s: nat, x: nat)
    requires a.Consistent() && s < |a.cells| && x in a.gotos[s] && Skips(a, a.gotos[s][x])
    ensures var y := SkipTo(a, a.gotos[s][x]);
            y in a.gotos[s] && x < |a.weight| && y < |a.weight| && 0 <= a.weight[y] + a.bound < a.weight[x] + a.bound
  {
    assert a.GotosOk(s) && a.ItemSetOk(s);
    var q := a.gotos[s][x];
    var r := a.autoRule[q - |a.cells|];
    assert a.ReduceOk(q, r) && Item(r, 1) in a.items[q];
    assert a.ItemsFollow(s, x, q) && Item(r, 0) in a.items[s];
    assert a.g.RuleOk(a.g.rules[r]);
    assert a.Rhs(r) == [Sym(x)] && a.Rhs(r)[1..] == [];
    assert a.PartsWeight(a.Rhs(r)) == a.weight[x];
    assert 0 <= a.weight[a.Lhs(r)] + a.bound;
  }

  /** The entry exists, and it is never an error or a SHIFTREDUCE. */
  lemma {:induction false} GotoExists(t: Tables, a: Automaton, s: nat, x: nat)
    requires a.Consistent() && Implements(t, a)
    requires s < |a.cells| && x in a.gotos[s] && x < |a.weight| && 0 <= a.weight[x] + a.bound
    ensures t.GotoCell(s, x).Some?
    ensures t.GotoCell(s, x).value != t.errorAction
    ensures !(t.maxShift < t.GotoCell(s, x).value <= t.maxShiftReduce)
    decreases a.weight[x] + a.bound
  {
    assert GotosMatch(t, a, s);
    if Skips(a, a.gotos[s][x]) {
      SkipLowersWeight(a, s, x);
      GotoExists(t, a, s, SkipTo(a, a.gotos[s][x]));
    }
  }

  lemma ReduceStep(t: Tables, a: Automaton, o: seq<Slot>, p: seq<Entry>, r: nat)
    requires a.Consistent() && Implements(t, a) && ValidStack(a, p) && Related(t, a, o, p)
    requires ReduceOffered(a, p, r)
    ensures CanPop(a, p, r) && t.GotoCell(Below(a, p, r).state, a.Lhs(r)).Some?
    ensures ValidStack(a, AfterReduce(a, p, r))
    ensures Related(t, a, SlotsAfterReduce(t, a, o, p, r), AfterReduce(a, p, r))
    ensures o[|o| - 1 - |a.Rhs(r)|].stateno == Below(a, p, r).state
  {
    ReduceValid(a, p, r);
    ReduceCanPop(a, p, r);
    var below := Below(a, p, r);
    var keep := Kept(a, p, r);
    assert a.g.RuleOk(a.g.rules[r]);
    GotoExists(t, a, below.state, a.Lhs(r));
    var slot := Slot(t.GotoCell(below.state, a.Lhs(r)).value, a.Lhs(r));
    var e := Top(AfterReduce(a, p, r));
    PrefixValid(a, p, |keep|);
    RelatedPrefix(t, a, o, p, |keep|);
    assert !Unsettled(a, keep);
    TopStateAgrees(t, a, o[..|keep|], keep);
    AgreesWithItself(a, a.Lhs(r));
    RelatedPush(t, a, o[..|keep|], keep, slot, e);
  }
}
