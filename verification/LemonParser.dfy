/**
 The push-down automaton of parse.c (the lempar.c driver): a parser object with a fixed
 stack, driven one token at a time. Every method is proved against the ordinary LR
 automaton of LrAutomata, of which the object carries a ghost stack.
 */
module LemonParser {
  import opened LemonSimulation
  import opened LemonTables
  import opened LemonTrees
  import opened LemonValues
  import opened LrAutomata
  import opened Sequences
  import opened SqlActions
  import opened SqlExprs
  import opened SqlOwnership
  import opened Wrappers

  const BottomEntry: StackEntry := StackEntry(0, 0, NoValue)

  ghost predicate Setup(t: Tables, a: Automaton, ty: Typing) {
    a.Consistent() && Implements(t, a) && WellTyped(a, ty)
  }

  /** The stack o stands for the automaton's stack p, is typed, and owns exactly what it should. */
  ghost predicate Represents(t: Tables, a: Automaton, ty: Typing, h: Heap, o: seq<StackEntry>, p: seq<Entry>)
    requires t.WellFormed()
  {
    && |o| > 0 && o[0] == BottomEntry
    && ValidStack(a, p)
    && Related(t, a, Slots(o), p)
    && Typed(ty, o)
    && Balanced(h, o)
  }

  // ----- What each step does to the representation

  lemma PopKeeps(t: Tables, a: Automaton, ty: Typing, h: Heap, o: seq<StackEntry>, p: seq<Entry>)
    requires Setup(t, a, ty) && Represents(t, a, ty, h, o, p) && |o| > 1
    ensures Represents(t, a, ty, DeleteMinor(h, o[|o| - 1].minor), o[..|o| - 1], p[..|p| - 1])
  {
    var n := |o| - 1;
    var h' := DeleteMinor(h, o[n].minor);
    PrefixValid(a, p, n);
    RelatedPrefix(t, a, Slots(o), p, n);
    assert Slots(o[..n]) == Slots(o)[..n];
    forall id: nat
      ensures h'.Balance(id) == StackOwns(o[..n], id)
    {
      assert o == o[..n] + [o[n]];
      StackOwnsConcat(o[..n], [o[n]], id);
      StackOwnsOne(o[n], id);
    }
  }

  lemma PushKeepsBalance(h: Heap, o: seq<StackEntry>, entry: StackEntry)
    requires Balanced(h, o) && forall id: nat :: entry.minor.OwnedTimes(id) == 0
    ensures Balanced(h, o + [entry])
  {
    forall id: nat
      ensures h.Balance(id) == StackOwns(o + [entry], id)
    {
      StackOwnsConcat(o, [entry], id);
      StackOwnsOne(entry, id);
    }
  }

  lemma ShiftKeeps(t: Tables, a: Automaton, ty: Typing, h: Heap, o: seq<StackEntry>, p: seq<Entry>, token: nat, leaf: Op)
    requires Setup(t, a, ty) && Represents(t, a, ty, h, o, p)
    requires Top(p).state < |a.cells| && token < a.g.nToken
    requires a.ActionFor(Top(p).state, token).Shift?
    ensures var q := a.ActionFor(Top(p).state, token).target;
            Represents(t, a, ty, h, o + [StackEntry(StateCode(t, a, q), token, TokenValue(leaf))],
                       p + [Entry(q, a.Reading(Top(p).state, token))])
  {
    var q := a.ActionFor(Top(p).state, token).target;
    var entry := StackEntry(StateCode(t, a, q), token, TokenValue(leaf));
    ShiftStep(t, a, Slots(o), p, token);
    assert Slots(o + [entry]) == Slots(o) + [Slot(entry.stateno, entry.major)];
    PushKeepsBalance(h, o, entry);
  }

  /** The entries that a reduction by r pops. */
  function Popped(a: Automaton, o: seq<StackEntry>, r: nat): seq<StackEntry>
    requires r < |a.g.rules| && |a.Rhs(r)| < |o|
  {
    o[|o| - |a.Rhs(r)|..]
  }

  lemma ReduceBalance(h: Heap, h': Heap, o: seq<StackEntry>, n: nat, action: Action, entry: StackEntry)
    requires n <= |o| && Balanced(h, o)
    requires Accepts(action, Args(o[n..])) && Perform(action, h, Args(o[n..])) == (entry.minor, h')
    ensures Balanced(h', o[..n] + [entry])
  {
    forall id: nat
      ensures h'.Balance(id) == StackOwns(o[..n] + [entry], id)
    {
      assert o == o[..n] + o[n..];
      StackOwnsConcat(o[..n], o[n..], id);
      StackOwnsConcat(o[..n], [entry], id);
      StackOwnsOne(entry, id);
      PerformConserves(action, h, Args(o[n..]), id);
    }
  }

  lemma ReduceKeeps(t: Tables, a: Automaton, ty: Typing, h: Heap, o: seq<StackEntry>, p: seq<Entry>, r: nat)
    requires Setup(t, a, ty) && Represents(t, a, ty, h, o, p) && ReduceOffered(a, p, r)
    ensures CanPop(a, p, r) && t.GotoCell(Below(a, p, r).state, a.Lhs(r)).Some?
    ensures o[|o| - 1 - |a.Rhs(r)|].stateno == Below(a, p, r).state
    ensures Accepts(ty.actions[r], Args(Popped(a, o, r)))
    ensures var (minor, h') := Perform(ty.actions[r], h, Args(Popped(a, o, r)));
            var entry := StackEntry(t.GotoCell(Below(a, p, r).state, a.Lhs(r)).value, a.Lhs(r), minor);
            Represents(t, a, ty, h', o[..|o| - |a.Rhs(r)|] + [entry], AfterReduce(a, p, r))
  {
    ReduceStep(t, a, Slots(o), p, r);
    ArgsAccepted(t, a, ty, o, p, r);
    var n := |o| - |a.Rhs(r)|;
    var args := Args(Popped(a, o, r));
    var (minor, h') := Perform(ty.actions[r], h, args);
    var entry := StackEntry(t.GotoCell(Below(a, p, r).state, a.Lhs(r)).value, a.Lhs(r), minor);
    assert Slots(o[..n] + [entry]) == SlotsAfterReduce(t, a, Slots(o), p, r);
    ReduceBalance(h, h', o, n, ty.actions[r], entry);
    PerformKind(ty.actions[r], h, args);
    assert RuleTyped(a, ty, r);
    assert Typed(ty, o[..n] + [entry]);
  }

  /** The reduction took the handle and left what its action makes of it, in the heap the action leaves. */
  ghost predicate Performed(t: Tables, a: Automaton, ty: Typing, r: nat, o: seq<StackEntry>, h: Heap,
                            o': seq<StackEntry>, h': Heap)
  {
    && r < |a.g.rules| && r < |ty.actions| && |a.Rhs(r)| < |o|
    && |o'| == |o| - |a.Rhs(r)| + 1
    && o'[..|o'| - 1] == o[..|o| - |a.Rhs(r)|] && o'[|o'| - 1].major == a.Lhs(r)
    && Accepts(ty.actions[r], Args(Popped(a, o, r)))
    && Perform(ty.actions[r], h, Args(Popped(a, o, r))) == (o'[|o'| - 1].minor, h')
  }

  /** What a reduction finds: a handle its action accepts, and a goto below it. */
  ghost predicate Reducible(t: Tables, a: Automaton, ty: Typing, o: seq<StackEntry>, p: seq<Entry>, r: nat) {
    && CanPop(a, p, r) && |o| == |p|
    && |t.action| <= |t.lookahead| && t.GotoCell(Below(a, p, r).state, a.Lhs(r)).Some?
    && o[|o| - 1 - |a.Rhs(r)|].stateno == Below(a, p, r).state
    && r < |ty.actions| && Accepts(ty.actions[r], Args(Popped(a, o, r)))
  }

  /** The entry a reduction pushes, and the heap its action leaves. */
  function LeftBy(t: Tables, a: Automaton, ty: Typing, h: Heap, o: seq<StackEntry>, p: seq<Entry>, r: nat)
    : (StackEntry, Heap)
    requires Reducible(t, a, ty, o, p, r)
  {
    var (minor, h') := Perform(ty.actions[r], h, Args(Popped(a, o, r)));
    (StackEntry(t.GotoCell(Below(a, p, r).state, a.Lhs(r)).value, a.Lhs(r), minor), h')
  }

  /** The handle is one its action accepts, and the goto below it is neither an error nor a fused shift. */
  lemma ReduceFinds(t: Tables, a: Automaton, ty: Typing, h: Heap, o: seq<StackEntry>, p: seq<Entry>, r: nat)
    requires Setup(t, a, ty) && Represents(t, a, ty, h, o, p) && ReduceOffered(a, p, r)
    ensures Reducible(t, a, ty, o, p, r)
    ensures t.ruleLhs[r] == a.Lhs(r) && t.ruleNRhs[r] == -|a.Rhs(r)|
    ensures var act := t.GotoCell(Below(a, p, r).state, a.Lhs(r)).value;
            act != t.errorAction && !(t.maxShift < act <= t.maxShiftReduce)
  {
    ReduceKeeps(t, a, ty, h, o, p, r);
    GotoNeverFails(t, a, ty, p, r);
    RuleInfo(t, a, r);
  }

  /** What a reduction leaves: what it represents, what stands behind it, and what its action has done. */
  lemma ReduceLeaves(t: Tables, a: Automaton, ty: Typing, run: Runner, h: Heap, o: seq<StackEntry>, p: seq<Entry>,
                     past: Past, r: nat)
    requires Performs(run, ty, t.ruleLhs) && Setup(t, a, ty) && Represents(t, a, ty, h, o, p) && Told(run, past, o, h)
    requires ReduceOffered(a, p, r) && Reducible(t, a, ty, o, p, r)
    ensures var (entry, h') := LeftBy(t, a, ty, h, o, p, r);
            var o' := o[..|o| - |a.Rhs(r)|] + [entry];
            && Represents(t, a, ty, h', o', AfterReduce(a, p, r))
            && Told(run, AndApply(past, r, |a.Rhs(r)|), o', h')
            && Performed(t, a, ty, r, o, h, o', h')
  {
    ReduceKeeps(t, a, ty, h, o, p, r);
    RuleInfo(t, a, r);
    var (entry, h') := LeftBy(t, a, ty, h, o, p, r);
    ReduceTold(run, past, o, h, r, |a.Rhs(r)|, entry, h');
  }

  lemma AcceptKeeps(t: Tables, a: Automaton, ty: Typing, h: Heap, o: seq<StackEntry>, p: seq<Entry>)
    requires Setup(t, a, ty) && Represents(t, a, ty, h, o, p)
    requires Top(p).state == a.AcceptState()
    ensures |o| == 2 && Represents(t, a, ty, h, o[..1], [Bottom])
  {
    StackInRange(a, p);
    assert StandsFor(t, a, p[0], Slots(o)[1], p[1]);
    AgreementKeepsKind(a, ty, o[1].major, a.g.start);
    PopKeeps(t, a, ty, h, o, p);
    assert p[..1] == [Bottom];
  }

  // ----- The parser object

  class Parser {
    const t: Tables
    const ty: Typing
    const yystack: array<StackEntry>
    var yytos: nat
    var heap: Heap

    ghost const a: Automaton
    ghost const run: Runner
    // The automaton's stack that the object stands for.
    ghost var plain: seq<Entry>
    // How the entries came about.
    ghost var past: Past

    ghost function Contents(): seq<StackEntry>
      reads this, yystack
      requires yytos < yystack.Length
    {
      yystack[..yytos + 1]
    }

    ghost predicate Valid()
      reads this, yystack
    {
      && Setup(t, a, ty) && Performs(run, ty, t.ruleLhs)
      && yytos < yystack.Length
      && Represents(t, a, ty, heap, Contents(), plain)
      && Told(run, past, Contents(), heap)
    }

    /** sqlite3ParserInit: state 0 at the bottom, nothing above it. */
    constructor (t: Tables, ghost a: Automaton, ty: Typing, ghost run: Runner, depth: nat, heap: Heap)
      requires Setup(t, a, ty) && Performs(run, ty, t.ruleLhs) && depth > 0
      requires forall id: nat :: heap.Balance(id) == 0
      ensures Valid() && fresh(yystack)
      ensures this.t == t && this.a == a && this.ty == ty && this.heap == heap && yystack.Length == depth
      ensures this.run == run
      ensures plain == [Bottom] && past == Began(run, heap)
    {
      this.t, this.a, this.ty, this.run, this.heap := t, a, ty, run, heap;
      yystack := new StackEntry[depth](_ => BottomEntry);
      yytos := 0;
      plain, past := [Bottom], Began(run, heap);
      new;
      assert Contents() == [BottomEntry];
      forall id: nat
        ensures StackOwns(Contents(), id) == 0
      {
        StackOwnsOne(BottomEntry, id);
      }
    }

    /** yy_destructor: the major decides which member of the value union is deleted. */
    method Destructor(major: nat, minor: Minor)
      requires major < |ty.kinds| && minor.KindOf() == ty.kinds[major]
      modifies this`heap
      ensures heap == DeleteMinor(old(heap), minor)
    {
      match ty.kinds[major] {
        case KExpr => heap := heap.Delete(minor.e);
        case KList => heap := heap.DeleteList(minor.list);
        case _ =>
      }
    }

    /** yy_pop_parser_stack. */
    method PopParserStack()
      requires Valid() && yytos > 0
      modifies this
      ensures Valid() && yytos == old(yytos) - 1
      ensures plain == old(plain)[..old(|plain|) - 1]
      ensures Contents() == old(Contents()[..yytos])
      ensures heap == DeleteMinor(old(heap), old(yystack[yytos].minor))
    {
      ghost var o := Contents();
      PopKeeps(t, a, ty, heap, o, plain);
      var top := yystack[yytos];
      yytos := yytos - 1;
      plain := plain[..|plain| - 1];
      past := Cut;
      Destructor(top.major, top.minor);
      assert Contents() == o[..|o| - 1];
    }

    /** The loop of yyStackOverflow and of sqlite3ParserFinalize. */
    method PopAll()
      requires Valid()
      modifies this
      ensures Valid() && yytos == 0
      ensures plain == [Bottom] && Contents() == [BottomEntry] && past == Began(run, heap)
      ensures forall id: nat :: heap.Balance(id) == 0
      ensures old(yytos) == 0 ==> heap == old(heap)
    {
      while yytos > 0
        invariant Valid()
        invariant old(yytos) == 0 ==> yytos == 0 && heap == old(heap)
      {
        PopParserStack();
      }
      assert Contents() == [BottomEntry];
      assert plain == [Bottom];
      past := Began(run, heap);
      forall id: nat
        ensures heap.Balance(id) == 0
      {
        StackOwnsOne(BottomEntry, id);
      }
    }

    /** yyStackOverflow: the stack is emptied; the error stops the folding of AND. */
    method StackOverflow()
      requires Valid()
      modifies this
      ensures Valid() && yytos == 0
      ensures plain == [Bottom] && Contents() == [BottomEntry] && past == Began(run, heap)
      ensures forall id: nat :: heap.Balance(id) == 0
      ensures !heap.foldAnd
    {
      PopAll();
      heap := heap.AfterError();
      past := Began(run, heap);
    }

    /** sqlite3ParserFinalize: afterwards every allocated node has been released exactly once. */
    method Finalize()
      requires Valid()
      modifies this
      ensures Valid() && plain == [Bottom]
      ensures forall id: nat :: TimesFreed(heap.freed, id) == if heap.Allocated(id) then 1 else 0
      ensures old(yytos) == 0 ==> heap == old(heap)
    {
      PopAll();
      forall id: nat
        ensures TimesFreed(heap.freed, id) == if heap.Allocated(id) then 1 else 0
      {
        assert heap.Balance(id) == 0;
      }
    }

    // Writes one stack slot: the entries from k upwards are replaced by entry.
    method Place(k: nat, entry: StackEntry, newHeap: Heap, ghost p: seq<Entry>, ghost newPast: Past)
      requires Valid() && 0 < k <= yytos + 1 && k < yystack.Length
      requires Represents(t, a, ty, newHeap, Contents()[..k] + [entry], p)
      requires Told(run, newPast, Contents()[..k] + [entry], newHeap)
      modifies this, yystack
      ensures Valid() && plain == p && past == newPast && heap == newHeap
      ensures Contents() == old(Contents())[..k] + [entry]
    {
      ghost var o := Contents()[..k] + [entry];
      yytos := k;
      yystack[k] := entry;
      heap := newHeap;
      plain, past := p, newPast;
      assert Contents() == o;
    }

    /** yy_shift: a SHIFTREDUCE code is turned into the code of the pending reduction. */
    method Shift(newState: nat, major: nat, leaf: Op) returns (overflow: bool)
      requires Valid() && major < t.nToken
      requires Top(plain).state < |a.cells| && a.ActionFor(Top(plain).state, major).Shift?
      requires newState == ActCode(t, a, a.ActionFor(Top(plain).state, major))
      modifies this, yystack
      ensures Valid()
      ensures overflow == (old(|plain|) >= yystack.Length)
      ensures overflow ==> Contents() == [BottomEntry] && !heap.foldAnd
      ensures plain == if overflow then [Bottom]
                       else old(plain + [Entry(a.ActionFor(Top(plain).state, major).target,
                                               a.Reading(Top(plain).state, major))])
      ensures !overflow ==>
                && past == AndRead(old(past), major, leaf) && heap == old(heap)
                && exists stateno :: Contents() == old(Contents()) + [StackEntry(stateno, major, TokenValue(leaf))]
    {
      if yytos + 1 > yystack.Length - 1 {
        StackOverflow();
        return true;
      }
      ShiftKeeps(t, a, ty, heap, Contents(), plain, major, leaf);
      ShiftCode(t, a, Top(plain).state, major);
      var yyNewState := newState;
      if yyNewState > t.maxShift {
        yyNewState := yyNewState + (t.minReduce - t.minShiftReduce);
      }
      assert Contents()[..yytos + 1] == Contents();
      var entry := StackEntry(yyNewState, major, TokenValue(leaf));
      ShiftTold(run, past, Contents(), heap, entry);
      Place(yytos + 1, entry, heap,
            plain + [Entry(a.ActionFor(Top(plain).state, major).target, a.Reading(Top(plain).state, major))],
            AndRead(past, major, leaf));
      overflow := false;
    }

    /** yy_reduce: the action runs on the handle, then the goto of the state below is pushed. */
    method Reduce(ruleno: nat) returns (overflow: bool, act: nat)
      requires Valid() && ReduceOffered(a, plain, ruleno)
      modifies this, yystack
      ensures Valid()
      ensures overflow == (|a.Rhs(ruleno)| == 0 && old(|plain|) >= yystack.Length)
      ensures overflow ==> plain == [Bottom] && Contents() == [BottomEntry] && !heap.foldAnd
      ensures !overflow ==> CanPop(a, old(plain), ruleno) && plain == AfterReduce(a, old(plain), ruleno)
      ensures !overflow ==> act == yystack[yytos].stateno && yytos > 0
      ensures !overflow ==> Performed(t, a, ty, ruleno, old(Contents()), old(heap), Contents(), heap)
      ensures !overflow ==> past == AndApply(old(past), ruleno, |a.Rhs(ruleno)|)
    {
      RuleInfo(t, a, ruleno);
      if t.ruleNRhs[ruleno] == 0 {
        if yytos >= yystack.Length - 1 {
          StackOverflow();
          return true, 0;
        }
      }
      act := ReduceHandle(ruleno);
      overflow := false;
    }

    /** The part of yy_reduce after the check for overflow. */
    method ReduceHandle(ruleno: nat) returns (act: nat)
      requires Valid() && ReduceOffered(a, plain, ruleno)
      requires |a.Rhs(ruleno)| == 0 ==> |plain| < yystack.Length
      modifies this, yystack
      ensures Valid() && act == yystack[yytos].stateno && yytos > 0
      ensures CanPop(a, old(plain), ruleno) && plain == AfterReduce(a, old(plain), ruleno)
      ensures Performed(t, a, ty, ruleno, old(Contents()), old(heap), Contents(), heap)
      ensures past == AndApply(old(past), ruleno, |a.Rhs(ruleno)|)
    {
      var yymsp, entry, newHeap := Reduction(ruleno);
      act := entry.stateno;
      Place(yymsp, entry, newHeap, AfterReduce(a, plain, ruleno), AndApply(past, ruleno, |a.Rhs(ruleno)|));
    }

    /** What is to be pushed and where, and why it may be. */
    method Reduction(ruleno: nat) returns (yymsp: nat, entry: StackEntry, newHeap: Heap)
      requires Valid() && ReduceOffered(a, plain, ruleno)
      ensures CanPop(a, plain, ruleno) && 0 < yymsp == |Contents()| - |a.Rhs(ruleno)|
      ensures var o' := Contents()[..yymsp] + [entry];
              && Represents(t, a, ty, newHeap, o', AfterReduce(a, plain, ruleno))
              && Told(run, AndApply(past, ruleno, |a.Rhs(ruleno)|), o', newHeap)
              && Performed(t, a, ty, ruleno, Contents(), heap, o', newHeap)
    {
      yymsp, entry, newHeap := RunAction(ruleno);
      ReduceLeaves(t, a, ty, run, heap, Contents(), plain, past, ruleno);
    }

    /** The action on the handle, and the goto: the entry to push and where, and the heap. */
    method RunAction(ruleno: nat) returns (yymsp: nat, entry: StackEntry, newHeap: Heap)
      requires Valid() && ReduceOffered(a, plain, ruleno)
      ensures Reducible(t, a, ty, Contents(), plain, ruleno)
      ensures 0 < yymsp == |Contents()| - |a.Rhs(ruleno)|
      ensures (entry, newHeap) == LeftBy(t, a, ty, heap, Contents(), plain, ruleno)
    {
      ReduceFinds(t, a, ty, heap, Contents(), plain, ruleno);
      yymsp := yytos;
      var yysize := t.ruleNRhs[ruleno];
      var handle := yystack[yymsp + yysize + 1..yymsp + 1];
      assert handle == Popped(a, Contents(), ruleno);
      var (minor, h) := Perform(ty.actions[ruleno], heap, Args(handle));
      var yygoto := t.ruleLhs[ruleno];
      var act := FindReduceAction(t, yystack[yymsp + yysize].stateno, yygoto);
      assert !(t.maxShift < act <= t.maxShiftReduce);
      assert act != t.errorAction;
      yymsp := yymsp + yysize + 1;
      entry, newHeap := StackEntry(act, yygoto, minor), h;
    }

    /** yy_accept: the entry of the start symbol is dropped, and the stack is as it was at first. */
    method Accept()
      requires Valid() && Top(plain).state == a.AcceptState()
      modifies this
      ensures Valid() && plain == [Bottom] && Contents() == [BottomEntry]
      ensures heap == old(heap)
      ensures past == AndAccept(old(past))
    {
      ghost var o := Contents();
      AcceptKeeps(t, a, ty, heap, o, plain);
      AcceptTold(run, past, o, heap);
      yytos := yytos - 1;
      plain, past := [Bottom], AndAccept(past);
      assert Contents() == o[..1] == [BottomEntry];
    }

    /** A reduction is carried out; the loop goes on while the stack is not empty, which it is only after an overflow. */
    method CarryOutReduce(act: nat, yymajor: nat, leaf: Op, ghost made: seq<nat>, ghost whole: TokenResult)
      returns (outcome: Option<Outcome>, yyact: nat)
      requires Valid() && yymajor < t.nToken && ActionMeans(t, a, plain, yymajor, act) && !Unsettled(a, plain)
      requires act >= t.minReduce
      requires Resumes(whole, made, ParseToken(a, yystack.Length, plain, yymajor))
      modifies this, yystack
      ensures Valid()
      ensures outcome.None? ==> yyact == yystack[yytos].stateno
      ensures outcome.None? ==>
                Goes(a, yystack.Length, plain, yymajor, whole, made + [act - t.minReduce], Potential(a, old(plain)))
      ensures outcome.Some? ==> outcome.value == Overflowed && Ends(whole, made, Overflowed, plain)
      ensures outcome.Some? ==> Contents() == [BottomEntry] && !heap.foldAnd
      ensures Carried(t, a, outcome, act, old(past), past, yymajor, leaf)
    {
      RoundReduces(t, a, yystack.Length, plain, yymajor, act, whole, made);
      var overflow;
      overflow, yyact := Reduce(act - t.minReduce);
      outcome := if yytos > 0 then None else Some(Overflowed);
    }

    /** An action that is no reduction ends the call: a shift, the accept or a syntax error. */
    method CarryOutLast(act: nat, yymajor: nat, leaf: Op, ghost made: seq<nat>, ghost whole: TokenResult)
      returns (outcome: Outcome)
      requires Valid() && yymajor < t.nToken && ActionMeans(t, a, plain, yymajor, act)
      requires act < t.minReduce
      requires Resumes(whole, made, ParseToken(a, yystack.Length, plain, yymajor))
      modifies this, yystack
      ensures Valid()
      ensures Ends(whole, made, outcome, plain)
      ensures outcome == Accepted || outcome == Overflowed ==> Contents() == [BottomEntry]
      ensures outcome == SyntaxError || outcome == Overflowed ==> !heap.foldAnd
      ensures Carried(t, a, Some(outcome), act, old(past), past, yymajor, leaf)
    {
      StuckResult(a, yystack.Length, plain, yymajor);
      assert made + [] == made;
      if act <= t.maxShiftReduce {
        var overflow := Shift(act, yymajor, leaf);
        outcome := if overflow then Overflowed else Shifted;
      } else if act == t.acceptAction {
        Accept();
        outcome := Accepted;
      } else {
        assert act == t.errorAction;
        heap := heap.AfterError();
        past := Cut;
        outcome := SyntaxError;
      }
    }

    /**
     The action for the top of the stack. Before it is looked up the automaton catches up
     with skipped unit rules, for whose results the stack already stands.
     */
    method FindAction(yymajor: nat, yyact: nat, ghost made: seq<nat>, ghost whole: TokenResult) returns (act: nat)
      requires Valid() && yymajor < t.nToken && yyact == yystack[yytos].stateno
      requires Resumes(whole, made, ParseToken(a, yystack.Length, plain, yymajor))
      modifies this`plain
      ensures Valid() && Potential(a, plain) <= Potential(a, old(plain))
      ensures ActionMeans(t, a, plain, yymajor, act) && !Unsettled(a, plain)
      ensures Resumes(whole, made, ParseToken(a, yystack.Length, plain, yymajor))
    {
      act := FindShiftAction(t, yymajor, yyact);
      ghost var o := Contents();
      plain := NextAction(t, a, ty, heap, o, plain, yystack.Length, yymajor, whole, made, act);
      assert Contents() == o;
    }

    /**
     The body of the loop of sqlite3Parser: carry out the action found. Some(outcome) ends
     the call; None means that a reduction left yyact on top.
     */
    method CarryOut(act: nat, yymajor: nat, leaf: Op, ghost made: seq<nat>, ghost whole: TokenResult)
      returns (outcome: Option<Outcome>, yyact: nat)
      requires Valid() && yymajor < t.nToken && ActionMeans(t, a, plain, yymajor, act) && !Unsettled(a, plain)
      requires Resumes(whole, made, ParseToken(a, yystack.Length, plain, yymajor))
      modifies this, yystack
      ensures Valid()
      ensures outcome.None? ==>
                && act >= t.minReduce && yyact == yystack[yytos].stateno
                && Goes(a, yystack.Length, plain, yymajor, whole, made + [act - t.minReduce], Potential(a, old(plain)))
      ensures outcome.Some? ==> Ends(whole, made, outcome.value, plain)
      ensures outcome == Some(Accepted) || outcome == Some(Overflowed) ==> Contents() == [BottomEntry]
      ensures outcome == Some(SyntaxError) || outcome == Some(Overflowed) ==> !heap.foldAnd
      ensures Carried(t, a, outcome, act, old(past), past, yymajor, leaf)
    {
      yyact := act;
      if act >= t.minReduce {
        outcome, yyact := CarryOutReduce(act, yymajor, leaf, made, whole);
      } else {
        var last := CarryOutLast(act, yymajor, leaf, made, whole);
        outcome := Some(last);
      }
    }

    /**
     sqlite3Parser: feed one token. The result names what ended the call: the shift, an
     accept, a syntax error or an overflow; reductions are all those the driver does.
     */
    method Parse(yymajor: nat, leaf: Op) returns (outcome: Outcome, reductions: seq<nat>)
      requires Valid() && yymajor < t.nToken
      modifies this, yystack
      ensures Valid()
      ensures Ends(ParseToken(a, yystack.Length, old(plain), yymajor), reductions, outcome, plain)
      ensures outcome.Accepted? || outcome.Overflowed? ==> Contents() == [BottomEntry]
      ensures Grown(Some(outcome), Extended(a, old(past), reductions), past, yymajor, leaf)
    {
      ghost var before, last := past, past;
      ghost var whole := ParseToken(a, yystack.Length, plain, yymajor);
      PotentialBounded(a, plain, yystack.Length);
      ResumesAtFirst(whole);
      var yyact := yystack[yytos].stateno;
      reductions := [];
      var ended: Option<Outcome> := None;
      while ended.None?
        invariant Valid()
        invariant ended.None? ==> yyact == yystack[yytos].stateno
        invariant ended.None? ==> 0 <= Potential(a, plain) + yystack.Length * a.bound
        invariant ended.None? ==> Resumes(whole, reductions, ParseToken(a, yystack.Length, plain, yymajor))
        invariant ended.Some? ==> Ends(whole, reductions, ended.value, plain)
        invariant last == Extended(a, before, reductions) && Grown(ended, last, past, yymajor, leaf)
        invariant ended == Some(Accepted) || ended == Some(Overflowed) ==> Contents() == [BottomEntry]
        decreases ended.None?, Potential(a, plain) + yystack.Length * a.bound
      {
        var act := FindAction(yymajor, yyact, reductions, whole);
        ended, yyact := CarryOut(act, yymajor, leaf, reductions, whole);
        if ended.None? {
          ExtendedOne(a, before, reductions, act - t.minReduce);
          reductions, last := reductions + [act - t.minReduce], past;
        }
      }
      outcome := ended.value;
    }
  }

  /** The call has ended as the automaton's run does: outcome, stack, and the reductions made. */
  ghost predicate Ends(whole: TokenResult, made: seq<nat>, outcome: Outcome, p: seq<Entry>) {
    whole.outcome == outcome && whole.stack == p && whole.made == made
  }

  /** What an action, carried out, adds to the history. */
  ghost predicate Carried(t: Tables, a: Automaton, outcome: Option<Outcome>, act: nat, was: Past, past: Past,
                          yymajor: nat, leaf: Op)
  {
    && (outcome.None? ==> act >= t.minReduce && past == AndApply(was, act - t.minReduce, RhsSize(a, act - t.minReduce)))
    && (outcome == Some(Shifted) ==> past == AndRead(was, yymajor, leaf))
    && (outcome == Some(Accepted) ==> past == AndAccept(was))
  }

  /** How the history goes on when all reductions of a call are made. */
  ghost predicate Grown(outcome: Option<Outcome>, last: Past, past: Past, yymajor: nat, leaf: Op) {
    && (outcome.None? ==> past == last)
    && (outcome == Some(Shifted) ==> past == AndRead(last, yymajor, leaf))
    && (outcome == Some(Accepted) ==> past == AndAccept(last))
  }

  /** A round that reduces goes on with the rest of the run, if it does not overflow. */
  lemma RoundReduces(t: Tables, a: Automaton, depth: nat, p: seq<Entry>, token: nat, act: nat,
                     whole: TokenResult, made: seq<nat>)
    requires a.Consistent() && Implements(t, a) && ValidStack(a, p) && |p| <= depth && !Unsettled(a, p)
    requires Resumes(whole, made, ParseToken(a, depth, p, token))
    requires ActionMeans(t, a, p, token, act) && act >= t.minReduce
    ensures var r := act - t.minReduce;
            if |a.Rhs(r)| == 0 && |p| >= depth then Ends(whole, made, Overflowed, [Bottom])
            else
              && CanPop(a, p, r)
              && ValidStack(a, AfterReduce(a, p, r)) && |AfterReduce(a, p, r)| <= depth
              && Goes(a, depth, AfterReduce(a, p, r), token, whole, made + [r], Potential(a, p))
  {
    var r := act - t.minReduce;
    if CanReduce(a, depth, p, token) {
      ParseTokenReduces(a, depth, p, token);
      ResumesReduced(whole, made, r, ParseToken(a, depth, AfterReduce(a, p, r), token));
    } else {
      StuckResult(a, depth, p, token);
      assert made + [] == made;
    }
  }

  /** The run goes on from the stack p, which weighs less than before. */
  ghost predicate Goes(a: Automaton, depth: nat, p: seq<Entry>, token: nat, whole: TokenResult, made: seq<nat>,
                       was: int)
    requires a.Consistent() && ValidStack(a, p) && |p| <= depth
  {
    && 0 <= Potential(a, p) + depth * a.bound < was + depth * a.bound
    && Resumes(whole, made, ParseToken(a, depth, p, token))
  }

  lemma ResumesAtFirst(whole: TokenResult)
    ensures Resumes(whole, [], whole)
  {
  }

  lemma ResumesSettled(whole: TokenResult, made: seq<nat>, before: TokenResult, rest: TokenResult)
    requires Resumes(whole, made, before) && Resumes(before, [], rest)
    ensures Resumes(whole, made, rest)
  {
  }

  lemma ResumesReduced(whole: TokenResult, made: seq<nat>, r: nat, rest: TokenResult)
    requires Resumes(whole, made, rest.After([r], [r]))
    ensures Resumes(whole, made + [r], rest)
  {
    ConcatAssoc(made, [r], rest.made);
  }

  lemma RuleInfo(t: Tables, a: Automaton, r: nat)
    requires Implements(t, a) && r < |a.g.rules|
    ensures |t.ruleLhs| == |t.ruleNRhs| == |a.g.rules|
    ensures t.ruleLhs[r] == a.Lhs(r) && t.ruleNRhs[r] == -|a.Rhs(r)|
  {
  }

  lemma ShiftTarget(a: Automaton, s: nat, token: nat)
    requires a.Consistent() && s < |a.cells| && a.ActionFor(s, token).Shift?
    ensures a.ActionFor(s, token).target < a.AcceptState()
  {
    assert a.CellsOk(s) && a.DefaultOk(s);
  }

  lemma ShiftCode(t: Tables, a: Automaton, s: nat, token: nat)
    requires a.Consistent() && Implements(t, a) && s < |a.cells| && a.ActionFor(s, token).Shift?
    ensures var q := a.ActionFor(s, token).target;
            var code := ActCode(t, a, Act.Shift(q));
            && StateCode(t, a, q) == (if code > t.maxShift then code + (t.minReduce - t.minShiftReduce) else code)
            && code <= t.maxShiftReduce
  {
    ShiftTarget(a, s, token);
  }

  lemma GotoNeverFails(t: Tables, a: Automaton, ty: Typing, p: seq<Entry>, r: nat)
    requires Setup(t, a, ty) && ValidStack(a, p) && ReduceOffered(a, p, r)
    ensures CanPop(a, p, r)
    ensures var act := t.GotoCell(Below(a, p, r).state, a.Lhs(r));
            act.Some? && act.value != t.errorAction && !(t.maxShift < act.value <= t.maxShiftReduce)
  {
    ReduceCanPop(a, p, r);
    assert a.g.RuleOk(a.g.rules[r]);
    GotoExists(t, a, Below(a, p, r).state, a.Lhs(r));
  }

  /** What a code found for the top of the stack says about the automaton. */
  ghost predicate ActionMeans(t: Tables, a: Automaton, p: seq<Entry>, token: nat, act: nat)
    requires a.Consistent() && Implements(t, a) && ValidStack(a, p)
  {
    var s := Top(p).state;
    if act >= t.minReduce then
      && s < a.AcceptState()
      && a.ActionFor(s, token) == Act.Reduce(act - t.minReduce)
      && ReduceOffered(a, p, act - t.minReduce)
    else if act <= t.maxShiftReduce then
      && s < |a.cells|
      && a.ActionFor(s, token).Shift?
      && act == ActCode(t, a, a.ActionFor(s, token))
    else if act == t.acceptAction then s == a.AcceptState()
    else act == t.errorAction && s < |a.cells| && a.ActionFor(s, token) == Act.Error
  }

  /** The code found for the top of a settled stack is the automaton's action. */
  lemma ActionAgrees(t: Tables, a: Automaton, p: seq<Entry>, stateno: nat, token: nat, act: nat)
    requires a.Consistent() && Implements(t, a) && ValidStack(a, p) && token < a.g.nToken
    requires Top(p).state < |a.items| && stateno == StateCode(t, a, Top(p).state)
    requires stateno > t.maxShift ==> act == stateno
    requires stateno <= t.maxShift ==> act == t.Lookup(stateno, token)
    ensures ActionMeans(t, a, p, token, act)
  {
    var s := Top(p).state;
    if s < a.AcceptState() {
      ActionOffered(a, p, token);
      if s < |a.cells| {
        LookupRefines(t, a, s, token);
        if a.ActionFor(s, token).Shift? {
          ShiftCode(t, a, s, token);
        }
      }
    }
  }

  /** The skipped unit reductions on top are caught up with; then the code found is the automaton's action. */
  lemma NextAction(t: Tables, a: Automaton, ty: Typing, h: Heap, o: seq<StackEntry>, p: seq<Entry>, depth: nat,
                   token: nat, whole: TokenResult, made: seq<nat>, act: nat)
    returns (settled: seq<Entry>)
    requires Setup(t, a, ty) && Represents(t, a, ty, h, o, p) && |p| <= depth && token < a.g.nToken
    requires Resumes(whole, made, ParseToken(a, depth, p, token))
    requires o[|o| - 1].stateno > t.maxShift ==> act == o[|o| - 1].stateno
    requires o[|o| - 1].stateno <= t.maxShift ==> act == t.Lookup(o[|o| - 1].stateno, token)
    ensures Represents(t, a, ty, h, o, settled) && |settled| == |p| && !Unsettled(a, settled)
    ensures Potential(a, settled) <= Potential(a, p)
    ensures Resumes(whole, made, ParseToken(a, depth, settled, token))
    ensures ActionMeans(t, a, settled, token, act)
  {
    settled := Settle(t, a, depth, Slots(o), p, token);
    ResumesSettled(whole, made, ParseToken(a, depth, p, token), ParseToken(a, depth, settled, token));
    TopStateAgrees(t, a, Slots(o), settled);
    ActionAgrees(t, a, settled, o[|o| - 1].stateno, token, act);
  }

  /** The cases of ParseToken in which nothing is reduced. */
  lemma StuckResult(a: Automaton, depth: nat, p: seq<Entry>, token: nat)
    requires a.Consistent() && ValidStack(a, p) && |p| <= depth && !CanReduce(a, depth, p, token)
    ensures var res := ParseToken(a, depth, p, token);
            var s := Top(p).state;
            && res.made == []
            && s < |a.items|
            && (s == a.AcceptState() ==> res.outcome == Accepted && res.stack == [Bottom])
            && (s < a.AcceptState() ==>
                  match a.ActionFor(s, token)
                  case Error => res.outcome == SyntaxError && res.stack == p
                  case Reduce(_) => res.outcome == Overflowed && res.stack == [Bottom]
                  case Shift(q) =>
                    if |p| >= depth then res.outcome == Overflowed && res.stack == [Bottom]
                    else res.outcome == Shifted && res.stack == p + [Entry(q, a.Reading(s, token))])
  {
    StackInRange(a, p);
    if Top(p).state < a.AcceptState() {
      ActionOffered(a, p, token);
    }
  }
}
