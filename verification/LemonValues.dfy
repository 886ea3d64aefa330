/**
 Semantic values on the parser stack: every symbol has a kind, every rule an action, and
 the value of each entry has the kind of its major, so that the destructor chosen by the
 major releases what the entry owns.
 */
module LemonValues {
  import opened Grammars
  import opened LrAutomata
  import opened LemonTables
  import opened LemonSimulation
  import opened SqlExprs
  import opened SqlActions

  datatype StackEntry = StackEntry(stateno: nat, major: nat, minor: Minor)

  /** The kind of every symbol and the action of every rule. */
  datatype Typing = Typing(kinds: seq<Kind>, actions: seq<Action>)

  function Slots(o: seq<StackEntry>): (slots: seq<Slot>)
    ensures |slots| == |o|
    ensures forall i | 0 <= i < |o| :: slots[i] == Slot(o[i].stateno, o[i].major)
  {
    seq(|o|, i requires 0 <= i < |o| => Slot(o[i].stateno, o[i].major))
  }

  function Args(o: seq<StackEntry>): (args: seq<Arg>)
    ensures |args| == |o|
    ensures forall i | 0 <= i < |o| :: args[i] == Arg(o[i].major, o[i].minor)
  {
    seq(|o|, i requires 0 <= i < |o| => Arg(o[i].major, o[i].minor))
  }

  // ----- Well-typed rules

  function PartKind(ty: Typing, part: Part): Kind {
    match part
    case Sym(x) => if x < |ty.kinds| then ty.kinds[x] else KNone
    case OneOf(_) => KToken
  }

  function PartKinds(ty: Typing, rhs: seq<Part>): (kinds: seq<Kind>)
    ensures |kinds| == |rhs|
    ensures forall i | 0 <= i < |rhs| :: kinds[i] == PartKind(ty, rhs[i])
  {
    seq(|rhs|, i requires 0 <= i < |rhs| => PartKind(ty, rhs[i]))
  }

  /** Places whose token code decides what the action builds. */
  predicate ReadsMajor(action: Action, i: nat) {
    (action == BinaryOp && i == 1) || (action == PrefixOp && i == 0) || (action == PostfixNull && i == 1)
  }

  /** Only a token that is written as itself can stand in such a place, and the action knows it. */
  ghost predicate ReadExactly(a: Automaton, action: Action, i: nat, part: Part) {
    forall x: nat | part.Matches(x) ::
      && a.g.IsTerminal(x)
      && KnowsMajor(action, i, x)
      && x != a.wildcard
      && forall k | 0 <= k < |a.fallback| :: a.fallback[k] != x
  }

  ghost predicate RuleTyped(a: Automaton, ty: Typing, r: nat)
    requires r < |a.g.rules| == |ty.actions|
  {
    var kinds := PartKinds(ty, a.Rhs(r));
    && ExpectsKinds(ty.actions[r], kinds)
    && a.Lhs(r) < |ty.kinds| && ResultKind(ty.actions[r], kinds) == ty.kinds[a.Lhs(r)]
    && (!a.g.rules[r].hasCode ==> ty.actions[r] == Keep)
    && forall i | 0 <= i < |a.Rhs(r)| && ReadsMajor(ty.actions[r], i) ::
         ReadExactly(a, ty.actions[r], i, a.Rhs(r)[i])
  }

  ghost predicate WellTyped(a: Automaton, ty: Typing) {
    && |ty.kinds| == a.g.nSymbol
    && |ty.actions| == |a.g.rules|
    && a.g.start < a.g.nSymbol && Ownerless(ty.kinds[a.g.start])
    && a.g.nToken <= a.g.nSymbol
    && (forall x | 0 <= x < a.g.nToken :: ty.kinds[x] == KToken)
    && forall r | 0 <= r < |a.g.rules| :: RuleTyped(a, ty, r)
  }

  // ----- Well-typed stacks

  ghost predicate Typed(ty: Typing, o: seq<StackEntry>) {
    forall i | 1 <= i < |o| :: o[i].major < |ty.kinds| && o[i].minor.KindOf() == ty.kinds[o[i].major]
  }

  lemma {:induction false} ChainKeepsKind(a: Automaton, ty: Typing, sym: nat, rs: seq<nat>, major: nat)
    requires a.Shape() && WellTyped(a, ty)
    requires sym < a.g.nSymbol && UnitChain(a, sym, rs, major)
    ensures major < a.g.nSymbol && ty.kinds[major] == ty.kinds[sym]
    decreases |rs|
  {
    if rs != [] {
      var r := rs[0];
      assert RuleTyped(a, ty, r) && a.g.RuleOk(a.g.rules[r]);
      assert a.g.PartOk(a.Rhs(r)[0]);
      ChainKeepsKind(a, ty, a.Rhs(r)[0].x, rs[1..], major);
    }
  }

  /** Agreement keeps the kind: a skipped unit rule passes its value on. */
  lemma AgreementKeepsKind(a: Automaton, ty: Typing, major: nat, sym: nat)
    requires a.Shape() && WellTyped(a, ty)
    requires sym < a.g.nSymbol && Agrees(a, major, sym)
    ensures major < a.g.nSymbol && ty.kinds[major] == ty.kinds[sym]
  {
    if !a.g.IsTerminal(sym) {
      var rs: seq<nat> :| UnitChain(a, sym, rs, major);
      ChainKeepsKind(a, ty, sym, rs, major);
    }
  }

  lemma MatchKeepsKind(a: Automaton, ty: Typing, part: Part, sym: nat)
    requires a.Shape() && WellTyped(a, ty)
    requires a.g.PartOk(part) && part.Matches(sym)
    ensures sym < a.g.nSymbol && PartKind(ty, part) == ty.kinds[sym]
  {
  }

  lemma ArgFits(a: Automaton, ty: Typing, r: nat, i: nat, entry: StackEntry, sym: nat)
    requires a.Shape() && WellTyped(a, ty) && r < |a.g.rules| && i < |a.Rhs(r)|
    requires a.Rhs(r)[i].Matches(sym) && Agrees(a, entry.major, sym)
    requires entry.major < |ty.kinds| ==> entry.minor.KindOf() == ty.kinds[entry.major]
    ensures entry.minor.KindOf() == PartKind(ty, a.Rhs(r)[i])
    ensures KnowsMajor(ty.actions[r], i, entry.major)
  {
    assert RuleTyped(a, ty, r) && a.g.RuleOk(a.g.rules[r]);
    assert a.g.PartOk(a.Rhs(r)[i]);
    MatchKeepsKind(a, ty, a.Rhs(r)[i], sym);
    AgreementKeepsKind(a, ty, entry.major, sym);
    if ReadsMajor(ty.actions[r], i) {
      assert ReadExactly(a, ty.actions[r], i, a.Rhs(r)[i]);
    }
  }

  /** Entry i of the handle of r. */
  lemma HandleFits(t: Tables, a: Automaton, ty: Typing, o: seq<StackEntry>, p: seq<Entry>, r: nat, i: nat)
    requires a.Consistent() && t.WellFormed() && WellTyped(a, ty) && ValidStack(a, p)
    requires Related(t, a, Slots(o), p) && Typed(ty, o) && ReduceOffered(a, p, r)
    requires i < |a.Rhs(r)|
    ensures |a.Rhs(r)| < |o|
    ensures var entry := o[|o| - |a.Rhs(r)| + i];
            entry.minor.KindOf() == PartKind(ty, a.Rhs(r)[i]) && KnowsMajor(ty.actions[r], i, entry.major)
  {
    HandleSpells(a, p, r);
    var n := |o| - |a.Rhs(r)| + i;
    HandleSymbol(a, p, r, i);
    SlotAgrees(t, a, Slots(o), p, n);
    ArgFits(a, ty, r, i, o[n], p[n].sym);
  }

  lemma HandleSymbol(a: Automaton, p: seq<Entry>, r: nat, i: nat)
    requires r < |a.g.rules| && |a.Rhs(r)| < |p| && i < |a.Rhs(r)|
    requires Spells(a.Rhs(r), Handle(a, p, r))
    ensures a.Rhs(r)[i].Matches(p[|p| - |a.Rhs(r)| + i].sym)
  {
    assert Handle(a, p, r)[i] == p[|p| - |a.Rhs(r)| + i].sym;
  }

  lemma SlotAgrees(t: Tables, a: Automaton, slots: seq<Slot>, p: seq<Entry>, n: nat)
    requires |t.action| <= |t.lookahead| && Related(t, a, slots, p) && 1 <= n < |p|
    ensures Agrees(a, slots[n].major, p[n].sym)
  {
    assert StandsFor(t, a, p[n - 1], slots[n], p[n]);
  }

  lemma KindsFromParts(ty: Typing, args: seq<Arg>, rhs: seq<Part>)
    requires |args| == |rhs|
    requires forall i | 0 <= i < |rhs| :: args[i].minor.KindOf() == PartKind(ty, rhs[i])
    ensures Kinds(args) == PartKinds(ty, rhs)
  {
  }

  /** The entries a reduction pops are what its action expects. */
  lemma ArgsAccepted(t: Tables, a: Automaton, ty: Typing, o: seq<StackEntry>, p: seq<Entry>, r: nat)
    requires a.Consistent() && t.WellFormed() && WellTyped(a, ty) && ValidStack(a, p)
    requires Related(t, a, Slots(o), p) && Typed(ty, o) && ReduceOffered(a, p, r)
    ensures |a.Rhs(r)| < |o|
    ensures var args := Args(o[|o| - |a.Rhs(r)|..]);
            && Accepts(ty.actions[r], args)
            && Kinds(args) == PartKinds(ty, a.Rhs(r))
  {
    HandleSpells(a, p, r);
    var args := Args(o[|o| - |a.Rhs(r)|..]);
    forall i | 0 <= i < |a.Rhs(r)|
      ensures args[i].minor.KindOf() == PartKind(ty, a.Rhs(r)[i])
      ensures KnowsMajor(ty.actions[r], i, args[i].major)
    {
      HandleFits(t, a, ty, o, p, r, i);
    }
    KindsFromParts(ty, args, a.Rhs(r));
    assert RuleTyped(a, ty, r);
  }

  // ----- Ownership by the stack

  function StackOwns(o: seq<StackEntry>, id: nat): nat {
    OwnedBy(Args(o), id)
  }

  lemma {:induction false} OwnedConcat(xs: seq<Arg>, ys: seq<Arg>, id: nat)
    ensures OwnedBy(xs + ys, id) == OwnedBy(xs, id) + OwnedBy(ys, id)
  {
    if xs == [] {
      assert xs + ys == ys;
    } else {
      assert (xs + ys)[1..] == xs[1..] + ys;
      OwnedConcat(xs[1..], ys, id);
    }
  }

  lemma StackOwnsConcat(o: seq<StackEntry>, o': seq<StackEntry>, id: nat)
    ensures StackOwns(o + o', id) == StackOwns(o, id) + StackOwns(o', id)
  {
    assert Args(o + o') == Args(o) + Args(o');
    OwnedConcat(Args(o), Args(o'), id);
  }

  lemma StackOwnsOne(entry: StackEntry, id: nat)
    ensures StackOwns([entry], id) == entry.minor.OwnedTimes(id)
  {
    assert Args([entry]) == [Arg(entry.major, entry.minor)];
    assert OwnedBy(Args([entry])[1..], id) == 0;
  }

  /**
   Every node is accounted for: an allocated node is owned once by the stack or has been
   released once, and no node that was never allocated is either.
   */
  ghost predicate Balanced(h: Heap, o: seq<StackEntry>) {
    forall id: nat :: h.Balance(id) == StackOwns(o, id)
  }
}
