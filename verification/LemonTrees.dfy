/**
 The derivation trees that stand behind the entries of the parser's stack, and the values
 they fold to: the reduce actions run over the trees from left to right, each after those
 of its children, from one heap to the next.
 */
module LemonTrees {
  import opened LemonValues
  import opened LrAutomata
  import opened Sequences
  import opened SqlActions
  import opened SqlExprs

  datatype Tree = Read(major: nat, leaf: Op) | Apply(rule: nat, kids: seq<Tree>)

  // ----- Folding the actions

  /** What the reduction of a rule makes of the entries it takes, and the heap it leaves. */
  type Runner = (nat, Heap, seq<Arg>) -> (Arg, Heap)

  /** The reduce actions, as the typing gives them; what they do not accept leaves nothing. */
  function Actions(ty: Typing, lhs: seq<nat>): Runner {
    (r: nat, h: Heap, args: seq<Arg>) =>
      if r < |lhs| && r < |ty.actions| && Accepts(ty.actions[r], args) then
        var (minor, h') := Perform(ty.actions[r], h, args);
        (Arg(lhs[r], minor), h')
      else (Arg(0, NoValue), h)
  }

  /** A runner performs the actions wherever they accept what they are given. */
  ghost predicate Performs(run: Runner, ty: Typing, lhs: seq<nat>) {
    forall r: nat, h: Heap, args: seq<Arg> {:trigger run(r, h, args)} ::
      r < |lhs| && r < |ty.actions| && Accepts(ty.actions[r], args) ==>
        run(r, h, args) == (Arg(lhs[r], Perform(ty.actions[r], h, args).0), Perform(ty.actions[r], h, args).1)
  }

  lemma ActionsPerform(ty: Typing, lhs: seq<nat>)
    ensures Performs(Actions(ty, lhs), ty, lhs)
  {
  }

  /** The entry a tree leaves, and the heap after its actions. */
  function Fold(run: Runner, tree: Tree, h: Heap): (Arg, Heap)
    decreases tree, 0
  {
    match tree
    case Read(major, leaf) => (Arg(major, TokenValue(leaf)), h)
    case Apply(rule, kids) =>
      var (args, h1) := FoldAll(run, kids, h);
      run(rule, h1, args)
  }

  function FoldAll(run: Runner, trees: seq<Tree>, h: Heap): (r: (seq<Arg>, Heap))
    ensures |r.0| == |trees|
    decreases trees, 1
  {
    if trees == [] then ([], h)
    else
      var (args, h1) := FoldAll(run, trees[..|trees| - 1], h);
      var (arg, h2) := Fold(run, trees[|trees| - 1], h1);
      (args + [arg], h2)
  }

  lemma FoldOneMore(run: Runner, trees: seq<Tree>, tree: Tree, h: Heap)
    ensures var (args, h1) := FoldAll(run, trees, h);
            var (arg, h2) := Fold(run, tree, h1);
            FoldAll(run, trees + [tree], h) == (args + [arg], h2)
  {
    assert (trees + [tree])[..|trees + [tree]| - 1] == trees;
  }

  lemma {:induction false} FoldConcat(run: Runner, ts: seq<Tree>, us: seq<Tree>, h: Heap)
    ensures var (args, h1) := FoldAll(run, ts, h);
            var (args', h2) := FoldAll(run, us, h1);
            FoldAll(run, ts + us, h) == (args + args', h2)
    decreases |us|
  {
    var (args, h1) := FoldAll(run, ts, h);
    if us == [] {
      assert ts + us == ts && args + [] == args;
    } else {
      var front, last := us[..|us| - 1], us[|us| - 1];
      FoldConcat(run, ts, front, h);
      assert ts + us == ts + front + [last];
      FoldOneMore(run, ts + front, last, h);
      var (args', h2) := FoldAll(run, front, h1);
      ConcatAssoc(args, args', [Fold(run, last, h2).0]);
    }
  }

  // ----- What is read and what is reduced, in order

  function TokensIn(tree: Tree): seq<(nat, Op)>
    decreases tree, 0
  {
    match tree
    case Read(major, leaf) => [(major, leaf)]
    case Apply(_, kids) => Tokens(kids)
  }

  function Tokens(trees: seq<Tree>): seq<(nat, Op)>
    decreases trees, 1
  {
    if trees == [] then [] else Tokens(trees[..|trees| - 1]) + TokensIn(trees[|trees| - 1])
  }

  /** The rules, each with the number of entries it took. */
  function RulesIn(tree: Tree): seq<(nat, nat)>
    decreases tree, 0
  {
    match tree
    case Read(_, _) => []
    case Apply(rule, kids) => Rules(kids) + [(rule, |kids|)]
  }

  function Rules(trees: seq<Tree>): seq<(nat, nat)>
    decreases trees, 1
  {
    if trees == [] then [] else Rules(trees[..|trees| - 1]) + RulesIn(trees[|trees| - 1])
  }

  lemma OneMoreTree(trees: seq<Tree>, tree: Tree)
    ensures Tokens(trees + [tree]) == Tokens(trees) + TokensIn(tree)
    ensures Rules(trees + [tree]) == Rules(trees) + RulesIn(tree)
  {
    assert (trees + [tree])[..|trees + [tree]| - 1] == trees;
  }

  lemma {:induction false} TokensConcat(ts: seq<Tree>, us: seq<Tree>)
    ensures Tokens(ts + us) == Tokens(ts) + Tokens(us)
    decreases |us|
  {
    if us == [] {
      assert ts + us == ts;
    } else {
      var front, last := us[..|us| - 1], us[|us| - 1];
      TokensConcat(ts, front);
      OneMoreTree(ts + front, last);
      assert ts + us == ts + front + [last];
      ConcatAssoc(Tokens(ts), Tokens(front), TokensIn(last));
    }
  }

  lemma {:induction false} RulesConcat(ts: seq<Tree>, us: seq<Tree>)
    ensures Rules(ts + us) == Rules(ts) + Rules(us)
    decreases |us|
  {
    if us == [] {
      assert ts + us == ts;
    } else {
      var front, last := us[..|us| - 1], us[|us| - 1];
      RulesConcat(ts, front);
      OneMoreTree(ts + front, last);
      assert ts + us == ts + front + [last];
      ConcatAssoc(Rules(ts), Rules(front), RulesIn(last));
    }
  }

  lemma OneMoreRule(below: seq<Tree>, kids: seq<Tree>, r: nat)
    ensures Tokens(below + [Apply(r, kids)]) == Tokens(below + kids)
    ensures Rules(below + [Apply(r, kids)]) == Rules(below + kids) + [(r, |kids|)]
  {
    TokensConcat(below, kids);
    RulesConcat(below, kids);
    OneMoreTree(below, Apply(r, kids));
    ConcatAssoc(Rules(below), Rules(kids), [(r, |kids|)]);
  }

  // ----- What has happened on a stack

  /**
   The history of a stack since it was empty and the heap was start. It is cut when a value
   was dropped otherwise than by a reduction or by the accept, or an error was reported.
   */
  datatype Past =
    | Began(run: Runner, start: Heap)
    | AndRead(before: Past, major: nat, leaf: Op)
    | AndApply(before: Past, rule: nat, n: nat)
    | AndAccept(before: Past)
    | Cut

  function TakenFrom<T>(s: seq<T>, n: nat): seq<T> {
    if n <= |s| then s[|s| - n..] else []
  }

  function LeftOf<T>(s: seq<T>, n: nat): seq<T> {
    if n <= |s| then s[..|s| - n] else []
  }

  /** Neither cut nor accepted. */
  ghost predicate Growing(past: Past) {
    match past
    case Began(_, _) => true
    case AndRead(before, _, _) => Growing(before)
    case AndApply(before, _, _) => Growing(before)
    case _ => false
  }

  /** The values above the bottom of the stack, and the heap. */
  ghost function Held(past: Past): (seq<Arg>, Heap) {
    match past
    case Began(_, start) => ([], start)
    case AndRead(before, major, leaf) => (Held(before).0 + [Arg(major, TokenValue(leaf))], Held(before).1)
    case AndApply(before, rule, n) =>
      var (args, h) := Held(before);
      var (arg, h') := RunOf(before)(rule, h, TakenFrom(args, n));
      (LeftOf(args, n) + [arg], h')
    case _ => ([], Heap(0, {}, Nothing, false, false))
  }

  ghost function RunOf(past: Past): Runner {
    match past
    case Began(run, _) => run
    case AndRead(before, _, _) => RunOf(before)
    case AndApply(before, _, _) => RunOf(before)
    case _ => (r, h, args) => (Arg(0, NoValue), h)
  }

  /** No reduction took more than there was. */
  ghost predicate Intact(past: Past) {
    match past
    case Began(_, _) => true
    case AndRead(before, _, _) => Intact(before)
    case AndApply(before, _, n) => Intact(before) && n <= |Held(before).0|
    case _ => false
  }

  ghost function StartOf(past: Past): Heap {
    match past
    case Began(_, start) => start
    case AndRead(before, _, _) => StartOf(before)
    case AndApply(before, _, _) => StartOf(before)
    case _ => Heap(0, {}, Nothing, false, false)
  }

  /** The tokens read. */
  ghost function TokensOf(past: Past): seq<(nat, Op)> {
    match past
    case Began(_, _) => []
    case AndRead(before, major, leaf) => TokensOf(before) + [(major, leaf)]
    case AndApply(before, _, _) => TokensOf(before)
    case _ => []
  }

  /** The rules reduced, each with the number of entries it took. */
  ghost function RulesOf(past: Past): seq<(nat, nat)> {
    match past
    case Began(_, _) => []
    case AndRead(before, _, _) => RulesOf(before)
    case AndApply(before, rule, n) => RulesOf(before) + [(rule, n)]
    case _ => []
  }

  /** The trees of the values. */
  ghost function TreesOf(past: Past): seq<Tree> {
    match past
    case Began(_, _) => []
    case AndRead(before, major, leaf) => TreesOf(before) + [Read(major, leaf)]
    case AndApply(before, rule, n) =>
      LeftOf(TreesOf(before), n) + [Apply(rule, TakenFrom(TreesOf(before), n))]
    case _ => []
  }

  /** The trees read the tokens and reduce the rules of the history, and fold to its values and its heap. */
  lemma {:induction false} HistoryOfTrees(past: Past)
    requires Intact(past)
    ensures Tokens(TreesOf(past)) == TokensOf(past) && Rules(TreesOf(past)) == RulesOf(past)
    ensures FoldAll(RunOf(past), TreesOf(past), StartOf(past)) == Held(past)
    decreases past
  {
    match past
    case Began(_, _) =>
    case AndRead(before, major, leaf) =>
      HistoryOfTrees(before);
      var trees := TreesOf(before) + [Read(major, leaf)];
      assert trees[..|trees| - 1] == TreesOf(before);
      assert RulesOf(before) + [] == RulesOf(before);
    case AndApply(before, rule, n) =>
      HistoryOfTrees(before);
      var below, kids := LeftOf(TreesOf(before), n), TakenFrom(TreesOf(before), n);
      assert below + kids == TreesOf(before);
      ReduceFolds(RunOf(before), below, kids, StartOf(before), rule);
      OneMoreRule(below, kids, rule);
  }

  lemma LeftAndTaken<T>(s: seq<T>, t: seq<T>)
    ensures LeftOf(s + t, |t|) == s && TakenFrom(s + t, |t|) == t
  {
  }

  lemma ReduceFolds(run: Runner, below: seq<Tree>, kids: seq<Tree>, start: Heap, rule: nat)
    ensures var (args, h) := FoldAll(run, below + kids, start);
            var (arg, h') := run(rule, h, TakenFrom(args, |kids|));
            FoldAll(run, below + [Apply(rule, kids)], start) == (LeftOf(args, |kids|) + [arg], h')
  {
    FoldConcat(run, below, kids, start);
    FoldOneMore(run, below, Apply(rule, kids), start);
    var (args, h1) := FoldAll(run, below, start);
    LeftAndTaken(args, FoldAll(run, kids, h1).0);
  }

  /** The number of parts of a rule. */
  function RhsSize(a: Automaton, r: nat): nat {
    if r < |a.g.rules| then |a.Rhs(r)| else 0
  }

  /** Rules, each with the number of its parts. */
  function Sized(a: Automaton, rules: seq<nat>): seq<(nat, nat)> {
    if rules == [] then []
    else
      var last := rules[|rules| - 1];
      Sized(a, rules[..|rules| - 1]) + [(last, RhsSize(a, last))]
  }

  lemma {:induction false} SizedConcat(a: Automaton, rules: seq<nat>, more: seq<nat>)
    ensures Sized(a, rules + more) == Sized(a, rules) + Sized(a, more)
    decreases |more|
  {
    if more == [] {
      assert rules + more == rules;
    } else {
      var front, last := more[..|more| - 1], more[|more| - 1];
      SizedConcat(a, rules, front);
      assert (rules + more)[..|rules + more| - 1] == rules + front;
      ConcatAssoc(Sized(a, rules), Sized(a, front), [(last, RhsSize(a, last))]);
    }
  }

  /** The history after the rules were reduced, in order. */
  ghost function Extended(a: Automaton, before: Past, made: seq<nat>): Past {
    if made == [] then before
    else
      var last := made[|made| - 1];
      AndApply(Extended(a, before, made[..|made| - 1]), last, RhsSize(a, last))
  }

  lemma ExtendedOne(a: Automaton, before: Past, made: seq<nat>, r: nat)
    ensures Extended(a, before, made + [r]) == AndApply(Extended(a, before, made), r, RhsSize(a, r))
  {
    assert (made + [r])[..|made|] == made;
  }

  lemma {:induction false} ExtendedFollows(a: Automaton, before: Past, made: seq<nat>)
    requires Growing(before)
    ensures var past := Extended(a, before, made);
            && Growing(past) && RunOf(past) == RunOf(before) && StartOf(past) == StartOf(before)
            && TokensOf(past) == TokensOf(before) && RulesOf(past) == RulesOf(before) + Sized(a, made)
  {
    if made != [] {
      ExtendedFollows(a, before, made[..|made| - 1]);
    }
  }

  /** A growing history tells what the stack and the heap hold; an accepted one, what the only entry was. */
  ghost predicate Told(run: Runner, past: Past, o: seq<StackEntry>, h: Heap) {
    && |o| > 0
    && (Growing(past) ==> Intact(past) && RunOf(past) == run && Held(past) == (Args(o[1..]), h))
    && (past.AndAccept? && Growing(past.before) ==>
          && Intact(past.before) && RunOf(past.before) == run
          && |Held(past.before).0| == 1 && Held(past.before).1 == h)
  }

  lemma ShiftTold(run: Runner, past: Past, o: seq<StackEntry>, h: Heap, entry: StackEntry)
    requires Told(run, past, o, h) && entry.minor.TokenValue?
    ensures Told(run, AndRead(past, entry.major, entry.minor.leaf), o + [entry], h)
  {
    assert Args((o + [entry])[1..]) == Args(o[1..]) + [Arg(entry.major, entry.minor)];
  }

  lemma ArgsSplit(o: seq<StackEntry>, k: nat, entry: StackEntry)
    requires 1 <= k <= |o|
    ensures Args(o[1..]) == Args(o[1..k]) + Args(o[k..])
    ensures Args((o[..k] + [entry])[1..]) == Args(o[1..k]) + [Arg(entry.major, entry.minor)]
  {
    assert o[1..] == o[1..k] + o[k..];
    assert (o[..k] + [entry])[1..] == o[1..k] + [entry];
  }

  lemma ReduceTold(run: Runner, past: Past, o: seq<StackEntry>, h: Heap, r: nat, n: nat, entry: StackEntry, h': Heap)
    requires Told(run, past, o, h) && n < |o|
    requires run(r, h, Args(o[|o| - n..])) == (Arg(entry.major, entry.minor), h')
    ensures Told(run, AndApply(past, r, n), o[..|o| - n] + [entry], h')
  {
    if Growing(past) {
      var k := |o| - n;
      ArgsSplit(o, k, entry);
      LeftAndTaken(Args(o[1..k]), Args(o[k..]));
    }
  }

  lemma AcceptTold(run: Runner, past: Past, o: seq<StackEntry>, h: Heap)
    requires Told(run, past, o, h) && |o| == 2
    ensures Told(run, AndAccept(past), o[..1], h)
  {
  }

  lemma FoldAt(run: Runner, trees: seq<Tree>, h: Heap, k: nat)
    requires k < |trees|
    ensures FoldAll(run, trees, h).0[k] == Fold(run, trees[k], FoldAll(run, trees[..k], h).1).0
  {
    assert trees == (trees[..k] + [trees[k]]) + trees[k + 1..];
    FoldOneMore(run, trees[..k], trees[k], h);
    FoldConcat(run, trees[..k] + [trees[k]], trees[k + 1..], h);
  }

  /** The heap that the trees below the one at k leave. */
  ghost function HeapBelow(past: Past, k: nat): Heap
    requires k <= |TreesOf(past)|
  {
    FoldAll(RunOf(past), TreesOf(past)[..k], StartOf(past)).1
  }

  /** Every entry of the stack holds what its tree folds to, from the heap that the trees below it leave. */
  lemma EntryFolded(run: Runner, past: Past, o: seq<StackEntry>, h: Heap, k: nat)
    requires Told(run, past, o, h) && Growing(past) && k < |TreesOf(past)|
    ensures RunOf(past) == run && |TreesOf(past)| == |o| - 1
    ensures Fold(run, TreesOf(past)[k], HeapBelow(past, k)).0 == Arg(o[k + 1].major, o[k + 1].minor)
  {
    HistoryOfTrees(past);
    FoldAt(run, TreesOf(past), StartOf(past), k);
  }

  // ----- A run

  /** The first n tokens with their leaves. */
  function Pairs(tokens: seq<nat>, leaves: seq<Op>, n: nat): seq<(nat, Op)>
    requires n <= |tokens| && n <= |leaves|
  {
    if n == 0 then [] else Pairs(tokens, leaves, n - 1) + [(tokens[n - 1], leaves[n - 1])]
  }

  /** A growing history in which the first n tokens were read and the rules made were reduced. */
  ghost predicate History(a: Automaton, run: Runner, start: Heap, tokens: seq<nat>, leaves: seq<Op>, n: nat,
                          made: seq<nat>, past: Past)
  {
    && n <= |tokens| && n <= |leaves|
    && Growing(past) && RunOf(past) == run && StartOf(past) == start
    && TokensOf(past) == Pairs(tokens, leaves, n) && RulesOf(past) == Sized(a, made)
  }

  lemma HistoryExtended(a: Automaton, run: Runner, start: Heap, tokens: seq<nat>, leaves: seq<Op>, n: nat,
                        made: seq<nat>, past: Past, more: seq<nat>)
    requires History(a, run, start, tokens, leaves, n, made, past)
    ensures History(a, run, start, tokens, leaves, n, made + more, Extended(a, past, more))
  {
    ExtendedFollows(a, past, more);
    SizedConcat(a, made, more);
  }

  lemma HistoryRead(a: Automaton, run: Runner, start: Heap, tokens: seq<nat>, leaves: seq<Op>, n: nat,
                    made: seq<nat>, past: Past)
    requires History(a, run, start, tokens, leaves, n, made, past) && n < |tokens| && n < |leaves|
    ensures History(a, run, start, tokens, leaves, n + 1, made, AndRead(past, tokens[n], leaves[n]))
  {
  }

  /**
   A derivation tree of the first n tokens, with the rules made, whose fold leads from one
   heap to the other.
   */
  ghost predicate TreeOf(a: Automaton, run: Runner, start: Heap, tokens: seq<nat>, leaves: seq<Op>, n: nat,
                         made: seq<nat>, root: Tree, end: Heap)
  {
    && n <= |tokens| && n <= |leaves|
    && TokensIn(root) == Pairs(tokens, leaves, n) && RulesIn(root) == Sized(a, made)
    && Fold(run, root, start).1 == end
  }

  /** What is accepted has a tree. */
  lemma AcceptedTree(a: Automaton, run: Runner, start: Heap, tokens: seq<nat>, leaves: seq<Op>, n: nat,
                     made: seq<nat>, past: Past, o: seq<StackEntry>, end: Heap)
    returns (root: Tree)
    requires History(a, run, start, tokens, leaves, n, made, past) && Told(run, AndAccept(past), o, end)
    ensures TreeOf(a, run, start, tokens, leaves, n, made, root, end)
  {
    HistoryOfTrees(past);
    root := TreesOf(past)[0];
    assert TreesOf(past) == [root];
    OneMoreTree([], root);
    FoldOneMore(run, [], root, start);
    assert [] + [root] == [root] && [] + RulesIn(root) == RulesIn(root) && [] + TokensIn(root) == TokensIn(root);
  }
}
