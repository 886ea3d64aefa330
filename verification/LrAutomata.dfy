/**
 The ordinary LR automaton of a grammar: two-dimensional tables, one shift and one
 reduction at a time, every unit rule reduced explicitly. The table-driven parser of
 parse.c is proved to refine this machine; here the machine itself is proved sound.

 An automaton carries the certificate the generator could print beside its tables: the
 item set of every state and a weight for every symbol. Consistency of the tables with
 the grammar is a finite check over that certificate.
 */
module LrAutomata {
  import opened Grammars

  datatype Item = Item(rule: nat, dot: nat)

  datatype Act = Shift(target: nat) | Reduce(rule: nat) | Error

  /**
   States 0 .. |cells|-1 look at the next token. State |cells| + k reduces by autoRule[k]
   whatever the token is. The last state of all is the accepting one.
   */
  datatype Automaton = Automaton(
    g: Grammar,
    fallback: seq<nat>,
    wildcard: nat,
    cells: seq<map<nat, Act>>,
    defaults: seq<Act>,
    gotos: seq<map<nat, nat>>,
    autoRule: seq<nat>,
    items: seq<set<Item>>,
    weight: seq<int>,
    bound: nat)
  {
    function AcceptState(): nat {
      |cells| + |autoRule|
    }

    function Rhs(r: nat): seq<Part>
      requires r < |g.rules|
    {
      g.rules[r].rhs
    }

    function Lhs(r: nat): nat
      requires r < |g.rules|
    {
      g.rules[r].lhs
    }

    function FallbackOf(t: nat): nat {
      if t < |fallback| then fallback[t] else 0
    }

    /** The terminal as which state s takes the token: itself, else its fallback, else the wildcard. */
    function Reading(s: nat, token: nat): nat
      requires s < |cells|
    {
      if token in cells[s] then token
      else if FallbackOf(token) != 0 && FallbackOf(token) in cells[s] then FallbackOf(token)
      else wildcard
    }

    function ActionFor(s: nat, token: nat): Act
      requires s < AcceptState() && |defaults| == |cells|
    {
      if s >= |cells| then Reduce(autoRule[s - |cells|])
      else if token in cells[s] then cells[s][token]
      else if FallbackOf(token) != 0 && FallbackOf(token) in cells[s] then cells[s][FallbackOf(token)]
      else if token > 0 && wildcard in cells[s] then cells[s][wildcard]
      else defaults[s]
    }

    predicate MayRead(token: nat, t: nat) {
      || t == token
      || (t != 0 && t == FallbackOf(token))
      || (token > 0 && t == wildcard)
    }

    // ----- Consistency of the tables with the grammar

    ghost predicate Consistent() {
      && Shape()
      && (forall s | 0 <= s < |cells| :: CellsOk(s) && DefaultOk(s) && GotosOk(s))
      && (forall k | 0 <= k < |autoRule| :: ReduceOk(|cells| + k, autoRule[k]) && Lhs(autoRule[k]) != g.start)
      && (forall q | 0 <= q < |items| :: ItemSetOk(q))
      && (forall r | 0 <= r < |g.rules| :: weight[Lhs(r)] < PartsWeight(Rhs(r)))
      && (forall t | 0 <= t < g.nToken :: weight[t] == weight[0])
      && (forall x | 0 <= x < g.nSymbol :: 0 <= weight[x] + bound)
    }

    ghost predicate Shape() {
      && g.WellFormed()
      && 0 < |cells| == |defaults| == |gotos|
      && |items| == AcceptState() + 1
      && |weight| == g.nSymbol
      && 0 < wildcard < g.nToken
      && |fallback| <= g.nToken
      && (0 < |fallback| ==> fallback[0] == 0)
      && (forall t | 0 <= t < |fallback| :: fallback[t] < g.nToken && FallbackOf(fallback[t]) == 0)
    }

    // A reduction is offered only where its item is complete.
    ghost predicate ReduceOk(s: nat, r: nat)
      requires s < |items|
    {
      r < |g.rules| && Item(r, |Rhs(r)|) in items[s]
    }

    // End of input is never shifted, and only end of input reduces to the start symbol.
    ghost predicate CellsOk(s: nat)
      requires Shape() && s < |cells|
    {
      forall t | t in cells[s] :: t < g.nToken && CellOk(s, t, cells[s][t])
    }

    ghost predicate CellOk(s: nat, t: nat, act: Act)
      requires Shape() && s < |cells|
    {
      match act
      case Shift(q) => 0 < q < AcceptState() && t != 0 && ItemsFollow(s, t, q)
      case Reduce(r) => ReduceOk(s, r) && (Lhs(r) == g.start ==> t == 0)
      case Error => true
    }

    ghost predicate DefaultOk(s: nat)
      requires Shape() && s < |cells|
    {
      match defaults[s]
      case Shift(_) => false
      case Reduce(r) => ReduceOk(s, r) && Lhs(r) != g.start
      case Error => true
    }

    ghost predicate GotosOk(s: nat)
      requires Shape() && s < |cells|
    {
      forall x | x in gotos[s] ::
        && g.nToken <= x < g.nSymbol
        && 0 < gotos[s][x] <= AcceptState()
        && (gotos[s][x] == AcceptState() <==> s == 0 && x == g.start)
        && ItemsFollow(s, x, gotos[s][x])
    }

    // Every item of q whose dot has moved got there over x from an item of s.
    ghost predicate ItemsFollow(s: nat, x: nat, q: nat)
      requires Shape() && s < |items| && q < |items|
    {
      forall it | it in items[q] && it.dot > 0 ::
        && it.rule < |g.rules| && it.dot <= |Rhs(it.rule)|
        && Rhs(it.rule)[it.dot - 1].Matches(x)
        && Item(it.rule, it.dot - 1) in items[s]
    }

    // Every item about to begin has a goto for what it will become.
    ghost predicate ItemSetOk(q: nat)
      requires Shape() && q < |items|
    {
      forall it | it in items[q] ::
        && it.rule < |g.rules|
        && (q == 0 ==> it.dot == 0)
        && (it.dot == 0 ==> q < |cells| && Lhs(it.rule) in gotos[q])
    }

    // ----- Weights

    predicate Weighted(syms: seq<nat>) {
      forall i | 0 <= i < |syms| :: syms[i] < |weight|
    }

    function WeightOf(syms: seq<nat>): int
      requires Weighted(syms)
    {
      if syms == [] then 0 else weight[syms[0]] + WeightOf(syms[1..])
    }

    // All terminals weigh the same, so a choice of terminals has a weight too.
    function PartsWeight(parts: seq<Part>): int
      requires 0 < |weight|
      requires forall i | 0 <= i < |parts| && parts[i].Sym? :: parts[i].x < |weight|
    {
      if parts == [] then 0
      else (if parts[0].Sym? then weight[parts[0].x] else weight[0]) + PartsWeight(parts[1..])
    }

    lemma {:induction false} SpellingWeight(parts: seq<Part>, w: seq<nat>)
      requires Shape() && forall t | 0 <= t < g.nToken :: weight[t] == weight[0]
      requires forall i | 0 <= i < |parts| :: g.PartOk(parts[i])
      requires Spells(parts, w)
      ensures Weighted(w) && WeightOf(w) == PartsWeight(parts)
    {
      if parts != [] {
        assert g.PartOk(parts[0]) && parts[0].Matches(w[0]);
        SpellingWeight(parts[1..], w[1..]);
      }
    }

    lemma {:induction false} WeightConcat(s: seq<nat>, t: seq<nat>)
      requires Weighted(s) && Weighted(t)
      ensures WeightOf(s + t) == WeightOf(s) + WeightOf(t)
    {
      if s == [] {
        assert s + t == t;
      } else {
        assert (s + t)[1..] == s[1..] + t;
        WeightConcat(s[1..], t);
      }
    }

    lemma {:induction false} WeightBounded(syms: seq<nat>)
      requires Weighted(syms)
      requires forall i | 0 <= i < |syms| :: 0 <= weight[syms[i]] + bound
      ensures 0 <= WeightOf(syms) + |syms| * bound
    {
      if syms != [] {
        WeightBounded(syms[1..]);
        assert |syms| * bound == (|syms| - 1) * bound + bound;
      }
    }
  }

  // ----- The machine

  datatype Entry = Entry(state: nat, sym: nat)

  const Bottom: Entry := Entry(0, 0)

  /** The symbols on the stack, bottom entry excluded. */
  function Symbols(p: seq<Entry>): (syms: seq<nat>)
    requires |p| > 0
    ensures |syms| == |p| - 1
    ensures forall i | 0 <= i < |syms| :: syms[i] == p[i + 1].sym
  {
    seq(|p| - 1, i requires 0 <= i < |p| - 1 => p[i + 1].sym)
  }

  function Top(p: seq<Entry>): Entry
    requires |p| > 0
  {
    p[|p| - 1]
  }

  /** The table entry that put e on top of state s. */
  ghost predicate Linked(a: Automaton, s: nat, e: Entry) {
    && |a.gotos| == |a.cells|
    && s < |a.cells|
    && if e.sym < a.g.nToken
       then e.sym in a.cells[s] && a.cells[s][e.sym] == Shift(e.state)
       else e.sym in a.gotos[s] && a.gotos[s][e.sym] == e.state
  }

  ghost predicate ValidStack(a: Automaton, p: seq<Entry>) {
    && |p| > 0
    && p[0] == Bottom
    && forall i | 1 <= i < |p| :: Linked(a, p[i - 1].state, p[i])
  }

  lemma PrefixValid(a: Automaton, p: seq<Entry>, n: nat)
    requires ValidStack(a, p) && 0 < n <= |p|
    ensures ValidStack(a, p[..n])
  {
  }

  lemma PushValid(a: Automaton, p: seq<Entry>, e: Entry)
    requires ValidStack(a, p) && Linked(a, Top(p).state, e)
    ensures ValidStack(a, p + [e])
  {
  }

  lemma LinkedState(a: Automaton, s: nat, e: Entry)
    requires a.Consistent() && Linked(a, s, e)
    ensures 0 < e.state < |a.items|
    ensures e.sym < a.g.nSymbol
    ensures e.state == a.AcceptState() <==> s == 0 && e.sym == a.g.start
    ensures a.ItemsFollow(s, e.sym, e.state)
  {
    assert a.CellsOk(s) && a.GotosOk(s);
  }

  lemma StackInRange(a: Automaton, p: seq<Entry>)
    requires a.Consistent() && ValidStack(a, p)
    ensures forall i | 0 <= i < |p| :: p[i].state < |a.items|
    ensures forall i | 0 < i < |p| :: p[i].state > 0
    ensures a.Weighted(Symbols(p))
    ensures Top(p).state == a.AcceptState() ==> |p| == 2 && Top(p).sym == a.g.start
  {
    forall i | 1 <= i < |p|
      ensures 0 < p[i].state < |a.items| && p[i].sym < a.g.nSymbol
    {
      LinkedState(a, p[i - 1].state, p[i]);
    }
    if Top(p).state == a.AcceptState() {
      LinkedState(a, p[|p| - 2].state, p[|p| - 1]);
    }
  }

  /**
   An item of the top state whose dot stands at d spells out the top d symbols of the
   stack, and the state below them still has the item with the dot at the beginning.
   */
  lemma {:induction false} ItemSpellsStack(a: Automaton, p: seq<Entry>, it: Item)
    requires a.Consistent() && ValidStack(a, p)
    requires Top(p).state < |a.items| && it in a.items[Top(p).state]
    ensures it.rule < |a.g.rules| && it.dot <= |a.Rhs(it.rule)|
    ensures it.dot < |p|
    ensures p[|p| - 1 - it.dot].state < |a.cells|
    ensures forall j | 0 <= j < it.dot :: a.Rhs(it.rule)[j].Matches(p[|p| - it.dot + j].sym)
    ensures Item(it.rule, 0) in a.items[p[|p| - 1 - it.dot].state]
    decreases it.dot
  {
    assert a.ItemSetOk(Top(p).state);
    if it.dot > 0 {
      var below := p[..|p| - 1];
      LinkedState(a, Top(below).state, Top(p));
      ItemSpellsStack(a, below, Item(it.rule, it.dot - 1));
    }
  }

  ghost predicate ReduceOffered(a: Automaton, p: seq<Entry>, r: nat)
    requires a.Consistent() && ValidStack(a, p)
  {
    Top(p).state < |a.items| && a.ReduceOk(Top(p).state, r)
  }

  /** There is a handle to pop and a goto from the state below it. */
  predicate CanPop(a: Automaton, p: seq<Entry>, r: nat) {
    && r < |a.g.rules|
    && |a.Rhs(r)| < |p|
    && Below(a, p, r).state < |a.gotos|
    && a.Lhs(r) in a.gotos[Below(a, p, r).state]
  }

  /** The part of the stack below the handle of r, and its top entry. */
  function Kept(a: Automaton, p: seq<Entry>, r: nat): seq<Entry>
    requires r < |a.g.rules| && |a.Rhs(r)| < |p|
  {
    p[..|p| - |a.Rhs(r)|]
  }

  function Below(a: Automaton, p: seq<Entry>, r: nat): Entry
    requires r < |a.g.rules| && |a.Rhs(r)| < |p|
  {
    p[|p| - 1 - |a.Rhs(r)|]
  }

  /** The symbols that a reduction by r takes off the stack. */
  function Handle(a: Automaton, p: seq<Entry>, r: nat): seq<nat>
    requires r < |a.g.rules| && |a.Rhs(r)| < |p|
  {
    Symbols(p)[|p| - 1 - |a.Rhs(r)|..]
  }

  /** The stack after reducing by r: the handle is replaced by the left-hand side. */
  function AfterReduce(a: Automaton, p: seq<Entry>, r: nat): (p': seq<Entry>)
    requires CanPop(a, p, r)
    ensures |p'| == |p| - |a.Rhs(r)| + 1 >= 2
  {
    Kept(a, p, r) + [Entry(a.gotos[Below(a, p, r).state][a.Lhs(r)], a.Lhs(r))]
  }

  lemma ReduceCanPop(a: Automaton, p: seq<Entry>, r: nat)
    requires a.Consistent() && ValidStack(a, p) && ReduceOffered(a, p, r)
    ensures CanPop(a, p, r)
    ensures Linked(a, Below(a, p, r).state, Top(AfterReduce(a, p, r)))
  {
    ItemSpellsStack(a, p, Item(r, |a.Rhs(r)|));
    assert a.ItemSetOk(Below(a, p, r).state);
    assert a.GotosOk(Below(a, p, r).state);
  }

  lemma ReduceValid(a: Automaton, p: seq<Entry>, r: nat)
    requires a.Consistent() && ValidStack(a, p) && ReduceOffered(a, p, r)
    ensures CanPop(a, p, r)
    ensures ValidStack(a, AfterReduce(a, p, r))
  {
    ReduceCanPop(a, p, r);
    PrefixValid(a, p, |p| - |a.Rhs(r)|);
    PushValid(a, Kept(a, p, r), Top(AfterReduce(a, p, r)));
  }

  /** The handle spells the right-hand side, and only the handle is replaced. */
  lemma HandleSpells(a: Automaton, p: seq<Entry>, r: nat)
    requires a.Consistent() && ValidStack(a, p) && ReduceOffered(a, p, r)
    ensures CanPop(a, p, r)
    ensures Spells(a.Rhs(r), Handle(a, p, r))
    ensures Symbols(p) == Symbols(Kept(a, p, r)) + Handle(a, p, r)
    ensures Symbols(AfterReduce(a, p, r)) == Symbols(Kept(a, p, r)) + [a.Lhs(r)]
  {
    ReduceValid(a, p, r);
    ItemSpellsStack(a, p, Item(r, |a.Rhs(r)|));
  }

  // ----- Termination: every reduction lowers the weight of the stack

  ghost function Potential(a: Automaton, p: seq<Entry>): int
    requires a.Consistent() && ValidStack(a, p)
  {
    StackInRange(a, p);
    a.WeightOf(Symbols(p))
  }

  lemma ReduceLowersWeight(a: Automaton, keep: seq<nat>, handle: seq<nat>, r: nat)
    requires a.Consistent() && a.Weighted(keep)
    requires r < |a.g.rules| && Spells(a.Rhs(r), handle)
    ensures a.Weighted(keep + handle) && a.Weighted(keep + [a.Lhs(r)])
    ensures a.WeightOf(keep + [a.Lhs(r)]) < a.WeightOf(keep + handle)
  {
    assert a.g.RuleOk(a.g.rules[r]);
    a.SpellingWeight(a.Rhs(r), handle);
    a.WeightConcat(keep, handle);
    a.WeightConcat(keep, [a.Lhs(r)]);
    assert a.WeightOf([a.Lhs(r)]) == a.weight[a.Lhs(r)];
  }

  lemma ReduceLowersPotential(a: Automaton, p: seq<Entry>, r: nat)
    requires a.Consistent() && ValidStack(a, p) && ReduceOffered(a, p, r)
    ensures CanPop(a, p, r) && ValidStack(a, AfterReduce(a, p, r))
    ensures Potential(a, AfterReduce(a, p, r)) < Potential(a, p)
  {
    ReduceValid(a, p, r);
    HandleSpells(a, p, r);
    StackInRange(a, p);
    StackInRange(a, AfterReduce(a, p, r));
    var keep := Symbols(Kept(a, p, r));
    assert forall i | 0 <= i < |keep| :: keep[i] == Symbols(p)[i];
    ReduceLowersWeight(a, keep, Handle(a, p, r), r);
  }

  lemma PotentialBounded(a: Automaton, p: seq<Entry>, depth: nat)
    requires a.Consistent() && ValidStack(a, p) && |p| <= depth
    ensures Potential(a, p) + depth * a.bound >= 0
  {
    StackInRange(a, p);
    a.WeightBounded(Symbols(p));
    assert (|p| - 1) * a.bound <= depth * a.bound by { MulMonotone(|p| - 1, depth, a.bound); }
  }

  lemma MulMonotone(x: nat, y: nat, k: nat)
    requires x <= y
    ensures x * k <= y * k
  {
    assert y * k == x * k + (y - x) * k;
  }

  // ----- Feeding one token

  datatype Outcome = Shifted | Accepted | SyntaxError | Overflowed

  /** A rule without code and with a single non-terminal on the right. */
  predicate Skippable(a: Automaton, r: nat) {
    && r < |a.g.rules|
    && !a.g.rules[r].hasCode
    && |a.g.rules[r].rhs| == 1
    && a.g.rules[r].rhs[0].Sym?
    && !a.g.IsTerminal(a.g.rules[r].rhs[0].x)
  }

  /** A state in which nothing can happen but the reduction of such a rule. */
  predicate Skips(a: Automaton, q: nat) {
    |a.cells| <= q < a.AcceptState() && Skippable(a, a.autoRule[q - |a.cells|])
  }

  function SkipTo(a: Automaton, q: nat): nat
    requires Skips(a, q)
  {
    a.g.rules[a.autoRule[q - |a.cells|]].lhs
  }

  /** The goto that put the top entry there leads to such a state; the generator takes it past the reduction. */
  ghost predicate Unsettled(a: Automaton, p: seq<Entry>)
    requires |p| > 0
  {
    && |p| > 1
    && !a.g.IsTerminal(Top(p).sym)
    && Skips(a, Top(p).state)
  }

  /**
   The reductions are all those of the machine; those made leave out the ones that are done
   on an unsettled stack, and only those.
   */
  datatype TokenResult = TokenResult(stack: seq<Entry>, reductions: seq<nat>, made: seq<nat>, outcome: Outcome)
  {
    function After(rs: seq<nat>, rsMade: seq<nat>): TokenResult {
      TokenResult(stack, rs + reductions, rsMade + made, outcome)
    }
  }

  /** What of the reduction of r on p is made. */
  ghost function Made(a: Automaton, p: seq<Entry>, r: nat): seq<nat>
    requires |p| > 0
  {
    if Unsettled(a, p) then [] else [r]
  }

  /** Sequence made is rs without some of its skippable rules. */
  ghost predicate Thinned(a: Automaton, rs: seq<nat>, made: seq<nat>)
    decreases |rs|
  {
    if rs == [] then made == []
    else
      || (made != [] && made[0] == rs[0] && Thinned(a, rs[1..], made[1..]))
      || (Skippable(a, rs[0]) && Thinned(a, rs[1..], made))
  }

  lemma ActionOffered(a: Automaton, p: seq<Entry>, token: nat)
    requires a.Consistent() && ValidStack(a, p) && Top(p).state < a.AcceptState()
    ensures var act := a.ActionFor(Top(p).state, token);
            && (act.Reduce? ==> ReduceOffered(a, p, act.rule))
            && (act.Reduce? && a.Lhs(act.rule) == a.g.start ==> token == 0)
            && (act.Shift? ==> token > 0)
            && (act.Shift? ==> Linked(a, Top(p).state, Entry(act.target, a.Reading(Top(p).state, token))))
            && (act.Shift? ==> a.MayRead(token, a.Reading(Top(p).state, token)))
  {
    var s := Top(p).state;
    if s < |a.cells| {
      assert a.CellsOk(s) && a.DefaultOk(s);
    }
  }

  /**
   What the machine does with one token on a stack limited to depth entries: reductions,
   then a shift, acceptance or an error. Overflow empties the stack.
   */
  ghost function ParseToken(a: Automaton, depth: nat, p: seq<Entry>, token: nat): (res: TokenResult)
    requires a.Consistent() && ValidStack(a, p) && |p| <= depth
    ensures ValidStack(a, res.stack) && |res.stack| <= depth
    ensures res.outcome == Shifted ==> |res.stack| >= 2 && token > 0
    ensures res.outcome.Accepted? || res.outcome.Overflowed? ==> res.stack == [Bottom]
    ensures p == [Bottom] && res.outcome.Accepted? ==> res.reductions != []
    decreases Potential(a, p) + depth * a.bound
  {
    StackInRange(a, p);
    var s := Top(p).state;
    if s == a.AcceptState() then
      assert p[..1] == [Bottom];
      TokenResult([Bottom], [], [], Accepted)
    else
      ActionOffered(a, p, token);
      match a.ActionFor(s, token)
      case Error => TokenResult(p, [], [], SyntaxError)
      case Shift(q) =>
        if |p| >= depth then TokenResult([Bottom], [], [], Overflowed)
        else TokenResult(p + [Entry(q, a.Reading(s, token))], [], [], Shifted)
      case Reduce(r) =>
        if |a.Rhs(r)| == 0 && |p| >= depth then TokenResult([Bottom], [], [], Overflowed)
        else
          ReduceLowersPotential(a, p, r);
          PotentialBounded(a, p, depth);
          PotentialBounded(a, AfterReduce(a, p, r), depth);
          ParseToken(a, depth, AfterReduce(a, p, r), token).After([r], Made(a, p, r))
  }

  ghost predicate CanReduce(a: Automaton, depth: nat, p: seq<Entry>, token: nat)
    requires a.Consistent() && ValidStack(a, p)
  {
    && Top(p).state < a.AcceptState()
    && var act := a.ActionFor(Top(p).state, token);
       act.Reduce? && ReduceOffered(a, p, act.rule) && (|a.Rhs(act.rule)| == 0 ==> |p| < depth)
  }

  /** The reducing case of ParseToken, unfolded once, with the measure on which to recurse. */
  lemma ParseTokenReduces(a: Automaton, depth: nat, p: seq<Entry>, token: nat)
    requires a.Consistent() && ValidStack(a, p) && |p| <= depth
    requires CanReduce(a, depth, p, token)
    ensures var r := a.ActionFor(Top(p).state, token).rule;
            && CanPop(a, p, r)
            && var p' := AfterReduce(a, p, r);
            && ValidStack(a, p') && |p'| <= depth
            && (Top(p').state == a.AcceptState() ==> token == 0)
            && 0 <= Potential(a, p') + depth * a.bound < Potential(a, p) + depth * a.bound
            && ParseToken(a, depth, p, token) == ParseToken(a, depth, p', token).After([r], Made(a, p, r))
  {
    var r := a.ActionFor(Top(p).state, token).rule;
    ActionOffered(a, p, token);
    ReduceLowersPotential(a, p, r);
    PotentialBounded(a, AfterReduce(a, p, r), depth);
    StackInRange(a, AfterReduce(a, p, r));
  }

  // ----- Feeding a whole input

  /** Tokens are fed while they are shifted; acceptance, an error or an overflow ends the run. */
  ghost function ParseTokens(a: Automaton, depth: nat, p: seq<Entry>, tokens: seq<nat>): (res: TokenResult)
    requires a.Consistent() && ValidStack(a, p) && |p| <= depth
    decreases |tokens|
  {
    if tokens == [] then TokenResult(p, [], [], Shifted)
    else
      var first := ParseToken(a, depth, p, tokens[0]);
      if first.outcome != Shifted then first
      else ParseTokens(a, depth, first.stack, tokens[1..]).After(first.reductions, first.made)
  }

  lemma {:induction false} ThinnedConcat(a: Automaton, rs: seq<nat>, made: seq<nat>, rs': seq<nat>, made': seq<nat>)
    requires Thinned(a, rs, made) && Thinned(a, rs', made')
    ensures Thinned(a, rs + rs', made + made')
    decreases |rs|
  {
    if rs == [] {
      assert rs + rs' == rs' && made + made' == made';
    } else {
      assert (rs + rs')[1..] == rs[1..] + rs';
      if made != [] && made[0] == rs[0] && Thinned(a, rs[1..], made[1..]) {
        ThinnedConcat(a, rs[1..], made[1..], rs', made');
        assert (made + made')[1..] == made[1..] + made';
      } else {
        ThinnedConcat(a, rs[1..], made, rs', made');
      }
    }
  }

  /** All that a run on one token leaves out of its reductions are rules without code. */
  lemma {:induction false} TokenThins(a: Automaton, depth: nat, p: seq<Entry>, token: nat)
    requires a.Consistent() && ValidStack(a, p) && |p| <= depth
    ensures var res := ParseToken(a, depth, p, token);
            Thinned(a, res.reductions, res.made)
    decreases Potential(a, p) + depth * a.bound
  {
    StackInRange(a, p);
    if CanReduce(a, depth, p, token) {
      var r := a.ActionFor(Top(p).state, token).rule;
      ParseTokenReduces(a, depth, p, token);
      PotentialBounded(a, p, depth);
      TokenThins(a, depth, AfterReduce(a, p, r), token);
      var rest := ParseToken(a, depth, AfterReduce(a, p, r), token);
      assert Thinned(a, [r], Made(a, p, r)) by {
        assert [r][1..] == [];
      }
      ThinnedConcat(a, [r], Made(a, p, r), rest.reductions, rest.made);
    } else if Top(p).state < a.AcceptState() {
      ActionOffered(a, p, token);
    }
  }

  /** The same for a whole input. */
  lemma {:induction false} TokensThin(a: Automaton, depth: nat, p: seq<Entry>, tokens: seq<nat>)
    requires a.Consistent() && ValidStack(a, p) && |p| <= depth
    ensures var res := ParseTokens(a, depth, p, tokens);
            Thinned(a, res.reductions, res.made)
    decreases |tokens|
  {
    if tokens != [] {
      var first := ParseToken(a, depth, p, tokens[0]);
      TokenThins(a, depth, p, tokens[0]);
      if first.outcome == Shifted {
        var rest := ParseTokens(a, depth, first.stack, tokens[1..]);
        TokensThin(a, depth, first.stack, tokens[1..]);
        ThinnedConcat(a, first.reductions, first.made, rest.reductions, rest.made);
      }
    }
  }
}
