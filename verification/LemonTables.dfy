/**
 The compressed parser tables of parse.c and the two look-ups in them. The rows of a
 two-dimensional table are laid over each other in one array; a second array says which
 symbol each slot belongs to.
 */
module LemonTables {
  import opened Wrappers
  import opened LrAutomata

  /**
   Field names follow the YY_ constants and yy_ arrays. noCode is the code that stands for
   no symbol. ruleNRhs holds the right-hand side lengths negated, as the driver uses them.
   */
  datatype Tables = Tables(
    nToken: nat, noCode: nat,
    maxShift: nat, minShiftReduce: nat, maxShiftReduce: nat,
    errorAction: nat, acceptAction: nat, noAction: nat, minReduce: nat, maxReduce: nat,
    action: seq<nat>, lookahead: seq<nat>,
    shiftOfst: seq<nat>, reduceOfst: seq<int>, defaults: seq<nat>,
    fallback: seq<nat>, wildcard: nat,
    ruleLhs: seq<nat>, ruleNRhs: seq<int>)
  {
    ghost predicate WellFormed() {
      // The action codes, in their order.
      && 0 < |ruleLhs| == |ruleNRhs|
      && maxShift < minShiftReduce
      && maxShiftReduce == minShiftReduce + |ruleLhs| - 1
      && errorAction == maxShiftReduce + 1
      && acceptAction == errorAction + 1
      && noAction == acceptAction + 1
      && minReduce == noAction + 1
      && maxReduce == minReduce + |ruleLhs| - 1
      // The arrays. Beyond the actions the look-ahead array is padded.
      && |shiftOfst| == |defaults| == maxShift + 1
      && |reduceOfst| <= maxShift + 1
      && |action| <= |lookahead|
      && nToken <= noCode
      && (forall i | |action| <= i < |lookahead| :: lookahead[i] == noCode)
      && 0 < wildcard < nToken
      && |fallback| <= nToken
      && (forall k | 0 <= k < |fallback| :: fallback[k] < nToken && FallbackOf(fallback[k]) == 0)
    }

    function FallbackOf(x: nat): nat {
      if x < |fallback| then fallback[x] else 0
    }

    /** The entry of the two-dimensional table for a state and a terminal, if there is one. */
    function Cell(s: nat, x: nat): Option<nat>
      requires s < |shiftOfst| && |action| <= |lookahead|
    {
      var i := shiftOfst[s] + x;
      if i < |action| && lookahead[i] == x then Some(action[i]) else None
    }

    /** The entry for a state and a non-terminal, if there is one. */
    function GotoCell(s: nat, x: nat): Option<nat>
      requires |action| <= |lookahead|
    {
      if s < |reduceOfst| && 0 <= reduceOfst[s] + x < |action| && lookahead[reduceOfst[s] + x] == x
      then Some(action[reduceOfst[s] + x])
      else None
    }

    /** The token's entry, else its fallback's, else the wildcard's unless at end of input, else the default. */
    function Lookup(s: nat, token: nat): nat
      requires s < |shiftOfst| == |defaults| && |action| <= |lookahead|
    {
      var fb := FallbackOf(token);
      if Cell(s, token).Some? then Cell(s, token).value
      else if fb != 0 && Cell(s, fb).Some? then Cell(s, fb).value
      else if (token > 0 || fb > 0) && Cell(s, wildcard).Some? then Cell(s, wildcard).value
      else defaults[s]
    }
  }

  /** yy_find_shift_action: the loop runs at most twice, because a fallback has no fallback. */
  method FindShiftAction(t: Tables, lookAhead: nat, stateno: nat) returns (act: nat)
    requires t.WellFormed() && lookAhead < t.nToken
    ensures stateno > t.maxShift ==> act == stateno
    ensures stateno <= t.maxShift ==> act == t.Lookup(stateno, lookAhead)
  {
    if stateno > t.maxShift {
      return stateno;
    }
    var iLookAhead := lookAhead;
    while true
      invariant iLookAhead < t.nToken
      invariant iLookAhead == lookAhead ||
                (iLookAhead == t.FallbackOf(lookAhead) != 0 && t.Cell(stateno, lookAhead).None?)
      decreases t.FallbackOf(iLookAhead)
    {
      var i := t.shiftOfst[stateno];
      i := i + iLookAhead;
      if i >= |t.lookahead| || t.lookahead[i] != iLookAhead {
        if iLookAhead < |t.fallback| && t.fallback[iLookAhead] != 0 {
          var iFallback := t.fallback[iLookAhead];
          assert t.FallbackOf(iFallback) == 0;
          iLookAhead := iFallback;
          continue;
        }
        var j := i - iLookAhead + t.wildcard;
        if j < |t.lookahead| && t.lookahead[j] == t.wildcard && iLookAhead > 0 {
          return t.action[j];
        }
        return t.defaults[stateno];
      } else {
        return t.action[i];
      }
    }
  }

  /** yy_find_reduce_action: only ever asked for entries that exist. */
  method FindReduceAction(t: Tables, stateno: nat, lookAhead: nat) returns (act: nat)
    requires t.WellFormed() && t.GotoCell(stateno, lookAhead).Some?
    ensures t.GotoCell(stateno, lookAhead) == Some(act)
  {
    assert stateno < |t.reduceOfst|;
    var i := t.reduceOfst[stateno];
    i := i + lookAhead;
    assert 0 <= i < |t.action|;
    assert t.lookahead[i] == lookAhead;
    act := t.action[i];
  }

  // ----- Tables for an automaton

  /** How the tables write a state: reducing states are written as their pending reduction. */
  function StateCode(t: Tables, a: Automaton, q: nat): nat {
    if q < |a.cells| then q
    else if q < a.AcceptState() then t.minReduce + a.autoRule[q - |a.cells|]
    else t.acceptAction
  }

  /** How the tables write an action: a shift into a reducing state becomes a SHIFTREDUCE. */
  function ActCode(t: Tables, a: Automaton, act: Act): nat {
    match act
    case Error => t.errorAction
    case Reduce(r) => t.minReduce + r
    case Shift(q) =>
      if |a.cells| <= q < a.AcceptState() then t.minShiftReduce + a.autoRule[q - |a.cells|] else q
  }

  ghost predicate Implements(t: Tables, a: Automaton) {
    && t.WellFormed()
    && a.Shape()
    && t.nToken == a.g.nToken
    && t.noCode == a.g.nSymbol
    && t.maxShift + 1 == |a.cells|
    && t.fallback == a.fallback
    && t.wildcard == a.wildcard
    && RulesMatch(t, a)
    && (forall s | 0 <= s < |a.cells| :: CellsMatch(t, a, s) && GotosMatch(t, a, s))
  }

  ghost predicate RulesMatch(t: Tables, a: Automaton) {
    && |t.ruleLhs| == |t.ruleNRhs| == |a.g.rules|
    && forall r | 0 <= r < |a.g.rules| ::
         t.ruleLhs[r] == a.g.rules[r].lhs && t.ruleNRhs[r] == -|a.g.rules[r].rhs|
  }

  ghost predicate CellsMatch(t: Tables, a: Automaton, s: nat)
    requires t.WellFormed() && s <= t.maxShift && s < |a.cells| == |a.defaults|
  {
    && t.defaults[s] == ActCode(t, a, a.defaults[s])
    && forall x: nat | x < t.nToken ::
         t.Cell(s, x) == if x in a.cells[s] then Some(ActCode(t, a, a.cells[s][x])) else None
  }

  /** A goto into a state that would only reduce a skippable rule repeats the goto of that rule's left-hand side. */
  ghost predicate GotosMatch(t: Tables, a: Automaton, s: nat)
    requires t.WellFormed() && s < |a.gotos|
  {
    forall x | x in a.gotos[s] ::
      && t.GotoCell(s, x).Some?
      && t.GotoCell(s, x) == if Skips(a, a.gotos[s][x]) then t.GotoCell(s, SkipTo(a, a.gotos[s][x]))
                             else Some(StateCode(t, a, a.gotos[s][x]))
  }

  /** The compressed look-up refines the two-dimensional table of the automaton. */
  lemma LookupRefines(t: Tables, a: Automaton, s: nat, token: nat)
    requires Implements(t, a) && s < |a.cells| && token < a.g.nToken
    ensures t.Lookup(s, token) == ActCode(t, a, a.ActionFor(s, token))
  {
    assert CellsMatch(t, a, s);
    assert t.FallbackOf(token) == a.FallbackOf(token);
  }
}
