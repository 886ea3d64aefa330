/**
 Context-free grammars as the parser generator numbers them (terminals first, then
 non-terminals) and rightmost derivations over them.
 */
module Grammars {

  /** A place on a right-hand side: one symbol, or any of several terminals (written A|B). */
  datatype Part = Sym(x: nat) | OneOf(terminals: set<nat>)
  {
    predicate Matches(y: nat) {
      match this
      case Sym(x) => y == x
      case OneOf(ts) => y in ts
    }
  }

  // hasCode tells whether the rule has a reduce action of its own.
  datatype Rule = Rule(lhs: nat, rhs: seq<Part>, hasCode: bool)

  // Symbol codes below nToken are terminals; code 0 is the end-of-input token.
  datatype Grammar = Grammar(nToken: nat, nSymbol: nat, start: nat, rules: seq<Rule>)
  {
    predicate IsTerminal(x: nat) {
      x < nToken
    }

    ghost predicate WellFormed() {
      && 0 < nToken <= start < nSymbol
      && forall r | 0 <= r < |rules| :: RuleOk(rules[r])
    }

    ghost predicate RuleOk(rule: Rule) {
      && nToken <= rule.lhs < nSymbol
      && forall i | 0 <= i < |rule.rhs| :: PartOk(rule.rhs[i])
    }

    ghost predicate PartOk(part: Part) {
      match part
      case Sym(x) => x < nSymbol
      case OneOf(ts) => forall t | t in ts :: IsTerminal(t)
    }
  }

  /** The symbols w spell the right-hand side place by place. */
  predicate Spells(rhs: seq<Part>, w: seq<nat>) {
    && |w| == |rhs|
    && forall i | 0 <= i < |rhs| :: rhs[i].Matches(w[i])
  }

  ghost predicate AllTerminals(g: Grammar, s: seq<nat>) {
    forall x | x in s :: g.IsTerminal(x)
  }

  /** alpha rewrites to beta by replacing the non-terminal at i, everything to its right being terminal. */
  ghost predicate RewritesAt(g: Grammar, r: nat, i: nat, alpha: seq<nat>, beta: seq<nat>) {
    && r < |g.rules|
    && i < |alpha|
    && alpha[i] == g.rules[r].lhs
    && AllTerminals(g, alpha[i + 1..])
    && exists w: seq<nat> :: Spells(g.rules[r].rhs, w) && beta == alpha[..i] + w + alpha[i + 1..]
  }

  ghost predicate RightStep(g: Grammar, r: nat, alpha: seq<nat>, beta: seq<nat>) {
    exists i :: RewritesAt(g, r, i, alpha, beta)
  }

  /** Applying the rules rs in order, always at the rightmost non-terminal, leads from one sentential form to another. */
  ghost predicate Rightmost(g: Grammar, from: seq<nat>, rs: seq<nat>, to: seq<nat>)
    decreases |rs|
  {
    if rs == [] then from == to
    else exists mid :: RightStep(g, rs[0], from, mid) && Rightmost(g, mid, rs[1..], to)
  }

  function Reverse<T>(s: seq<T>): (r: seq<T>)
    ensures |r| == |s|
    ensures forall i | 0 <= i < |s| :: r[i] == s[|s| - 1 - i]
  {
    if s == [] then [] else Reverse(s[1..]) + [s[0]]
  }

  lemma ReverseSnoc<T>(s: seq<T>, x: T)
    ensures Reverse(s + [x]) == [x] + Reverse(s)
  {
  }

  lemma RewriteAppend(g: Grammar, r: nat, alpha: seq<nat>, beta: seq<nat>, t: nat)
    requires RightStep(g, r, alpha, beta) && g.IsTerminal(t)
    ensures RightStep(g, r, alpha + [t], beta + [t])
  {
    var i: nat :| RewritesAt(g, r, i, alpha, beta);
    var w: seq<nat> :| Spells(g.rules[r].rhs, w) && beta == alpha[..i] + w + alpha[i + 1..];
    var longer := alpha + [t];
    assert longer[i + 1..] == alpha[i + 1..] + [t];
    assert longer[..i] == alpha[..i];
    assert beta + [t] == longer[..i] + w + longer[i + 1..];
    assert RewritesAt(g, r, i, longer, beta + [t]);
  }

  /** A derivation survives appending one more terminal on the right of every form. */
  lemma {:induction false} RightmostAppend(g: Grammar, from: seq<nat>, rs: seq<nat>, to: seq<nat>, t: nat)
    requires Rightmost(g, from, rs, to)
    requires g.IsTerminal(t)
    ensures Rightmost(g, from + [t], rs, to + [t])
    decreases |rs|
  {
    if rs == [] {
    } else {
      var mid :| RightStep(g, rs[0], from, mid) && Rightmost(g, mid, rs[1..], to);
      RewriteAppend(g, rs[0], from, mid, t);
      RightmostAppend(g, mid, rs[1..], to, t);
    }
  }

  /** Reducing the handle at the right end of a form extends its derivation at the front. */
  lemma RightmostReduce(g: Grammar, prefix: seq<nat>, r: nat, handle: seq<nat>, rs: seq<nat>, to: seq<nat>)
    requires r < |g.rules| && Spells(g.rules[r].rhs, handle)
    requires Rightmost(g, prefix + handle, rs, to)
    ensures Rightmost(g, prefix + [g.rules[r].lhs], [r] + rs, to)
  {
    var from := prefix + [g.rules[r].lhs];
    assert from[..|prefix|] == prefix && from[|prefix| + 1..] == [];
    assert prefix + handle == prefix + handle + [];
    assert RewritesAt(g, r, |prefix|, from, prefix + handle);
    assert ([r] + rs)[1..] == rs;
  }
}
