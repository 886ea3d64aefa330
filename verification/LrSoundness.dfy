/**
 Soundness of the ordinary LR automaton: the reductions of an accepting run, read
 backwards, are a rightmost derivation of the tokens from the start symbol.
 */
module LrSoundness {
  import opened Grammars
  import opened LrAutomata
  import opened Sequences

  /** Each token stands in the sentence as itself, as its fallback or as the wildcard. */
  ghost predicate ReadAs(a: Automaton, tokens: seq<nat>, sentence: seq<nat>) {
    && |tokens| == |sentence|
    && forall i | 0 <= i < |tokens| :: a.MayRead(tokens[i], sentence[i]) && sentence[i] < a.g.nToken
  }

  /** The stack, as a sentential form, derives the sentence by the reductions done so far. */
  ghost predicate Derives(a: Automaton, p: seq<Entry>, reductions: seq<nat>, sentence: seq<nat>)
    requires |p| > 0
  {
    Rightmost(a.g, Symbols(p), Reverse(reductions), sentence)
  }

  /** The start symbol derives the sentence, rightmost, by the reductions in reverse. */
  ghost predicate DerivedBy(a: Automaton, reductions: seq<nat>, sentence: seq<nat>) {
    Rightmost(a.g, [a.g.start], Reverse(reductions), sentence)
  }

  lemma ReduceDerives(a: Automaton, p: seq<Entry>, r: nat, reductions: seq<nat>, sentence: seq<nat>)
    requires a.Consistent() && ValidStack(a, p) && ReduceOffered(a, p, r)
    requires Derives(a, p, reductions, sentence)
    ensures CanPop(a, p, r) && Derives(a, AfterReduce(a, p, r), reductions + [r], sentence)
  {
    HandleSpells(a, p, r);
    RightmostReduce(a.g, Symbols(Kept(a, p, r)), r, Handle(a, p, r), Reverse(reductions), sentence);
    ReverseSnoc(reductions, r);
  }

  lemma ShiftDerives(a: Automaton, p: seq<Entry>, token: nat, reductions: seq<nat>, sentence: seq<nat>)
    requires a.Consistent() && ValidStack(a, p)
    requires Derives(a, p, reductions, sentence)
    requires Top(p).state < |a.cells| && a.ActionFor(Top(p).state, token).Shift?
    ensures var t := a.Reading(Top(p).state, token);
            && a.MayRead(token, t) && t < a.g.nToken
            && Derives(a, p + [Entry(a.ActionFor(Top(p).state, token).target, t)], reductions, sentence + [t])
  {
    var t := a.Reading(Top(p).state, token);
    var e := Entry(a.ActionFor(Top(p).state, token).target, t);
    ActionOffered(a, p, token);
    assert a.CellsOk(Top(p).state);
    assert Symbols(p + [e]) == Symbols(p) + [t];
    RightmostAppend(a.g, Symbols(p), Reverse(reductions), sentence, t);
  }

  /** What one token leaves derived; t is the terminal as which a shifted token was read. */
  ghost predicate TokenSound(a: Automaton, token: nat, res: TokenResult, acceptsNow: bool, t: nat,
                             reductions: seq<nat>, sentence: seq<nat>)
    requires |res.stack| > 0
  {
    match res.outcome
    case Shifted =>
      && a.MayRead(token, t) && t < a.g.nToken
      && Derives(a, res.stack, reductions + res.reductions, sentence + [t])
    case Accepted =>
      && (!acceptsNow ==> token == 0)
      && DerivedBy(a, reductions + res.reductions, sentence)
    case SyntaxError => Derives(a, res.stack, reductions + res.reductions, sentence)
    case Overflowed => true
  }

  lemma StuckTokenDerives(a: Automaton, depth: nat, p: seq<Entry>, token: nat, reductions: seq<nat>, sentence: seq<nat>)
    returns (t: nat)
    requires a.Consistent() && ValidStack(a, p) && |p| <= depth
    requires Derives(a, p, reductions, sentence)
    requires !CanReduce(a, depth, p, token)
    ensures TokenSound(a, token, ParseToken(a, depth, p, token), Top(p).state == a.AcceptState(), t,
                       reductions, sentence)
  {
    StackInRange(a, p);
    var s := Top(p).state;
    t := 0;
    assert reductions + [] == reductions;
    if s == a.AcceptState() {
      assert Symbols(p) == [a.g.start];
    } else {
      ActionOffered(a, p, token);
      if a.ActionFor(s, token).Shift? {
        t := a.Reading(s, token);
        ShiftDerives(a, p, token, reductions, sentence);
      }
    }
  }

  lemma {:induction false} TokenDerives(a: Automaton, depth: nat, p: seq<Entry>, token: nat,
                                        reductions: seq<nat>, sentence: seq<nat>)
    returns (t: nat)
    requires a.Consistent() && ValidStack(a, p) && |p| <= depth
    requires Derives(a, p, reductions, sentence)
    ensures TokenSound(a, token, ParseToken(a, depth, p, token), Top(p).state == a.AcceptState(), t,
                       reductions, sentence)
    decreases Potential(a, p) + depth * a.bound
  {
    if CanReduce(a, depth, p, token) {
      var r := a.ActionFor(Top(p).state, token).rule;
      ParseTokenReduces(a, depth, p, token);
      var p' := AfterReduce(a, p, r);
      PotentialBounded(a, p, depth);
      ReduceDerives(a, p, r, reductions, sentence);
      t := TokenDerives(a, depth, p', token, reductions + [r], sentence);
      var rest := ParseToken(a, depth, p', token);
      ConcatAssoc(reductions, [r], rest.reductions);
    } else {
      t := StuckTokenDerives(a, depth, p, token, reductions, sentence);
    }
  }

  /** The sentence reads the tokens before the first end-of-input token, which is at n. */
  ghost predicate SentenceOf(a: Automaton, tokens: seq<nat>, n: nat, sentence: seq<nat>) {
    && n < |tokens| && tokens[n] == 0
    && (forall i | 0 <= i < n :: tokens[i] != 0)
    && ReadAs(a, tokens[..n], sentence)
  }

  lemma ShiftedStack(a: Automaton, depth: nat, p: seq<Entry>, token: nat)
    requires a.Consistent() && ValidStack(a, p) && |p| <= depth
    requires ParseToken(a, depth, p, token).outcome.Shifted?
    ensures token != 0 && Top(ParseToken(a, depth, p, token).stack).state != a.AcceptState()
    decreases Potential(a, p) + depth * a.bound
  {
    if CanReduce(a, depth, p, token) {
      ParseTokenReduces(a, depth, p, token);
      PotentialBounded(a, p, depth);
      ShiftedStack(a, depth, AfterReduce(a, p, a.ActionFor(Top(p).state, token).rule), token);
    } else {
      StackInRange(a, p);
      ActionOffered(a, p, token);
      assert a.CellsOk(Top(p).state);
    }
  }

  lemma AcceptedAtEnd(a: Automaton, depth: nat, p: seq<Entry>, token: nat)
    requires a.Consistent() && ValidStack(a, p) && |p| <= depth
    requires ParseToken(a, depth, p, token).outcome.Accepted? && Top(p).state != a.AcceptState()
    ensures token == 0
    decreases Potential(a, p) + depth * a.bound
  {
    if CanReduce(a, depth, p, token) {
      ParseTokenReduces(a, depth, p, token);
      PotentialBounded(a, p, depth);
      var p' := AfterReduce(a, p, a.ActionFor(Top(p).state, token).rule);
      if Top(p').state != a.AcceptState() {
        AcceptedAtEnd(a, depth, p', token);
      }
    } else {
      StackInRange(a, p);
      ActionOffered(a, p, token);
    }
  }

  lemma PrependToken(a: Automaton, token: nat, t: nat, tokens: seq<nat>, n: nat, sentence: seq<nat>)
    requires token != 0 && a.MayRead(token, t) && t < a.g.nToken
    requires SentenceOf(a, tokens, n, sentence)
    ensures SentenceOf(a, [token] + tokens, n + 1, [t] + sentence)
  {
    assert ([token] + tokens)[..n + 1] == [token] + tokens[..n];
  }

  /** A whole input that ends in acceptance. */
  lemma {:induction false} TokensDerive(a: Automaton, depth: nat, p: seq<Entry>, tokens: seq<nat>,
                                        reductions: seq<nat>, sentence: seq<nat>)
    returns (more: seq<nat>, n: nat)
    requires a.Consistent() && ValidStack(a, p) && |p| <= depth
    requires Top(p).state != a.AcceptState()
    requires Derives(a, p, reductions, sentence)
    requires ParseTokens(a, depth, p, tokens).outcome.Accepted?
    ensures SentenceOf(a, tokens, n, more)
    ensures DerivedBy(a, reductions + ParseTokens(a, depth, p, tokens).reductions, sentence + more)
    decreases |tokens|
  {
    var first := ParseToken(a, depth, p, tokens[0]);
    var t := TokenDerives(a, depth, p, tokens[0], reductions, sentence);
    if first.outcome.Shifted? {
      ShiftedStack(a, depth, p, tokens[0]);
      var more', n' :=
        TokensDerive(a, depth, first.stack, tokens[1..], reductions + first.reductions, sentence + [t]);
      more, n := [t] + more', n' + 1;
      assert SentenceOf(a, tokens, n, more) by {
        PrependToken(a, tokens[0], t, tokens[1..], n', more');
        assert [tokens[0]] + tokens[1..] == tokens;
      }
      var after := ParseTokens(a, depth, first.stack, tokens[1..]).reductions;
      assert ParseTokens(a, depth, p, tokens).reductions == first.reductions + after;
      ConcatAssoc(reductions, first.reductions, after);
      ConcatAssoc(sentence, [t], more');
    } else {
      more, n := [], 0;
      assert sentence + [] == sentence;
    }
  }

  /**
   If the machine accepts, the tokens before the first end-of-input token, each read as
   itself, its fallback or the wildcard, form a sentence of the grammar, and the
   reductions done are its rightmost derivation in reverse.
   */
  lemma AcceptedInputDerives(a: Automaton, depth: nat, tokens: seq<nat>)
    requires a.Consistent() && depth > 0
    requires ParseTokens(a, depth, [Bottom], tokens).outcome.Accepted?
    ensures exists n: nat, sentence: seq<nat> ::
              && SentenceOf(a, tokens, n, sentence)
              && DerivedBy(a, ParseTokens(a, depth, [Bottom], tokens).reductions, sentence)
  {
    assert Symbols([Bottom]) == [] && Reverse<nat>([]) == [];
    var reductions := ParseTokens(a, depth, [Bottom], tokens).reductions;
    assert [] + reductions == reductions;
    var sentence, n := TokensDerive(a, depth, [Bottom], tokens, [], []);
    assert [] + sentence == sentence;
  }
}
