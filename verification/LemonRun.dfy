/**
 A whole run: a parser is created, fed tokens one at a time while it shifts them, and
 finalised, as sqlite3RunParser does.
 */
module LemonRun {
  import opened LemonParser
  import opened LemonSimulation
  import opened LemonTables
  import opened LemonTrees
  import opened LemonValues
  import opened LrAutomata
  import opened LrSoundness
  import opened Sequences
  import opened SqlExprs
  import opened Wrappers

  /** One token has been shifted: what is left is the run on the remaining tokens. */
  lemma FeedShifted(a: Automaton, depth: nat, whole: TokenResult, made: seq<nat>, p: seq<Entry>, tokens: seq<nat>)
    requires a.Consistent() && ValidStack(a, p) && |p| <= depth && tokens != []
    requires Resumes(whole, made, ParseTokens(a, depth, p, tokens))
    requires ParseToken(a, depth, p, tokens[0]).outcome.Shifted?
    ensures var first := ParseToken(a, depth, p, tokens[0]);
            Resumes(whole, made + first.made, ParseTokens(a, depth, first.stack, tokens[1..]))
  {
    var first := ParseToken(a, depth, p, tokens[0]);
    ConcatAssoc(made, first.made, ParseTokens(a, depth, first.stack, tokens[1..]).made);
  }

  /** What a parser is given: the tables for an automaton, and the input. */
  datatype Job = Job(t: Tables, a: Automaton, ty: Typing, depth: nat, heap: Heap, tokens: seq<nat>, leaves: seq<Op>)
  {
    ghost predicate Valid() {
      a.Consistent() && depth > 0 && |tokens| == |leaves|
    }

    ghost function Whole(): TokenResult
      requires Valid()
    {
      ParseTokens(a, depth, [Bottom], tokens)
    }

    function Run(): Runner {
      Actions(ty, t.ruleLhs)
    }

    /** The first end-of-input token is at n. */
    ghost predicate InputEnds(n: nat) {
      n < |tokens| && tokens[n] == 0 && forall i | 0 <= i < n :: tokens[i] != 0
    }

    /** The reductions derive, rightmost and in reverse, a sentence that the tokens before n are read as. */
    ghost predicate Parsed(n: nat, reductions: seq<nat>) {
      exists sentence: seq<nat> :: SentenceOf(a, tokens, n, sentence) && DerivedBy(a, reductions, sentence)
    }

    /** The tokens before n have a derivation tree of the rules made, whose actions, in order, lead to heap'. */
    ghost predicate Folded(n: nat, made: seq<nat>, heap': Heap) {
      exists root :: TreeOf(a, Run(), heap, tokens, leaves, n, made, root, heap')
    }

    /** The history and the stack after the first n tokens, all shifted. */
    ghost predicate Going(n: nat, made: seq<nat>, past: Past, p: seq<Entry>)
      requires |p| > 0
    {
      && History(a, Run(), heap, tokens, leaves, n, made, past)
      && Top(p).state != a.AcceptState()
      && forall i | 0 <= i < n :: tokens[i] != 0
    }

    /** The run after n tokens, the last of which had this outcome. */
    ghost predicate Underway(n: nat, outcome: Outcome, made: seq<nat>, past: Past, p: seq<Entry>, heap': Heap)
      requires Valid() && ValidStack(a, p) && |p| <= depth && n <= |tokens|
    {
      && (outcome == Shifted ==>
            && Resumes(Whole(), made, ParseTokens(a, depth, p, tokens[n..]))
            && Going(n, made, past, p))
      && (outcome != Shifted ==> Ends(Whole(), made, outcome, p))
      && (outcome == Accepted ==> n > 0 && InputEnds(n - 1) && Folded(n - 1, made, heap'))
    }

    /** What a whole run that leaves heap' comes to. */
    ghost predicate Done(outcome: Outcome, made: seq<nat>, heap': Heap)
      requires Valid()
    {
      && outcome == Whole().outcome && made == Whole().made
      && Thinned(a, Whole().reductions, made)
      && (outcome == Accepted ==> exists n: nat :: Parsed(n, Whole().reductions) && Folded(n, made, heap'))
    }

    lemma GoesOn(n: nat, made: seq<nat>, past: Past, p: seq<Entry>, more: seq<nat>)
      requires Valid() && ValidStack(a, p) && |p| <= depth && n < |tokens|
      requires Going(n, made, past, p) && ParseToken(a, depth, p, tokens[n]).outcome.Shifted?
      ensures Going(n + 1, made + more, AndRead(Extended(a, past, more), tokens[n], leaves[n]),
                    ParseToken(a, depth, p, tokens[n]).stack)
    {
      ShiftedStack(a, depth, p, tokens[n]);
      HistoryExtended(a, Run(), heap, tokens, leaves, n, made, past, more);
      HistoryRead(a, Run(), heap, tokens, leaves, n, made + more, Extended(a, past, more));
    }

    lemma EndsAccepted(n: nat, made: seq<nat>, past: Past, p: seq<Entry>, more: seq<nat>, o: seq<StackEntry>,
                       heap': Heap)
      requires Valid() && ValidStack(a, p) && |p| <= depth && n < |tokens|
      requires Going(n, made, past, p) && ParseToken(a, depth, p, tokens[n]).outcome.Accepted?
      requires Told(Run(), AndAccept(Extended(a, past, more)), o, heap')
      ensures InputEnds(n) && Folded(n, made + more, heap')
    {
      AcceptedAtEnd(a, depth, p, tokens[n]);
      HistoryExtended(a, Run(), heap, tokens, leaves, n, made, past, more);
      var root := AcceptedTree(a, Run(), heap, tokens, leaves, n, made + more, Extended(a, past, more), o, heap');
    }

    /** One more token has been parsed. */
    lemma Feeds(n: nat, made: seq<nat>, past: Past, p: seq<Entry>, was: Heap, outcome: Outcome, more: seq<nat>,
                past': Past, p': seq<Entry>, o: seq<StackEntry>, heap': Heap)
      requires Valid() && ValidStack(a, p) && |p| <= depth && n < |tokens|
      requires Underway(n, Shifted, made, past, p, was)
      requires Ends(ParseToken(a, depth, p, tokens[n]), more, outcome, p')
      requires Grown(Some(outcome), Extended(a, past, more), past', tokens[n], leaves[n])
      requires Told(Run(), past', o, heap')
      ensures Underway(n + 1, outcome, made + more, past', p', heap')
    {
      assert tokens[n..][1..] == tokens[n + 1..];
      if outcome == Shifted {
        FeedShifted(a, depth, Whole(), made, p, tokens[n..]);
        GoesOn(n, made, past, p, more);
      } else if outcome == Accepted {
        EndsAccepted(n, made, past, p, more, o, heap');
      }
    }

    lemma Begins()
      requires Valid()
      ensures Underway(0, Shifted, [], Began(Run(), heap), [Bottom], heap)
    {
      assert tokens[0..] == tokens;
      assert [] + Whole().made == Whole().made;
    }

    lemma EndsDone(n: nat, outcome: Outcome, made: seq<nat>, past: Past, p: seq<Entry>, heap': Heap)
      requires Valid() && ValidStack(a, p) && |p| <= depth && n <= |tokens|
      requires Underway(n, outcome, made, past, p, heap') && (outcome == Shifted ==> n == |tokens|)
      ensures Done(outcome, made, heap')
    {
      TokensThin(a, depth, [Bottom], tokens);
      assert made + [] == made;
      if outcome == Accepted {
        AcceptedInputDerives(a, depth, tokens);
        assert Parsed(n - 1, Whole().reductions);
      }
    }
  }

  /**
   For all tables that implement a consistent automaton, all inputs and all patterns of
   failing allocations: the driver ends as the automaton does and makes, one for one, the
   automaton's reductions but for the unit reductions the tables skip, which are by rules
   without code. If it accepts, the automaton's reductions are the rightmost derivation of
   the input in reverse, and the heap is what the actions of the driver's derivation tree
   leave, folded over the tokens' own values. In the end every node that was allocated has
   been released once.
   */
  method RunParser(t: Tables, ghost a: Automaton, ty: Typing, depth: nat, heap: Heap, tokens: seq<nat>, leaves: seq<Op>)
    returns (outcome: Outcome, reductions: seq<nat>, heap': Heap)
    requires Setup(t, a, ty) && depth > 0
    requires forall id: nat :: heap.Balance(id) == 0
    requires |leaves| == |tokens| && forall i | 0 <= i < |tokens| :: tokens[i] < t.nToken
    ensures Job(t, a, ty, depth, heap, tokens, leaves).Done(outcome, reductions, heap')
    ensures forall id: nat :: TimesFreed(heap'.freed, id) == if heap'.Allocated(id) then 1 else 0
  {
    ghost var job := Job(t, a, ty, depth, heap, tokens, leaves);
    ActionsPerform(ty, t.ruleLhs);
    var parser := new Parser(t, a, ty, job.Run(), depth, heap);
    job.Begins();
    outcome, reductions := Shifted, [];
    var i := 0;
    while i < |tokens| && outcome == Shifted
      invariant 0 <= i <= |tokens|
      invariant fresh(parser) && fresh(parser.yystack) && parser.Valid()
      invariant job.Underway(i, outcome, reductions, parser.past, parser.plain, parser.heap)
      invariant outcome == Accepted ==> parser.yytos == 0
    {
      ghost var p, past, was := parser.plain, parser.past, parser.heap;
      var more;
      outcome, more := parser.Parse(tokens[i], leaves[i]);
      job.Feeds(i, reductions, past, p, was, outcome, more, parser.past, parser.plain, parser.Contents(), parser.heap);
      reductions := reductions + more;
      i := i + 1;
    }
    job.EndsDone(i, outcome, reductions, parser.past, parser.plain, parser.heap);
    parser.Finalize();
    heap' := parser.heap;
  }
}
