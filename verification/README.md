# A model of the SQL parser driver, its keyword table, and the CA tools

This project models the parts of the repository with the most state and index arithmetic,
and proves what they are for.

* **The LALR(1) driver of the SQL parser** (`sqlcipher/parse.c`). `LrAutomata` is a plain LR
  automaton over a grammar, with a checkable condition of consistency; `LrSoundness` proves
  that the reductions of a run that accepts are a rightmost derivation of the input in
  reverse. `LemonTables` is the compressed form the generator emits, and `Implements` says
  which tables stand for which automaton: with overlapping rows, token fallback, a wildcard,
  shifts fused with their reduction, and unit rules without code skipped. `LemonSimulation`
  relates the two stacks, `LemonValues` types the semantic values, and the class
  `LemonParser.Parser` is the driver itself. `LemonTrees` has the derivation trees behind the
  entries of the stack and folds the actions over them. `LemonRun` puts it together for a
  whole input: same outcome as the plain automaton and, one for one, its reductions except
  those that are done on a stack whose top goto the generator redirects; a derivation if it
  accepts, and the heap that the fold over the derivation tree leaves; and every allocated
  node released exactly once whatever fails. The tables are a parameter; `LemonExample`
  writes out a grammar with its automaton and tables that meet all the conditions.
* **The reduce actions that build and rewrite structure.** `SqlExprs` and `SqlActions` model
  expression nodes, their allocation and release, and the actions; `SqlOwnership` proves
  that each action conserves what it is given, under every pattern of failing allocations;
  `SqlMeaning` proves that the rewriting of IN, NOT IN, IS NULL, BETWEEN, CASE and LIMIT keeps
  the three-valued meaning of every nested expression. `SqlPhrases` joins the two halves: it
  reads off a derivation tree the source expression it is a derivation of, and the value
  the driver's stack holds for it is the tree built for that source. `SqlAnswers` says of each
  action, token code by token code, what the expression it builds evaluates to in integers
  and NULL, and which tree it is. `CompoundSelect` is the
  chain of compound SELECTs, a linked structure changed in place, and `SelectOwnership` who
  owns its terms when allocations fail.
* **The keyword recogniser** (`sqlcipher/keywordhash.h`). `KeywordSearch` proves that the
  hashed chain search agrees with a linear search for every sound set of tables;
  `KeywordTables` and `SqliteKeywords` hold the tables of the repository, `KeywordFiling`
  checks them keyword by keyword, `KeywordTokens` compares them with the list of keywords and
  tokens they are generated from, and `Keywords` has the entry points.
* **The certificate authority tools** (`openssl/apps/ca.c`, `openssl/apps/apps.c`): matching a
  request against a policy (`Policy`), committing the database by renames that are undone on
  failure (`IndexRotation`), cutting a subject name into a buffer (`NameParser`), writing and
  reading the revocation field (`Revocation`), the sweep for expired certificates
  (`ExpirySweep`), and the encoder of protocol lists (`NextProtos`).

Five properties turn out to hold only under a condition, which is proved exact:

* The keyword recogniser masks bit 5 of every byte, so it takes a DEL (0x7F) for an
  underscore. It agrees with the plain search exactly on the inputs that are not one of the
  three `CURRENT_` timestamp keywords with a DEL for the underscore
  (`Keywords.MisreadExactly`, `Keywords.DelIsMisread`).
* While ALTER TABLE RENAME parses, `x IN ()` is left as `x`, wherever it stands: the tree
  built means the source with all of them stripped (`SqlMeaning.RenamingMeansStripped`,
  `SqlMeaning.RenamingBreaksEmptyIn`).
* A rotation that is undone restores the live and the new files exactly if no live file was
  missing while an old copy of it was there; otherwise the stale copy becomes live
  (`IndexRotation.UndoneExactly`, `IndexRotation.RestoresAlways`,
  `IndexRotation.StaleComesBack`).
* The expiry test is chronological for UTC times. The sweep's own time is always one; a row
  with a generalized time, which `-enddate` can write for any year, is misread: its century
  is taken for the year of the century. For every such row and every time of the sweep,
  `ExpirySweep.GeneralizedExactly` says when the test is right all the same; for a row of
  this century that is not a matter of the row at all (`ExpirySweep.GeneralizedCentury`,
  `ExpirySweep.EndDateMisread`).
* A name that is written with an empty last value is refused; every other list of elements
  is read back as it was written (`NameParser.RoundTrip`).

Where the text of the repository and the code differ, the model follows the code: the
comment over the keyword text says 614 bytes and the array has 613.

`dafny verify dfyconfig.toml` checks everything.

## Model

| member | source | states |
|---|---|---|
| LrAutomata.ItemSpellsStack | sqlcipher/parse.c:2206-2217 | On every valid stack, the symbols on top spell the part before the dot of any item of the top state. |
| LrAutomata.HandleSpells | sqlcipher/parse.c:5021-5038 | A reduction that is offered pops symbols that match the rule's right-hand side, wildcard parts included. |
| LrAutomata.ReduceValid | sqlcipher/parse.c:5021-5038 | A reduction leaves a stack whose consecutive states are again linked by shift or goto entries. |
| LrAutomata.ReduceLowersPotential | sqlcipher/parse.c:5171-5289 | Each reduction lowers a bounded measure of the stack, so the reduce loop ends on every token. |
| LrAutomata.ParseTokenReduces | sqlcipher/parse.c:5171-5182 | The run on a token whose action is a reduction is that reduction followed by the run on the stack it leaves. |
| LrAutomata.TokensThin | sqlcipher/tool/lemon.c:4805-4838 | The reductions made are all the reductions of a run without some by rules that have no code and one non-terminal on the right. |
| LrSoundness.ReduceDerives | sqlcipher/parse.c:5021-5038 | If the reductions so far derive the sentence from the stack, they still do with one more reduction. |
| LrSoundness.ShiftDerives | sqlcipher/parse.c:5179-5182 | Shifting a token extends the derived sentence by that token read as itself, its fallback or the wildcard. |
| LrSoundness.TokenDerives | sqlcipher/parse.c:5171-5289 | The run on one token, with any number of reductions, keeps the derivation; if it accepts, the start symbol derives the sentence. |
| LrSoundness.TokensDerive | sqlcipher/src/tokenize.c:555-640 | The same for the run on any sequence of tokens from any valid stack. |
| LrSoundness.AcceptedInputDerives | sqlcipher/parse.c:5171-5289 | For every consistent automaton and every input it accepts, the reductions are, reversed, a rightmost derivation from the start symbol of the consumed tokens, each read as itself, its fallback or the wildcard. |
| LemonTables.FindShiftAction | sqlcipher/parse.c:2127-2190 | The loop terminates within the tables and returns the entry for the token, else for its fallback, else for the wildcard but never at end of input, else the default; a code above the last shift state is returned unchanged. |
| LemonTables.FindReduceAction | sqlcipher/parse.c:2195-2217 | Asked only for entries that exist, it returns that entry; its index assertions never fail. |
| LemonTables.LookupRefines | sqlcipher/parse.c:338-350 | For every state and token, the look-up in the compressed tables is the code of the automaton's two-dimensional action. |
| LemonSimulation.TopStateAgrees | sqlcipher/parse.c:5171-5173 | The top code of the driver's stack is that of the automaton's top state, or both stacks stand before skipped unit reductions. |
| LemonSimulation.UnitStep | sqlcipher/parse.c:4959-5017 | A unit reduction the tables skip changes the automaton's stack only; the driver's stack stands for the result. |
| LemonSimulation.UnitRun | sqlcipher/parse.c:4959-5017 | The run on a stack with a skipped unit reduction on top makes the same reductions as the run after it, and ends the same. |
| LemonSimulation.Settle | sqlcipher/parse.c:4959-5017 | All skipped unit reductions on top can be caught up with: outcome, stack and the reductions made are those of the run that follows. |
| LemonSimulation.ShiftStep | sqlcipher/parse.c:2299-2303 | The shift, with the offset that turns a fused code into a pending reduction, keeps the two stacks related; the original major stays on the stack. |
| LemonSimulation.GotoExists | sqlcipher/parse.c:5024-5032 | The compressed goto exists for every state and nonterminal the automaton has one for, also where it was redirected past skipped unit rules. |
| LemonSimulation.ReduceStep | sqlcipher/parse.c:5021-5038 | Popping the handle and pushing the goto code keeps the two stacks related. |
| LemonValues.AgreementKeepsKind | sqlcipher/parse.c:1884-2012 | A major on the stack selects the same union member as the symbol it stands for, through fallback, wildcard and skipped unit rules. |
| LemonValues.HandleFits | sqlcipher/parse.c:1884-2012 | Each popped value is of the kind the rule's action reads at that place. |
| LemonValues.ArgsAccepted | sqlcipher/parse.c:3123-3130 | The popped values satisfy what the rule's action expects of its arguments. |
| LemonParser.GotoNeverFails | sqlcipher/parse.c:5026-5031 | Neither assertion after the goto look-up can fail: no fused shift on a nonterminal, and no reduction followed by an error. |
| LemonParser.ActionAgrees | sqlcipher/parse.c:5171-5183 | The code found for a settled stack is that of the automaton's action, and falls into exactly the ranges the driver tests. |
| LemonParser.NextAction | sqlcipher/parse.c:5171-5175 | From related stacks, the code found drives the automaton after it has caught up with skipped unit rules. |
| LemonParser.ShiftKeeps | sqlcipher/parse.c:2299-2306 | A shift keeps the related stacks, the kinds of all values and the balance of allocated and owned nodes. |
| LemonParser.ReduceKeeps | sqlcipher/parse.c:5021-5038 | So does a reduction with its action, whatever allocation fails. |
| LemonParser.PopKeeps | sqlcipher/parse.c:2029-2042 | So does popping an entry with its destructor. |
| LemonParser.Parser.constructor | sqlcipher/parse.c:1822-1850 | A new parser is valid and stands for the automaton's initial stack. |
| LemonParser.Parser.Destructor | sqlcipher/parse.c:1884-2025 | The union member the major selects is the one that holds the value, and it is deleted. |
| LemonParser.Parser.PopParserStack | sqlcipher/parse.c:2029-2042 | One entry is gone, its value released, everything below unchanged. |
| LemonParser.Parser.StackOverflow | sqlcipher/parse.c:2225-2244 | The stack is that of a new parser, no node is owned that is not released, and AND is folded no more. |
| LemonParser.Parser.Finalize | sqlcipher/parse.c:2047-2053 | Every node ever allocated has been released exactly once. |
| LemonParser.Parser.Shift | sqlcipher/parse.c:2262-2307 | It overflows exactly when the stack is full, and else pushes the automaton's entry with the token's own major and value; the heap and everything below stay. |
| LemonParser.Parser.Reduce | sqlcipher/parse.c:3069-5039 | It overflows exactly on an empty rule with a full stack, and else does the automaton's reduction: the handle gives way to one entry with the major of the left-hand side, whose value and the new heap are those the rule's action makes of the handle's values; the top is the code returned. |
| LemonParser.Parser.Accept | sqlcipher/parse.c:5183-5187 | Accepting drops the only entry and leaves the stack of a new parser and the heap as it was, its assertion holding. |
| LemonParser.Parser.CarryOut | sqlcipher/parse.c:5174-5287 | Each kind of code does what the automaton's action does; the loop leaves through its condition only after an overflow, and AND is folded no more after that or a syntax error. |
| LemonParser.Parser.Parse | sqlcipher/parse.c:5133-5289 | For every token: outcome and stack are those of the automaton's run; the driver's reductions are exactly the automaton's in order, less those of a unit rule without code on a state that does nothing else; and the history behind the stack's values grows by those reductions and the token. |
| LemonTrees.HistoryOfTrees | sqlcipher/parse.c:3069-5039 | For any history of shifts and reductions, the trees behind the stack read its tokens and reduce its rules in order, and the actions folded over them give the stack's values and the heap. |
| LemonTrees.EntryFolded | sqlcipher/parse.c:3123-3130 | Each entry of the stack holds what its own tree folds to, from the heap that the trees below it leave. |
| LemonTrees.AcceptedTree | sqlcipher/parse.c:5183-5187 | An input that is accepted has one tree, with its tokens and the rules reduced, whose fold leads to the final heap. |
| LrSoundness.AcceptedAtEnd | sqlcipher/parse.c:5183-5187 | A token that is accepted is the end of input. |
| LemonRun.RunParser | sqlcipher/src/tokenize.c:555-640 | For all tables that implement a consistent automaton, all inputs and all patterns of failing allocations: same outcome as the automaton, and exactly its reductions less the unit reductions the tables skip; if it accepts, the automaton's reductions are a rightmost derivation of the input in reverse, and the heap is what the actions leave, folded over a derivation tree of the tokens' own values with the reductions made; and every allocated node is released exactly once. |
| LemonExample.ExampleConsistent | sqlcipher/parse.c:4959-5017 | A grammar with an empty rule, a left-recursive list and a skippable unit rule has a consistent automaton. |
| LemonExample.ExampleImplements | sqlcipher/parse.c:338-350 | Overlapping compressed tables with a fallback keyword and a fused shift implement that automaton. |
| LemonExample.ExampleSetup | sqlcipher/parse.c:2127-2190 | The conditions under which the driver is proved can be met. |
| LemonExample.ExampleAccepts | sqlcipher/parse.c:2138-2190 | A run that accepts exists: a keyword is shifted as its fallback, and four reductions lead to the start symbol. |
| LemonExample.ExampleSkipsOne | sqlcipher/parse.c:4959-5017 | Of two unit rules without code in one run, the one the tables skip is not among the reductions made and the other is. |
| SqlExprs.PExprConserves | sqlcipher/src/expr.c:846-869 | For every node, what the operands own is owned by the new node or has been released, also when the allocation fails or AND is folded. |
| SqlExprs.ListAppendConserves | sqlcipher/src/expr.c:1573-1608 | The same for appending to a list, which on failure releases both. |
| SqlExprs.BinaryToUnaryConserves | sqlcipher/parse.c:155-162 | The same for turning x IS NULL into the unary form. |
| SqlOwnership.MakeInConserves | sqlcipher/parse.c:4315-4368 | The same for the four forms of IN and NOT IN. |
| SqlOwnership.MakeBetweenConserves | sqlcipher/parse.c:4299-4313 | The same for BETWEEN. |
| SqlOwnership.MakeCaseConserves | sqlcipher/parse.c:4408-4421 | The same for CASE. |
| SqlOwnership.MakeVectorConserves | sqlcipher/parse.c:4194-4206 | The same for a row value. |
| SqlOwnership.PerformConserves | sqlcipher/parse.c:4194-4437 | Every modelled action, every pattern of failing allocations, every node: what the arguments own is owned by the result or has been released. |
| SqlOwnership.PerformKind | sqlcipher/parse.c:1884-2012 | The value an action returns is of the kind its left-hand side is declared to have. |
| SqlMeaning.MakeIsMeans | sqlcipher/parse.c:4263-4278 | IS and IS NOT keep their meaning when they become unary tests for NULL. |
| SqlMeaning.MakeBetweenMeans | sqlcipher/parse.c:4299-4313 | BETWEEN and NOT BETWEEN mean the two comparisons, in three-valued logic. |
| SqlMeaning.MakeInMeans | sqlcipher/parse.c:4315-4368 | Empty lists to constants, one element to = or <>, longer NOT IN to NOT of IN: all keep the three-valued meaning. |
| SqlMeaning.RunFlat | sqlcipher/parse.c:4408-4437 | Arms laid flat with an odd trailing ELSE choose the arm the source chooses. |
| SqlMeaning.MakeCaseMeans | sqlcipher/parse.c:4408-4421 | The CASE node has the value of the first arm taken, else of ELSE, else NULL. |
| SqlMeaning.BuildPreservesMeaning | sqlcipher/parse.c:4194-4437 | For every source expression, however nested, and every environment, the tree built has the value of the source. |
| SqlMeaning.BuildStrips | sqlcipher/parse.c:4317-4328 | While renaming, every source is built into the same tree by the same steps as the source with each x IN () and x NOT IN () replaced by x. |
| SqlMeaning.RenamingMeansStripped | sqlcipher/parse.c:4317-4328 | So the tree built has the value of the stripped source, in every environment and however the empty lists are nested. |
| SqlMeaning.EmptyInWhileRenaming | sqlcipher/parse.c:4325-4328 | An empty IN at the root keeps its meaning exactly where its stripped operand already has the constant's value. |
| SqlMeaning.RenamingBreaksEmptyIn | sqlcipher/parse.c:4325-4328 | One expression whose value the rewriting changes while renaming. |
| SqlMeaning.BuildLimitMeans | sqlcipher/parse.c:3947-3956 | LIMIT a, b and LIMIT b OFFSET a give the same node: the count on the left, the number skipped on the right. |
| SqlAnswers.Comparisons | sqlcipher/parse.c:4206-4217 | For operands that are integers, the codes of <, >, >= and <= give 1 or 0 as the integers compare. |
| SqlAnswers.Equalities | sqlcipher/parse.c:4206-4217 | The same for = and <>. |
| SqlAnswers.Arithmetic | sqlcipher/parse.c:4206-4217 | The codes of +, - and * give sum, difference and product. |
| SqlAnswers.WithNull | sqlcipher/parse.c:4206-4217 | A NULL operand makes any of these NULL. |
| SqlAnswers.Conjunction | sqlcipher/parse.c:4206-4217 | The truth table of AND over 0, NULL and the rest. |
| SqlAnswers.Disjunction | sqlcipher/parse.c:4206-4217 | The truth table of OR. |
| SqlAnswers.Prefixes | sqlcipher/parse.c:4279-4291 | NOT, unary minus and unary plus, on integers and NULL. |
| SqlAnswers.NullTests | sqlcipher/parse.c:4253-4262 | ISNULL, NOTNULL and NOT NULL are 1 or 0 as the operand is NULL or not. |
| SqlAnswers.Identity | sqlcipher/parse.c:4263-4278 | IS and IS NOT are 1 or 0 as the operands are the same, NULL included. |
| SqlAnswers.Flags | sqlcipher/parse.c:3447-3452 | IN and BETWEEN alone leave a false flag, with NOT before them a true one. |
| SqlAnswers.Membership | sqlcipher/parse.c:4315-4368 | IN is 1 if the value is in the list, else NULL if a NULL leaves it open, else 0; NOT IN is the opposite; for lists of every length. |
| SqlAnswers.Betweenness | sqlcipher/parse.c:4299-4313 | BETWEEN is 0 if the value is outside a bound, else NULL if one of the three is, else 1; NOT BETWEEN is the opposite. |
| SqlAnswers.Choice | sqlcipher/parse.c:4408-4421 | CASE has the value of the first result whose condition is chosen, else of ELSE, else NULL. |
| SqlAnswers.Lists | sqlcipher/parse.c:4443-4452 | Expression lists hold their elements in the order written. |
| SqlAnswers.Arms | sqlcipher/parse.c:4422-4437 | Arms are added as condition and result, in the order written. |
| SqlAnswers.RowValue | sqlcipher/parse.c:4194-4206 | A row value holds all elements written, the last one too. |
| SqlAnswers.PassedOn | sqlcipher/parse.c:4058-4105 | Literals and columns have their own value; parentheses and ELSE pass the expression on. |
| SqlAnswers.AndTree | sqlcipher/src/expr.c:846-869 | AND over a constant 0 is that constant and both sides are released, exactly if nothing forbids folding; else it is a node over both. |
| SqlAnswers.IsTree | sqlcipher/parse.c:155-162 | IS and IS NOT become unary exactly when the right side is the literal NULL and nothing is renamed. |
| SqlAnswers.InTree | sqlcipher/parse.c:4315-4368 | Which of the forms IN is built as: constant, comparison, IN node, NOT over an IN node, or the operand alone. |
| SqlAnswers.BetweenTree | sqlcipher/parse.c:4299-4313 | BETWEEN is a node over the operand with the bounds as its list, under NOT if negated. |
| SqlAnswers.BlockMoves | sqlcipher/src/expr.c:1573-1608 | Appending to a list moves its block exactly when its length is 0 or a power of two. |
| SqlPhrases.SayingBuilds | sqlcipher/parse.c:4194-4437 | An action run on what its parts build builds what the rule says, for each action and in the order of the parts. |
| SqlPhrases.TreeBuilds | sqlcipher/parse.c:4194-4437 | Folding the actions over a derivation of a source expression, option, list or arms gives the tree and the heap of building that source. |
| SqlPhrases.NotInSays | sqlcipher/parse.c:4315-4368 | A derivation of x NOT IN (list) says the negated source; the flag is that of the in_op rule. |
| SqlPhrases.EntryMeans | sqlcipher/parse.c:3123-3130 | At every moment of a parse from which nothing was dropped, an entry whose tree says a source holds the tree built for it, and where no allocation fails this evaluates to the source's meaning in every environment. |
| CompoundSelect.TimesOf | sqlcipher/parse.c:3606-3616 | How often each row is in the result of UNION ALL, UNION, EXCEPT and INTERSECT. |
| CompoundSelect.MeaningIsLeftToRight | sqlcipher/parse.c:3580-3603 | The left-associative meaning of a compound is its evaluation from left to right over bags. |
| CompoundSelect.DoubleLinkSelect | sqlcipher/parse.c:97-112 | A chain of two or more is linked both ways and marked compound; the limit error is raised exactly when the limit is positive, the chain longer and the head no multi-row VALUES. |
| CompoundSelect.MoreValues | sqlcipher/parse.c:3643-3656 | One more row is one more UNION ALL term; only the head keeps the multi-row mark. |
| CompoundSelect.Join | sqlcipher/parse.c:3580-3603 | The new chain has the rows of the operator applied to both operands, because a right operand of several terms is wrapped as a subquery. |
| CompoundSelect.BuildSelect | sqlcipher/parse.c:3541-3603 | For every compound of single selects and VALUES: the chain evaluates to the meaning of the source, is doubly linked, has only a multi-row head, wraps only finished subqueries, and is refused exactly when too long. |
| CompoundSelect.JoinUnwrapped | sqlcipher/parse.c:3593-3599 | The action without its wrapping cuts off all rows of a VALUES clause but the last; it gives the right rows exactly under a condition on operator and rows. |
| CompoundSelect.LossExactly | sqlcipher/parse.c:3585-3592 | That condition: for UNION ALL nothing may be lost, for UNION each lost row is in the left operand or the last row, for EXCEPT and INTERSECT it is not in the left operand or is the last row. |
| CompoundSelect.UnwrappedWouldDiffer | sqlcipher/parse.c:3585-3592 | Without the wrapping, EXCEPT over a two-row VALUES gives other rows. |
| SelectOwnership.SelectNewExactly | sqlcipher/src/select.c:140-180 | A term is given out exactly if no allocation has failed so far; what stands in for a term not allocated never is. |
| SelectOwnership.SelectNewGives | sqlcipher/src/select.c:145-159 | The term has the very columns and FROM clause it was given, * if it was given no columns, and an empty FROM clause if it was given none. |
| SelectOwnership.SelectNewConserves | sqlcipher/src/select.c:89-109 | The columns and the FROM clause are owned by the new term or have been released. |
| SelectOwnership.MoreValuesConserves | sqlcipher/parse.c:3646-3656 | One more row accounts for every block, whatever allocation fails. |
| SelectOwnership.JoinConserves | sqlcipher/parse.c:3585-3602 | A compound accounts for every block, whether the wrapping, the new term or an operand is missing; on failure both sides are released. |
| SelectOwnership.BuildConserves | sqlcipher/parse.c:3585-3656 | For every compound and every pattern of failing allocations, what its parts owned is owned by the chain or has been released. |
| SelectOwnership.ReleasedOnce | sqlcipher/parse.c:3532-3540 | After the chain of a command is deleted every block has been released exactly once. |
| SelectOwnership.MissingExactly | sqlcipher/src/select.c:172-174 | A chain is missing only after a failure, and once one has happened every later chain is missing. |
| SelectOwnership.LeftIsThere | sqlcipher/parse.c:3595-3598 | Where there is a right operand there is a left one, as the action takes for granted. |
| SelectOwnership.BuildSpells | sqlcipher/parse.c:3585-3656 | If nothing has failed, the chain, newest term first, has the columns and FROM clause of each term of the source, a right operand of several terms being the subquery of a term that selects * from it. |
| SelectOwnership.BuildsWhole | sqlcipher/parse.c:3585-3656 | If nothing has failed, the chain has as many terms as the source, none of them without a column list or a FROM clause, and only a head that is a VALUES clause is marked. |
| SelectOwnership.RowsSoFarStay | sqlcipher/parse.c:3646-3656 | A row that cannot be had leaves the rows so far as they were, but for the mark. |
| KeywordSearch.MatchHash | sqlcipher/keywordhash.h:156-162 | Bytes that are read as a keyword, in any case, hash to the chain it hangs on. |
| KeywordSearch.ChainSearchFinds | sqlcipher/keywordhash.h:162-172 | If a keyword on the chain is read, the search down the chain finds it and no other. |
| KeywordSearch.SearchesAgree | sqlcipher/keywordhash.h:156-172 | For every byte string, the hashed search and the linear search find the same keyword or both none. |
| KeywordSearch.MatchLetters | sqlcipher/keywordhash.h:163-171 | The inner loop runs to the end exactly when the bytes are read as the keyword. |
| KeywordSearch.WalkChain | sqlcipher/keywordhash.h:162-172 | The chain walk ends, at the first keyword read on the chain or at none. |
| KeywordSearch.KeywordCode | sqlcipher/keywordhash.h:156-313 | The length is returned; the code is that of the keyword the linear search finds, and else the caller's is kept. |
| KeywordSearch.DelSpellsNothing | sqlcipher/keywordhash.h:167 | No keyword is spelled with a DEL byte. |
| KeywordSearch.FoundAsItself | sqlcipher/keywordhash.h:34-152 | Bytes that spell a keyword ignoring case are found as that keyword and no other. |
| KeywordFiling.AllSpelled | sqlcipher/keywordhash.h:27-120 | Every keyword is the stretch of the overlapped text at its offset with its length, and has no twin further down its chain. |
| KeywordFiling.AllReachable | sqlcipher/keywordhash.h:65-92 | Every keyword is reachable on the chain of its hash value. |
| Keywords.SqliteSound | sqlcipher/keywordhash.h:27-152 | The five tables of the repository are sound: chains descend, indices are in range, no keyword has the identifier's code. |
| Keywords.MisreadExactly | sqlcipher/keywordhash.h:167 | A DEL is misread exactly where it stands for the underscore of CURRENT_DATE, CURRENT_TIME or CURRENT_TIMESTAMP. |
| Keywords.DelIsMisread | sqlcipher/keywordhash.h:315-319 | One such spelling is a keyword to the recogniser and an identifier to the linear search. |
| KeywordTokens.AllGenerated | sqlcipher/tool/mkkeywordhash.c:160-304 | Every keyword of the generator's list is in the tables with the number of its token, and every keyword of the tables is in the list. |
| Keywords.ReadAsToken | sqlcipher/keywordhash.h:27-152 | Bytes that are a keyword of the list, each letter in either case, have the token the list gives it. |
| Keywords.ReadAsNothing | sqlcipher/keywordhash.h:27-152 | Bytes that are none of them have the code of an identifier, 59. |
| Keywords.Sqlite3KeywordCode | sqlcipher/keywordhash.h:315-319 | The code is the token that the generator's list gives the spelling, in any case; else 90 for the misread spellings and 59 for everything else. It agrees with the linear search if and only if the input is no misread spelling. |
| Keywords.Sqlite3KeywordName | sqlcipher/keywordhash.h:321-326 | In range, pointer and length delimit the keyword's name in the text; out of range, an error and nothing written. |
| Keywords.Sqlite3KeywordCheck | sqlcipher/keywordhash.h:327-329 | True exactly for the keywords of the generator's list in any case, and the misread spellings. |
| Keywords.NamesPass | sqlcipher/keywordhash.h:321-329 | Every name that is listed is recognised, as the keyword it was listed for. |
| Policy.ObjectionExactly | openssl/apps/ca.c:1745-1815 | When a line refuses a request, and with which of the six failures, in terms of the entries there are. |
| Policy.SubjectOfConcat | openssl/apps/ca.c:1739-1829 | The subject goes through the lines of the policy in their order. |
| Policy.SelectInOrder | openssl/apps/ca.c:1753-1758 | For one line it has the entries of the attribute, from the first to the last of the request. |
| Policy.ApplyPolicy | openssl/apps/ca.c:1739-1829 | There is a subject exactly if every line knows its attribute and its rule, finds the attribute where it must be there, and finds every entry that must match among the CA's; then it is the entries of all its attributes, and else the failure is that of the first line that objects. |
| Policy.PickEntries | openssl/apps/ca.c:1749-1828 | For one line, the restartable search adds all entries of the attribute in request order, or fails for exactly the reason the line has. |
| Policy.FindInCa | openssl/apps/ca.c:1784-1808 | The nested search finds an equal entry of the CA exactly if there is one, and tells a missing attribute from a different value. |
| Policy.GetIndexByObj | openssl/crypto/x509/x509name.c:113-132 | The next entry of the attribute after a position, or none. |
| Policy.OneOutcome | openssl/apps/ca.c:1739-1829 | The policy leaves exactly one outcome. |
| Policy.SubjectConserves | openssl/apps/ca.c:1819-1825 | Every request entry is in the subject once for each line that names its attribute; nothing else is. |
| Policy.SubjectKeepsOrder | openssl/apps/ca.c:1739-1829 | For an attribute named once, the subject has its entries in the order of the request. |
| IndexRotation.DistinctExactly | openssl/apps/apps.c:2026-2050 | The six file names differ exactly under five conditions on the suffixes. |
| IndexRotation.TooLongExactly | openssl/apps/apps.c:2018-2025 | The length check refuses exactly the names that overflow a buffer. |
| IndexRotation.Commits | openssl/apps/apps.c:2054-2096 | A rotation that goes through puts both new files live and both live files under the old suffix, removes the new names and changes nothing else. |
| IndexRotation.Undone | openssl/apps/apps.c:2064-2094 | What every name holds after any number of the renames is done and undone. |
| IndexRotation.UndoneExactly | openssl/apps/apps.c:2064-2094 | The live and new files are restored exactly if no live file was missing while an old copy was there. |
| IndexRotation.RestoresAlways | openssl/apps/apps.c:2054-2094 | Every failed rotation, whichever renames fail, restores the live and new files exactly if there is no old copy of a missing database nor, where a new database exists, of a missing attribute file. |
| IndexRotation.StaleComesBack | openssl/apps/apps.c:2064-2069 | A missing database and an old copy: the failed rotation makes the stale copy live. |
| IndexRotation.ForwardKeeps | openssl/apps/apps.c:2054-2096 | After each rename that gets by, the previous database is under its old name and the attribute file under one of its two. |
| IndexRotation.UndoingKeeps | openssl/apps/apps.c:2064-2094 | At every step of undoing, whichever undoing renames fail, the previous files still exist. |
| IndexRotation.CallPasses | openssl/apps/apps.c:2054-2096 | In terms of the call: all four renames get by exactly if both new files are there and no rename fails, and otherwise which one stops it. |
| IndexRotation.CallCommits | openssl/apps/apps.c:2026-2096 | In terms of the call: the .attr file of the new suffix is the live one afterwards and the live one that of the old suffix, and likewise the database. |
| IndexRotation.RotateIndex | openssl/apps/apps.c:2012-2100 | In the names the call is made with, for every pattern of failing renames: it returns 1 exactly if the names fit, both new files are there and no rename fails, and then the new files are live, the live ones old and nothing else changed; if one rename stops it and the undoing works, the live and the new files are restored exactly if no stale copy stood in; and at no moment is a live file lost. |
| NameParser.ScanEscaped | openssl/apps/apps.c:2176-2215 | Escaped text is scanned as the text, up to an unescaped stop or the end. |
| NameParser.RestRoundTrip | openssl/apps/apps.c:2170-2226 | A written list of elements is read back as that list with its marks, or refused for an empty last value at that element. |
| NameParser.RoundTrip | openssl/apps/apps.c:2136-2226 | Reading inverts writing, for every list, exactly if its last value is not empty. |
| NameParser.Copy | openssl/apps/apps.c:2176-2188 | The copying loop leaves the unescaped text in the buffer, nothing before it changed, and never writes more than it reads. |
| NameParser.SplitOne | openssl/apps/apps.c:2172-2225 | One round stores the type, the value and the next mark, or reports exactly what is wrong. |
| NameParser.Split | openssl/apps/apps.c:2162-2226 | For every input, no array sized from its length is overrun, and the arrays hold the elements of the subject or the failure is the right one. |
| NameParser.TwoElements | openssl/apps/apps.c:2170-2226 | A slash starts a new component, a plus, where the option is on, joins one. |
| NameParser.PlusInValue | openssl/apps/apps.c:2190-2215 | Without the option a plus is part of the value, and so is a second equals sign. |
| NameParser.EscapedElement | openssl/apps/apps.c:2176-2188 | After a backslash any character stands for itself. |
| NameParser.BadSubjects | openssl/apps/apps.c:2147-2200 | Which failure a subject meets that has no slash, that ends in a type, or that ends in a backslash. |
| NameParser.NamedInOrder | openssl/apps/apps.c:2231-2250 | There is a name exactly if the library takes every element with a known type and a value, and it has just these, in order, each with its own value and mark. |
| NameParser.BuildName | openssl/apps/apps.c:2231-2250 | The loop over the arrays adds the entries of the elements stored in them. |
| NameParser.ParseName | openssl/apps/apps.c:2140-2257 | The name built is that of the tokenised subject: its elements with a known type and a value, in order. |
| Revocation.MakeRevocationStr | openssl/apps/ca.c:2608-2699 | The field is written, in full, exactly for accepted arguments. |
| Revocation.BuildField | openssl/apps/ca.c:2671-2697 | The computed buffer size never cuts the copies off. |
| Revocation.FoundAsItself | openssl/apps/ca.c:2581-2597 | Each reason, in any case, is found as itself. |
| Revocation.FieldsOfField | openssl/apps/ca.c:2820-2838 | Cutting at the first two commas recovers time, reason and argument, commas in the argument included. |
| Revocation.NamedReasons | openssl/apps/ca.c:2581-2591 | A field with one of the eight names, in any case, is read with the number section 5.3.1 of RFC 5280 gives that name. |
| Revocation.NamedPseudoReasons | openssl/apps/ca.c:2852-2895 | holdInstruction, keyTime and CAkeyTime, in any case and with an argument the library takes, are read as 6, 1 and 2 with the argument. |
| Revocation.OtherNamesUnread | openssl/apps/ca.c:2839-2850 | No field with another reason is read. |
| Revocation.ReasonsWritten | openssl/apps/ca.c:2623-2635 | A reason given in any case is written in the case of the list. |
| Revocation.OtherNamesRefused | openssl/apps/ca.c:2623-2635 | No other reason is written. |
| Revocation.OptionsWritten | openssl/apps/ca.c:2636-2697 | What the other options write, letter for letter, and when. |
| Revocation.CodeIsStandard | openssl/apps/ca.c:2852-2895 | Every code read is the one section 5.3.1 of RFC 5280 gives the reason, pseudo reasons mapped to the reason they explain. |
| Revocation.RoundTrip | openssl/apps/ca.c:2608-2903 | What was written is read back: time, argument and standard code, or no reason; it fails exactly where the time is refused. |
| Revocation.OnlyWhatCanBeWritten | openssl/apps/ca.c:2820-2903 | Every field that is accepted says something the writer can write. |
| Revocation.CutFields | openssl/apps/ca.c:2820-2838 | Overwriting the commas in place leaves the C strings of the fields. |
| Revocation.UnpackRevinfo | openssl/apps/ca.c:2800-2903 | The result is the meaning of the fields, or the first failure in the code's order. |
| ExpirySweep.LeqIsValue | openssl/apps/ca.c:2557 | For digits of one length, the order of strings is the order of numbers. |
| ExpirySweep.UtcChronological | openssl/apps/ca.c:2544-2568 | For UTC times read with the year rule of section 4.1.2.5.1 of RFC 5280, the test holds exactly at or before now. |
| ExpirySweep.GeneralizedExpired | openssl/apps/ca.c:2550-2568 | When the test marks a row with a generalized time, by twelve digits that start with its century, for all centuries. |
| ExpirySweep.PastByCentury | openssl/apps/ca.c:2550-2568 | When such a row is at or before now by the clock, said in the digits the two times are written with. |
| ExpirySweep.GeneralizedExactly | openssl/apps/ca.c:2532-2568 | For every generalized row and every UTC now, the test agrees with the clock exactly under a condition on the digits of the two: which century the row has, whether now is before 2000, and which twelve digits are the greater. |
| ExpirySweep.GeneralizedFrom2050 | openssl/apps/ca.c:2550-2568 | For a row from 2050 on: exactly if now is before 2000 or the row's first twelve digits are the greater (both, for a century from 50 on). |
| ExpirySweep.GeneralizedCentury | openssl/apps/ca.c:2550-2568 | For a row of the years 2000 to 2099 and a now outside 2020, the row is marked exactly from 2021 to 2049, whatever its date. |
| ExpirySweep.EndDateMisread | openssl/apps/ca.c:1064-1068 | The end date 20300101000000Z, which the option takes and writes, is marked on 1 January 2025. |
| ExpirySweep.FirstGeneralized | openssl/apps/ca.c:2550-2568 | 1 January 2050 counts as expired exactly in 2021 to 2049. |
| ExpirySweep.Mark | openssl/apps/ca.c:2550-2572 | One row is marked exactly if it is valid and due, and nothing else of it changes. |
| ExpirySweep.DoUpdatedb | openssl/apps/ca.c:2547-2577 | Exactly the rows with the letter V that are due get the letter E and a type that ends there, every other row and field is unchanged, and their number is returned; with UTC times those are exactly the valid rows whose time is at or before now. |
| NextProtos.DecodeEncoded | openssl/apps/apps.c:2763-2771 | Length-prefixed pieces are read back from their encoding, empty ones included. |
| NextProtos.PiecesCut | openssl/apps/apps.c:2785-2794 | The list is cut at its first comma, the character ',', and then the rest. |
| NextProtos.PiecesOfJoined | openssl/apps/apps.c:2785-2794 | The commas cut the list into the names it was made of. |
| NextProtos.JoinedPieces | openssl/apps/apps.c:2785-2794 | The pieces joined are the input. |
| NextProtos.EncodedLength | openssl/apps/apps.c:2797 | The encoding is one byte longer than the input. |
| NextProtos.NextProtosParse | openssl/apps/apps.c:2773-2799 | It fails exactly if the input is 65535 bytes or longer or a piece exceeds 255; else every cell is written and the output is the encoding of the comma split. |

## Left out

- The generated tables of the SQL grammar and its 369 rules: tables and grammar are parameters with a condition of consistency, which a small grammar is shown to meet.
- The generator itself: that `lemon` emits tables that implement a consistent automaton is a condition here, not a result.
- Weights on grammar symbols are part of the consistency condition; they certify that reductions end. Which grammars have them is not asked.
- Tracing, coverage, stacks that grow, and error recovery by an error token, none of which is in the configured build.
- Reduce actions into code not modelled here (tables, indices, triggers, windows, expressions with SELECT inside): the driver's actions are those over expressions and expression lists, enough for every union member kind they use.
- Expression nodes are values: a node changed in place, as `binaryToUnaryIfNull` does, is a new value with the same identity, so aliasing between nodes is not modelled; each node's identity, owner and release are.
- Expression depth limits, comparison affinity and collation, which decide how values compare, not which are compared.
- Splitting the text into tokens, and the early stop of the token loop after an error code, a failed allocation or an interrupt, which is the same run on fewer tokens.
- LIMIT is modelled in the meaning of its rewriting, and is not one of the driver's typed actions.
- CompoundSelect.BuildSelect: the rows and links of a chain when an allocation fails; who owns its terms then is in `SelectOwnership`. WITH clauses, ORDER BY and LIMIT of a term are part neither of its rows nor of what it owns.
- The fold of ON DELETE and ON UPDATE into one mask of foreign key actions: it would only add an easy member.
- EBCDIC forms of the keyword comparison and of `charMap`.
- The library calls that name attributes, check strings of a type, or read times and object identifiers: they are parameters.
- IndexRotation.RotateIndex: a rename whose source is there is taken to fail with errors other than ENOENT and ENOTDIR, and a missing source with one of these two.
- Policy.ApplyPolicy: failing allocations, the printing of messages, and the option that puts the request's whole name in place of the subject.
- NameParser.ParseName: failing allocations; how the library combines a mark with its neighbours.
- Revocation.UnpackRevinfo: failing allocations, and what is left in the caller's cells when it fails.
- Other options of the command line tools, password prompts, engines, and the TXT_DB files beyond one sweep.
- The unique-subject check of `do_body`, whose real test is in the database index, which is not part of this model.
