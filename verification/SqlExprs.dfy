/**
 Expression trees as the reduce actions of parse.c build them, the heap that accounts
 for every node, and the constructors of expr.c that the actions call.

 A heap records which nodes are live and which allocation attempts fail. Null stands for
 the null pointer that a failed allocation leaves behind.
 */
module SqlExprs {
  import opened Wrappers
  import opened SqlValues

  datatype Op =
    | Literal(v: SqlValue)
    | Column(n: nat)
    | Bin(b: BinOp)
    | Un(u: UnOp)
    | Is | IsNot | In | Between | Case | Vector | Limit

  datatype Expr = Null | Node(id: nat, op: Op, left: Expr, right: Expr, list: List)

  datatype List = NoList | Exprs(id: nat, items: Items)

  datatype Items = Nil | Snoc(init: Items, last: Expr)

  function Count(items: Items): nat {
    match items
    case Nil => 0
    case Snoc(init, _) => Count(init) + 1
  }

  // ----- Ownership

  function Same(a: nat, b: nat): nat {
    if a == b then 1 else 0
  }

  /** How many times a tree owns node id. */
  function Owns(e: Expr, id: nat): nat {
    match e
    case Null => 0
    case Node(n, _, left, right, list) => Same(n, id) + Owns(left, id) + Owns(right, id) + ListOwns(list, id)
  }

  function ListOwns(list: List, id: nat): nat {
    match list
    case NoList => 0
    case Exprs(n, items) => Same(n, id) + ItemsOwn(items, id)
  }

  function ItemsOwn(items: Items, id: nat): nat {
    match items
    case Nil => 0
    case Snoc(init, last) => ItemsOwn(init, id) + Owns(last, id)
  }

  /** The delete calls made so far, each releasing a whole tree, a list or one block. */
  datatype Releases =
    | Nothing
    | OfTree(before: Releases, e: Expr)
    | OfList(before: Releases, list: List)
    | OfBlock(before: Releases, id: nat)

  function TimesFreed(log: Releases, id: nat): nat {
    match log
    case Nothing => 0
    case OfTree(before, e) => TimesFreed(before, id) + Owns(e, id)
    case OfList(before, list) => TimesFreed(before, id) + ListOwns(list, id)
    case OfBlock(before, n) => TimesFreed(before, id) + Same(n, id)
  }

  /**
   tries counts allocation attempts; attempt k fails when k is in failing and otherwise
   yields node k. renaming is set while ALTER TABLE RENAME parses; otherwise foldAnd allows the
   constant folding of AND.
   */
  datatype Heap = Heap(tries: nat, failing: set<nat>, freed: Releases, renaming: bool, foldAnd: bool)
  {
    predicate NeverFails() {
      failing == {}
    }

    predicate NextFails() {
      tries in failing
    }

    predicate Allocated(id: nat) {
      id < tries && id !in failing
    }

    // The attempt is counted whether or not it succeeds.
    function Attempt(): Heap {
      this.(tries := tries + 1)
    }

    function Delete(e: Expr): (h: Heap)
      ensures forall id: nat :: h.Balance(id) == Balance(id) - Owns(e, id)
    {
      this.(freed := OfTree(freed, e))
    }

    function DeleteList(list: List): (h: Heap)
      ensures forall id: nat :: h.Balance(id) == Balance(id) - ListOwns(list, id)
    {
      this.(freed := OfList(freed, list))
    }

    function Free(n: nat): (h: Heap)
      ensures forall id: nat :: h.Balance(id) == Balance(id) - Same(n, id)
    {
      this.(freed := OfBlock(freed, n))
    }

    // An error message stops the folding of AND.
    function AfterError(): (h: Heap)
      ensures !h.foldAnd
      ensures forall id: nat :: h.Balance(id) == Balance(id)
    {
      this.(foldAnd := false)
    }

    // How many owners node id should still have: one if it was allocated, less its releases.
    function Balance(id: nat): int {
      if Allocated(id) then 1 - TimesFreed(freed, id) else 0 - TimesFreed(freed, id)
    }
  }

  /** Same mode and same failures, more attempts. */
  predicate Later(h: Heap, h': Heap) {
    && h'.failing == h.failing && h'.renaming == h.renaming && h'.foldAnd == h.foldAnd
    && h.tries <= h'.tries
  }

  /**
   An operation that was handed before owners of node id returns after owners of it, and
   has accounted for the difference by allocating or releasing the node.
   */
  predicate Conserved(h: Heap, before: nat, h': Heap, after: nat, id: nat) {
    h'.Balance(id) - after == h.Balance(id) - before
  }

  // ----- Constructors of expr.c

  function NewLeaf(h: Heap, op: Op): (r: (Expr, Heap))
    ensures Later(h, r.1)
  {
    if h.NextFails() then (Null, h.Attempt())
    else (Node(h.tries, op, Null, Null, NoList), h.Attempt())
  }

  /** A new node over two subtrees; if it cannot be allocated the subtrees are released. */
  function NewNode(h: Heap, op: Op, left: Expr, right: Expr): (r: (Expr, Heap))
    ensures Later(h, r.1)
  {
    if h.NextFails() then (Null, h.Attempt().Delete(left).Delete(right))
    else (Node(h.tries, op, left, right, NoList), h.Attempt())
  }

  /** The integer an expression is at parse time, looking through unary plus and minus. */
  function IntegerOf(e: Expr): Option<int> {
    match e
    case Node(_, Literal(SqlInt(i)), _, _, _) => Some(i)
    case Node(_, Un(UPlus), left, _, _) => IntegerOf(left)
    case Node(_, Un(UMinus), left, _, _) =>
      (match IntegerOf(left) case Some(i) => Some(-i) case None => None)
    case _ => None
  }

  predicate AlwaysFalse(e: Expr) {
    IntegerOf(e) == Some(0)
  }

  function JoinAnd(h: Heap, left: Expr, right: Expr): (r: (Expr, Heap))
    ensures Later(h, r.1)
  {
    if left.Null? then (right, h)
    else if right.Null? then (left, h)
    else if AlwaysFalse(left) || AlwaysFalse(right) then
      NewLeaf(h.Delete(left).Delete(right), Literal(False))
    else NewNode(h, Bin(And), left, right)
  }

  function PExpr(h: Heap, op: Op, left: Expr, right: Expr): (r: (Expr, Heap))
    ensures Later(h, r.1)
  {
    if op == Bin(And) && h.foldAnd && !h.renaming then JoinAnd(h, left, right)
    else NewNode(h, op, left, right)
  }

  predicate PowerOfTwo(n: nat) {
    n <= 1 || (n % 2 == 0 && PowerOfTwo(n / 2))
  }

  /**
   Append to a list, growing its block when the length is a power of two: growing moves
   the block. On failure both the list and the new element are released.
   */
  function ListAppend(h: Heap, list: List, e: Expr): (r: (List, Heap))
    ensures Later(h, r.1)
  {
    match list
    case NoList =>
      if h.NextFails() then (NoList, h.Attempt().Delete(e))
      else (Exprs(h.tries, Snoc(Nil, e)), h.Attempt())
    case Exprs(id, items) =>
      if !PowerOfTwo(Count(items)) then (Exprs(id, Snoc(items, e)), h)
      else if h.NextFails() then (NoList, h.Attempt().Delete(e).DeleteList(list))
      else (Exprs(h.tries, Snoc(items, e)), h.Attempt().Free(id))
  }

  /** The only element of a list, taken out of it; the block itself is released. */
  function TakeOnly(h: Heap, list: List): (r: (Expr, Heap))
    requires list.Exprs? && Count(list.items) == 1
    ensures Later(h, r.1)
  {
    (list.items.last, h.Free(list.id))
  }

  /** Hang a list under a node, or release it if the node could not be allocated. */
  function AttachList(h: Heap, e: Expr, list: List): (r: (Expr, Heap))
    ensures Later(h, r.1)
  {
    if e.Null? then (Null, h.DeleteList(list))
    else (e.(list := list), h)
  }

  /** IS and IS NOT become unary when the right operand is the literal NULL. */
  function BinaryToUnaryIfNull(h: Heap, right: Expr, e: Expr, op: UnOp): (r: (Expr, Heap))
    ensures Later(h, r.1)
  {
    if e.Node? && right.Node? && right.op == Literal(SqlNull) && !h.renaming
    then (e.(op := Un(op), right := Null), h.Delete(e.right))
    else (e, h)
  }

  // ----- Each constructor accounts for every node

  lemma {:induction false} NewLeafConserves(h: Heap, op: Op, id: nat)
    ensures var (e, h') := NewLeaf(h, op); Conserved(h, 0, h', Owns(e, id), id)
  {
  }

  lemma {:induction false} NewNodeConserves(h: Heap, op: Op, left: Expr, right: Expr, id: nat)
    ensures var (e, h') := NewNode(h, op, left, right);
            Conserved(h, Owns(left, id) + Owns(right, id), h', Owns(e, id), id)
  {
  }

  lemma {:induction false} PExprConserves(h: Heap, op: Op, left: Expr, right: Expr, id: nat)
    ensures var (e, h') := PExpr(h, op, left, right);
            Conserved(h, Owns(left, id) + Owns(right, id), h', Owns(e, id), id)
  {
    if op == Bin(And) && h.foldAnd && !h.renaming && left.Node? && right.Node? && (AlwaysFalse(left) || AlwaysFalse(right)) {
      NewLeafConserves(h.Delete(left).Delete(right), Literal(False), id);
    } else {
      NewNodeConserves(h, op, left, right, id);
    }
  }

  lemma {:induction false} ListAppendConserves(h: Heap, list: List, e: Expr, id: nat)
    ensures var (list', h') := ListAppend(h, list, e);
            Conserved(h, ListOwns(list, id) + Owns(e, id), h', ListOwns(list', id), id)
  {
    assert ItemsOwn(Snoc(Nil, e), id) == Owns(e, id);
  }

  lemma {:induction false} TakeOnlyConserves(h: Heap, list: List, id: nat)
    requires list.Exprs? && Count(list.items) == 1
    ensures var (e, h') := TakeOnly(h, list); Conserved(h, ListOwns(list, id), h', Owns(e, id), id)
  {
    assert list.items.init.Nil?;
    assert ItemsOwn(list.items, id) == ItemsOwn(list.items.init, id) + Owns(list.items.last, id);
  }

  lemma {:induction false} AttachListConserves(h: Heap, e: Expr, list: List, id: nat)
    requires e.Node? ==> e.list.NoList?
    ensures var (e', h') := AttachList(h, e, list);
            Conserved(h, Owns(e, id) + ListOwns(list, id), h', Owns(e', id), id)
  {
  }

  lemma {:induction false} BinaryToUnaryConserves(h: Heap, right: Expr, e: Expr, op: UnOp, id: nat)
    ensures var (e', h') := BinaryToUnaryIfNull(h, right, e, op); Conserved(h, Owns(e, id), h', Owns(e', id), id)
  {
  }
}
