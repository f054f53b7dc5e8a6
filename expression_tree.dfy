/**
 * The expression tree built by the parser: `ExpressionNode` with its
 * three-way `operation` field and its `left`/`right` children.
 */
module ExpressionTree {
  import opened Outcomes

  /**
   * The functions a node's operation can refer to. The first five are the
   * operators the parser knows by identity; the rest are the catalogue
   * functions whose exact meaning is modelled, and `LibraryFn` stands for
   * every other registered function (floating-point wrappers and the like).
   */
  datatype FnKind =
    | AddOp | SubtractOp | MultiplyOp | DivideOp | PowOp
    | ModFn | SumFn | AvgFn | MinFn | MaxFn | FactorialFn
    | LibraryFn(name: string)

  /**
   * The `operation` field: a number literal (`NaNNum` when `parseFloat`
   * gave NaN), a function, `undefined` (an unknown function name), a
   * marker string `"("` or `","`, or an argument list.
   */
  datatype Op =
    | Num(value: real)
    | NaNNum
    | Fn(kind: FnKind)
    | Undefined
    | Marker(symbol: char)
    | List(items: seq<Option<Node>>)

  datatype Node = Node(op: Op, left: Option<Node>, right: Option<Node>)

  /** A stack entry or a child slot: a node, or null/undefined. */
  type Slot = Option<Node>

  /** A freshly created node without children. */
  function Leaf(op: Op): Node {
    Node(op, None, None)
  }

  /** Number of constructors in a tree; the evaluator recurses on it. */
  function NodeSize(n: Node): nat
    decreases n, 1
  {
    1 + SlotSize(n.left) + SlotSize(n.right) + (if n.op.List? then ItemsSize(n.op.items) else 0)
  }

  function SlotSize(s: Slot): nat
    decreases s, 2
  {
    match s
    case None => 0
    case Some(n) => NodeSize(n)
  }

  function ItemsSize(items: seq<Slot>): nat
    decreases items, 0
  {
    if items == [] then 0 else SlotSize(items[0]) + ItemsSize(items[1..])
  }

  /** Each argument of a list is smaller than the whole list. */
  lemma {:induction false} ItemSizeBound(items: seq<Slot>, i: nat)
    requires i < |items|
    ensures SlotSize(items[i]) <= ItemsSize(items)
  {
    if i > 0 {
      ItemSizeBound(items[1..], i - 1);
    }
  }

  /**
   * `getLength`: the number of arguments of a list node; any other node
   * behaves as a list of length one.
   */
  function GetLength(n: Node): (len: nat)
  {
    if n.op.List? then |n.op.items| else 1
  }

  /**
   * `getNodeAt`: the argument at index `i` of a list node (undefined when out
   * of range); a non-list node answers index 0 with itself and anything else
   * with null.
   */
  function GetNodeAt(n: Node, i: int): (r: Slot)
    ensures !n.op.List? && i == 0 ==> r == Some(n)
    ensures n.op.List? && 0 <= i < GetLength(n) ==> r == n.op.items[i]
    ensures (i < 0 || i >= GetLength(n)) ==> r == None
  {
    if n.op.List? then (if 0 <= i < |n.op.items| then n.op.items[i] else None)
    else if i == 0 then Some(n)
    else None
  }
}
