/**
 * `ExpressionNode.evaluateExpression` and the registry semantics of the
 * catalogue functions it calls. Every catalogue function receives the
 * node's `(left, right)` children, as in the source; variadic functions
 * read their arguments from `right` by index.
 */
module Evaluator {
  import opened Outcomes
  import opened ExpressionTree
  import opened Arith

  /**
   * `node.evaluateExpression(idx)`; `idx == None` is a call without an
   * argument. A number is multiplied by its right child when there is one,
   * a list evaluates its argument at `idx`, and anything else is called as
   * a function with `(left, right)`.
   */
  function Eval(node: Node, idx: Option<nat>): Result<real>
    decreases NodeSize(node), 1, 0
  {
    match node.op
    case Num(v) =>
      if node.right.Some? then
        var r :- EvalSlot(node.right, None);
        Ok(v * r)
      else Ok(v)
    case NaNNum =>
      if node.right.Some? then
        var _ :- EvalSlot(node.right, None);
        Err(NotANumber)
      else Err(NotANumber)
    case List(items) =>
      if idx.Some? && idx.value < |items| && items[idx.value].Some? then
        ItemSizeBound(items, idx.value);
        Eval(items[idx.value].value, None)
      else Err(TypeError)
    case Fn(k) => Apply(k, node.left, node.right)
    case Undefined => Err(TypeError)
    case Marker(_) => Err(TypeError)
  }

  /** `child.evaluateExpression(idx)` where `child` may be null or undefined. */
  function EvalSlot(s: Slot, idx: Option<nat>): Result<real>
    decreases SlotSize(s), 2, 0
  {
    match s
    case None => Err(TypeError)
    case Some(n) => Eval(n, idx)
  }

  /** Values of arguments `0..k-1` of `right`, evaluated in index order; the first failure wins. */
  function ArgValues(right: Node, k: nat): Result<seq<real>>
    decreases NodeSize(right), 3, k
  {
    if k == 0 then Ok([])
    else
      var init :- ArgValues(right, k - 1);
      var v :- Eval(right, Some(k - 1));
      Ok(init + [v])
  }

  /**
   * Calls the catalogue function `k` with the children of a node, as the
   * source defines it: `avg` and `factorial` are the versions as written
   * (`AvgAsWritten`, `FactorialAsWritten`); `Avg` and `Factorial` below are
   * what they evidently intend.
   */
  function Apply(k: FnKind, left: Slot, right: Slot): Result<real>
    decreases SlotSize(left) + SlotSize(right), 5, 0
  {
    match k
    case AddOp => Add(left, right)
    case SubtractOp => Subtract(left, right)
    case MultiplyOp => Multiply(left, right)
    case DivideOp => Divide(left, right)
    case PowOp => Pow(left, right)
    case ModFn => Mod(left, right)
    case SumFn => Sum(left, right)
    case AvgFn => AvgAsWritten(left, right)
    case MinFn => Min(left, right)
    case MaxFn => Max(left, right)
    case FactorialFn => FactorialAsWritten(left, right)
    case LibraryFn(name) => Err(Unmodelled(name))
  }

  function Add(left: Slot, right: Slot): Result<real>
    decreases SlotSize(left) + SlotSize(right), 4, 0
  {
    var l :- EvalSlot(left, None);
    var r :- EvalSlot(right, None);
    Ok(l + r)
  }

  /** A null left child makes `subtract` the additive inverse of the right child. */
  function Subtract(left: Slot, right: Slot): Result<real>
    decreases SlotSize(left) + SlotSize(right), 4, 0
  {
    if left.None? then
      var r :- EvalSlot(right, None);
      Ok(r * -1.0)
    else
      var l :- EvalSlot(left, None);
      var r :- EvalSlot(right, None);
      Ok(l - r)
  }

  function Multiply(left: Slot, right: Slot): Result<real>
    decreases SlotSize(left) + SlotSize(right), 4, 0
  {
    var l :- EvalSlot(left, None);
    var r :- EvalSlot(right, None);
    Ok(l * r)
  }

  /** A zero divisor, which gives an infinity or NaN in the source, is a failure here. */
  function Divide(left: Slot, right: Slot): Result<real>
    decreases SlotSize(left) + SlotSize(right), 4, 0
  {
    var l :- EvalSlot(left, None);
    var r :- EvalSlot(right, None);
    if r == 0.0 then Err(if l == 0.0 then NotANumber else DivisionByZero)
    else Ok(l / r)
  }

  /** `Math.pow`, interpreted exactly only for whole non-negative exponents. */
  function Pow(left: Slot, right: Slot): Result<real>
    decreases SlotSize(left) + SlotSize(right), 4, 0
  {
    var l :- EvalSlot(left, None);
    var r :- EvalSlot(right, None);
    if r >= 0.0 && IsWhole(r) then Ok(RealPow(l, r.Floor)) else Err(Unmodelled("pow"))
  }

  /** Argument 0 of `right` modulo argument 1, with JavaScript's truncated remainder. */
  function Mod(left: Slot, right: Slot): Result<real>
    decreases SlotSize(left) + SlotSize(right), 4, 0
  {
    var a :- EvalSlot(right, Some(0));
    var b :- EvalSlot(right, Some(1));
    if b == 0.0 then Err(NotANumber) else Ok(TruncRem(a, b))
  }

  /** The total of the argument values of `right`. */
  function Sum(left: Slot, right: Slot): Result<real>
    decreases SlotSize(left) + SlotSize(right), 4, 0
  {
    match right
    case None => Err(TypeError)
    case Some(r) =>
      var vals :- ArgValues(r, GetLength(r));
      Ok(SumOf(vals))
  }

  /**
   * `avg` as evidently intended: the total of the argument values divided
   * by their number `getLength()` (0/0, NaN, for an empty list). The
   * evaluator calls `AvgAsWritten`.
   */
  function Avg(left: Slot, right: Slot): Result<real>
    decreases SlotSize(left) + SlotSize(right), 4, 0
  {
    match right
    case None => Err(TypeError)
    case Some(r) =>
      var vals :- ArgValues(r, GetLength(r));
      if |vals| == 0 then Err(NotANumber) else Ok(SumOf(vals) / (|vals| as real))
  }

  /**
   * `avg` as written: after the loop the total is divided by `right.length`,
   * a property an expression node does not have, so the quotient is NaN
   * whenever the arguments evaluate.
   */
  function AvgAsWritten(left: Slot, right: Slot): Result<real>
    decreases SlotSize(left) + SlotSize(right), 4, 0
  {
    match right
    case None => Err(TypeError)
    case Some(r) =>
      var _ :- ArgValues(r, GetLength(r));
      Err(NotANumber)
  }

  /** The running minimum of the argument values; argument 0 must exist. */
  function Min(left: Slot, right: Slot): Result<real>
    decreases SlotSize(left) + SlotSize(right), 4, 0
  {
    match right
    case None => Err(TypeError)
    case Some(r) =>
      var vals :- ArgValues(r, GetLength(r));
      if |vals| == 0 then Err(TypeError) else Ok(MinOf(vals))
  }

  /** The running maximum of the argument values; argument 0 must exist. */
  function Max(left: Slot, right: Slot): Result<real>
    decreases SlotSize(left) + SlotSize(right), 4, 0
  {
    match right
    case None => Err(TypeError)
    case Some(r) =>
      var vals :- ArgValues(r, GetLength(r));
      if |vals| == 0 then Err(TypeError) else Ok(MaxOf(vals))
  }

  /**
   * `factorial` as evidently intended. Written postfix, `n!` gets its operand
   * as the LEFT child (PAP adopts it), and a term juxtaposed after it
   * becomes the right child, which multiplies the result. Called as
   * `factorial(x)` the node has no left child and the argument is the right
   * child, as in the source. The evaluator calls `FactorialAsWritten`.
   */
  function Factorial(left: Slot, right: Slot): Result<real>
    decreases SlotSize(left) + SlotSize(right), 4, 0
  {
    if left.None? then
      var v :- EvalSlot(right, None);
      Ok(FactorialUpTo(v.Floor) as real)
    else
      var v :- EvalSlot(left, None);
      var f := FactorialUpTo(v.Floor) as real;
      if right.None? then Ok(f)
      else
        var w :- EvalSlot(right, None);
        Ok(f * w)
  }

  /**
   * `factorial` as written: the product 2·3·…·v of the RIGHT child's value
   * `v`; the left child, where postfix `!` puts its operand, is never read.
   */
  function FactorialAsWritten(left: Slot, right: Slot): Result<real>
    decreases SlotSize(left) + SlotSize(right), 4, 0
  {
    var v :- EvalSlot(right, None);
    Ok(FactorialUpTo(v.Floor) as real)
  }

  /**
   * `ArgValues` succeeds exactly when every argument below `k` evaluates,
   * and then lists their values in index order.
   */
  lemma {:induction false} ArgValuesAt(right: Node, k: nat)
    ensures ArgValues(right, k).Ok? <==> forall i :: 0 <= i < k ==> Eval(right, Some(i)).Ok?
    ensures ArgValues(right, k).Ok? ==>
              |ArgValues(right, k).value| == k &&
              forall i :: 0 <= i < k ==> ArgValues(right, k).value[i] == Eval(right, Some(i)).value
  {
    if k > 0 {
      ArgValuesAt(right, k - 1);
    }
  }

  /** Once an argument fails, evaluating more arguments keeps that failure. */
  lemma {:induction false} ArgValuesFailurePersists(right: Node, i: nat, k: nat)
    requires i <= k
    requires ArgValues(right, i).Err?
    ensures ArgValues(right, k) == ArgValues(right, i)
    decreases k
  {
    if k > i {
      ArgValuesFailurePersists(right, i, k - 1);
    }
  }

  /**
   * An index passed to a list node selects the argument that `getNodeAt`
   * returns (an index out of range, like a missing argument, throws);
   * every other node ignores whatever index it is passed, and
   * `getNodeAt(0)` is the node itself.
   */
  lemma {:induction false} EvalAtIndex(node: Node, i: nat)
    ensures node.op.List? ==> Eval(node, Some(i)) == EvalSlot(GetNodeAt(node, i), None)
    ensures node.op.List? && i >= GetLength(node) ==> Eval(node, Some(i)) == Err(TypeError)
    ensures !node.op.List? ==> Eval(node, Some(i)) == Eval(node, None)
    ensures !node.op.List? ==> EvalSlot(GetNodeAt(node, 0), None) == Eval(node, None)
  {
  }

  /** The four binary operators combine the values of both children. */
  lemma {:induction false} BinaryOperators(left: Slot, right: Slot)
    requires EvalSlot(left, None).Ok? && EvalSlot(right, None).Ok?
    ensures Add(left, right) == Ok(EvalSlot(left, None).value + EvalSlot(right, None).value)
    ensures left.Some? ==> Subtract(left, right) == Ok(EvalSlot(left, None).value - EvalSlot(right, None).value)
    ensures Multiply(left, right).Ok? && Multiply(left, right).value == EvalSlot(left, None).value * EvalSlot(right, None).value
    ensures EvalSlot(right, None).value != 0.0 ==>
              Divide(left, right) == Ok(EvalSlot(left, None).value / EvalSlot(right, None).value)
  {
  }

  /**
   * The five operators read their children only by evaluating them without
   * an index: children with the same value give the same result.
   */
  lemma {:induction false} OperatorsReadValues(k: FnKind, left: Slot, right: Slot, right': Slot)
    requires k in {AddOp, SubtractOp, MultiplyOp, DivideOp, PowOp}
    requires EvalSlot(right, None) == EvalSlot(right', None)
    ensures Apply(k, left, right) == Apply(k, left, right')
  {
    match k
    case AddOp => assert Add(left, right) == Add(left, right');
    case SubtractOp => assert Subtract(left, right) == Subtract(left, right');
    case MultiplyOp =>
      if EvalSlot(left, None).Ok? && EvalSlot(right, None).Ok? {
        var product := EvalSlot(left, None).value * EvalSlot(right, None).value;
        assert Multiply(left, right).Ok? && Multiply(left, right).value == product;
        assert Multiply(left, right').Ok? && Multiply(left, right').value == product;
      }
    case DivideOp => assert Divide(left, right) == Divide(left, right');
    case PowOp => assert Pow(left, right) == Pow(left, right');
  }

  /** `subtract` with a null left child negates its right child. */
  lemma {:induction false} SubtractNegates(right: Slot)
    requires EvalSlot(right, None).Ok?
    ensures Subtract(None, right) == Ok(-EvalSlot(right, None).value)
  {
  }

  /** `sum` is the total of the values at indices below `getLength`; a bare argument counts once. */
  lemma {:induction false} SumIsTotal(left: Slot, right: Node)
    requires forall i :: 0 <= i < GetLength(right) ==> Eval(right, Some(i)).Ok?
    ensures Sum(left, Some(right)).Ok?
    ensures Sum(left, Some(right)) ==
      Ok(SumOf(seq(GetLength(right), i requires 0 <= i < GetLength(right) && Eval(right, Some(i)).Ok? =>
                                       Eval(right, Some(i)).value)))
    ensures !right.op.List? ==> Sum(left, Some(right)) == Eval(right, None)
    ensures right.op.List? && |right.op.items| == 2 ==>
      Sum(left, Some(right)).value == Eval(right, Some(0)).value + Eval(right, Some(1)).value
  {
    var len := GetLength(right);
    ArgValuesAt(right, len);
    var vals := ArgValues(right, len).value;
    assert vals == seq(GetLength(right), i requires 0 <= i < GetLength(right) && Eval(right, Some(i)).Ok? =>
                                           Eval(right, Some(i)).value);
    if !right.op.List? {
      assert Eval(right, Some(0)) == Eval(right, None);
      SumOfPrefix(vals, 1);
    } else if len == 2 {
      SumOfPrefix(vals, 2);
    }
  }

  /** `min` returns one of the argument values, and no argument value is smaller. */
  lemma {:induction false} MinIsLeastArgument(left: Slot, right: Node)
    requires Min(left, Some(right)).Ok?
    ensures var m := Min(left, Some(right)).value;
      && (exists i :: 0 <= i < GetLength(right) && Eval(right, Some(i)) == Ok(m))
      && forall i :: 0 <= i < GetLength(right) ==> Eval(right, Some(i)).Ok? && m <= Eval(right, Some(i)).value
  {
    var len := GetLength(right);
    ArgValuesAt(right, len);
    var vals := ArgValues(right, len).value;
    MinOfIsLeast(vals);
    var m := MinOf(vals);
    var j :| 0 <= j < |vals| && vals[j] == m;
    assert Eval(right, Some(j)) == Ok(m);
    forall i | 0 <= i < len
      ensures Eval(right, Some(i)).Ok? && m <= Eval(right, Some(i)).value
    {
      assert vals[i] in vals;
    }
  }

  /** `max` returns one of the argument values, and no argument value is larger. */
  lemma {:induction false} MaxIsGreatestArgument(left: Slot, right: Node)
    requires Max(left, Some(right)).Ok?
    ensures var m := Max(left, Some(right)).value;
      && (exists i :: 0 <= i < GetLength(right) && Eval(right, Some(i)) == Ok(m))
      && forall i :: 0 <= i < GetLength(right) ==> Eval(right, Some(i)).Ok? && Eval(right, Some(i)).value <= m
  {
    var len := GetLength(right);
    ArgValuesAt(right, len);
    var vals := ArgValues(right, len).value;
    MaxOfIsGreatest(vals);
    var m := MaxOf(vals);
    var j :| 0 <= j < |vals| && vals[j] == m;
    assert Eval(right, Some(j)) == Ok(m);
    forall i | 0 <= i < len
      ensures Eval(right, Some(i)).Ok? && Eval(right, Some(i)).value <= m
    {
      assert vals[i] in vals;
    }
  }

  /**
   * `factorial` as written reads only its right child: whatever the left
   * child is, the result is the product up to the right child's value, and
   * without a right child it fails, so the tree of a postfix `n!` fails.
   */
  lemma {:induction false} FactorialAsWrittenReadsRight(left: Slot, right: Slot)
    ensures FactorialAsWritten(left, right) == FactorialAsWritten(None, right)
    ensures right.None? ==> FactorialAsWritten(left, right) == Err(TypeError)
    ensures EvalSlot(right, None).Ok? ==>
      FactorialAsWritten(left, right) == Ok(FactorialUpTo(EvalSlot(right, None).value.Floor) as real)
  {
  }

  /**
   * The intended `factorial`: a postfix operand `n` gives 2·3·…·n, times the
   * juxtaposed term when there is one; the call form `factorial(x)` is
   * unchanged from the source.
   */
  lemma {:induction false} FactorialOfOperand(left: Slot, right: Slot)
    ensures left.None? ==> Factorial(left, right) == FactorialAsWritten(left, right)
    ensures left.Some? && EvalSlot(left, None).Err? ==> Factorial(left, right) == EvalSlot(left, None)
    ensures EvalSlot(left, None).Ok? && right.None? ==>
      Factorial(left, right) == Ok(FactorialUpTo(EvalSlot(left, None).value.Floor) as real)
  {
  }

  /** A term juxtaposed after a postfix `n!` multiplies the factorial. */
  lemma {:induction false} FactorialTimesJuxtaposed(operand: Node, juxtaposed: Node)
    requires Eval(operand, None).Ok? && Eval(juxtaposed, None).Ok?
    ensures Factorial(Some(operand), Some(juxtaposed)).Ok?
    ensures Factorial(Some(operand), Some(juxtaposed)).value ==
            (FactorialUpTo(Eval(operand, None).value.Floor) as real) * Eval(juxtaposed, None).value
  {
  }

  /**
   * The trees of `5!` and `3!2` as the parser builds them: evaluated as
   * written the first throws and the second gives 2! = 2; the intended
   * `factorial` gives 120 and 3!·2 = 12.
   */
  lemma FactorialPostfixExamples()
    ensures Eval(Node(Fn(FactorialFn), Some(Leaf(Num(5.0))), None), None) == Err(TypeError)
    ensures Factorial(Some(Leaf(Num(5.0))), None) == Ok(120.0)
    ensures Eval(Node(Fn(FactorialFn), Some(Leaf(Num(3.0))), Some(Leaf(Num(2.0)))), None) == Ok(2.0)
    ensures Factorial(Some(Leaf(Num(3.0))), Some(Leaf(Num(2.0)))) == Ok(12.0)
  {
    assert FactorialUpTo(5) == 120 && FactorialUpTo(3) == 6 && FactorialUpTo(2) == 2;
  }

  /**
   * `mod` on non-negative whole arguments 0 and 1 of the right list agrees
   * with the integer remainder.
   */
  lemma {:induction false} ModOfNaturals(left: Slot, right: Node, a: nat, b: nat)
    requires b > 0
    requires Eval(right, Some(0)) == Ok(a as real) && Eval(right, Some(1)) == Ok(b as real)
    ensures Mod(left, Some(right)) == Ok((a % b) as real)
  {
    TruncRemNatural(a, b);
  }

  /** `avg` lies between `min` and `max` of the same arguments. */
  lemma {:induction false} AvgIsBetween(left: Slot, right: Node)
    requires Avg(left, Some(right)).Ok?
    ensures Min(left, Some(right)).Ok? && Max(left, Some(right)).Ok?
    ensures Min(left, Some(right)).value <= Avg(left, Some(right)).value <= Max(left, Some(right)).value
  {
    var vals := ArgValues(right, GetLength(right)).value;
    assert Min(left, Some(right)) == Ok(MinOf(vals));
    assert Max(left, Some(right)) == Ok(MaxOf(vals));
    MeanBetween(vals);
  }

  /** `avg` times the number of arguments is their `sum`. */
  lemma {:induction false} AvgTimesCountIsSum(left: Slot, right: Node)
    requires Avg(left, Some(right)).Ok?
    ensures Sum(left, Some(right)).Ok?
    ensures Avg(left, Some(right)).value * (GetLength(right) as real) == Sum(left, Some(right)).value
  {
    var vals := ArgValues(right, GetLength(right)).value;
    ArgValuesAt(right, GetLength(right));
    var total := SumOf(vals);
    var n := GetLength(right) as real;
    assert Sum(left, Some(right)) == Ok(total);
    assert Avg(left, Some(right)) == Ok(total / n);
    DivideTimes(total, n);
  }

  /**
   * Where the intended `avg` is a number, the one written gives NaN: the
   * arguments of `avg(1, 2)` evaluate, the intended mean is 1.5, and the
   * division by `right.length` makes the evaluated tree NaN.
   */
  lemma {:induction false} AvgAsWrittenIsNaN(left: Slot, right: Node)
    requires Avg(left, Some(right)).Ok?
    ensures AvgAsWritten(left, Some(right)) == Err(NotANumber)
    ensures var oneTwo := Leaf(List([Some(Leaf(Num(1.0))), Some(Leaf(Num(2.0)))]));
            Avg(None, Some(oneTwo)) == Ok(1.5) && Eval(Node(Fn(AvgFn), None, Some(oneTwo)), None) == Err(NotANumber)
  {
    AvgOfOneTwo();
  }

  /** The arguments of `avg(1, 2)`: their mean is 1.5, and the evaluated node is NaN. */
  lemma AvgOfOneTwo()
    ensures var oneTwo := Leaf(List([Some(Leaf(Num(1.0))), Some(Leaf(Num(2.0)))]));
            Avg(None, Some(oneTwo)) == Ok(1.5) && Eval(Node(Fn(AvgFn), None, Some(oneTwo)), None) == Err(NotANumber)
  {
    var oneTwo := Leaf(List([Some(Leaf(Num(1.0))), Some(Leaf(Num(2.0)))]));
    assert Eval(oneTwo, Some(0)) == Ok(1.0);
    assert Eval(oneTwo, Some(1)) == Ok(2.0);
    ArgValuesAt(oneTwo, 2);
    SumOfPrefix([1.0, 2.0], 2);
  }
}
