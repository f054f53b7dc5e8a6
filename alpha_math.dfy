/**
 * The catalogue functions whose bodies are loops: `sum`, `avg`, `min` and
 * `max` walk the argument indices of their right child, updating an
 * accumulator, and `factorial` multiplies up to its operand. Each method is
 * proved to return what the evaluator's function of the same name says;
 * `avg` and `factorial` come twice, as written and as evidently intended.
 */
module AlphaMath {
  import opened Outcomes
  import opened ExpressionTree
  import opened Arith
  import Evaluator
  import ParserSpec

  /**
   * The functions the script defines at global scope, by the name a formula
   * spells them with. Those whose exact meaning is modelled map to their own
   * kind; the floating-point wrappers, `count` and `random` are uninterpreted
   * library functions.
   */
  const Catalogue: ParserSpec.Registry := map[
    "add" := AddOp, "subtract" := SubtractOp, "multiply" := MultiplyOp,
    "divide" := DivideOp, "pow" := PowOp, "mod" := ModFn,
    "sum" := SumFn, "avg" := AvgFn, "min" := MinFn, "max" := MaxFn,
    "factorial" := FactorialFn,
    "abs" := LibraryFn("abs"), "recip" := LibraryFn("recip"), "inv" := LibraryFn("inv"),
    "sqrt" := LibraryFn("sqrt"), "nthrt" := LibraryFn("nthrt"), "ln" := LibraryFn("ln"),
    "log" := LibraryFn("log"), "logBase" := LibraryFn("logBase"),
    "sin" := LibraryFn("sin"), "cos" := LibraryFn("cos"), "tan" := LibraryFn("tan"),
    "asin" := LibraryFn("asin"), "acos" := LibraryFn("acos"), "atan" := LibraryFn("atan"),
    "sec" := LibraryFn("sec"), "csc" := LibraryFn("csc"), "cot" := LibraryFn("cot"),
    "asec" := LibraryFn("asec"), "acsc" := LibraryFn("acsc"), "acot" := LibraryFn("acot"),
    "count" := LibraryFn("count"), "random" := LibraryFn("random")
  ]

  /** `total += right.evaluateExpression(i)` for every index below `right.getLength()`. */
  method Sum(left: Slot, right: Slot) returns (r: Result<real>)
    ensures r == Evaluator.Sum(left, right)
  {
    if right.None? {
      return Err(TypeError);
    }
    var node := right.value;
    var total := 0.0;
    var i := 0;
    while i < GetLength(node)
      invariant 0 <= i <= GetLength(node)
      invariant Evaluator.ArgValues(node, i).Ok?
      invariant total == SumOf(Evaluator.ArgValues(node, i).value)
    {
      var v := Evaluator.Eval(node, Some(i));
      if v.Err? {
        Evaluator.ArgValuesFailurePersists(node, i + 1, GetLength(node));
        return Err(v.error);
      }
      total := total + v.value;
      i := i + 1;
    }
    return Ok(total);
  }

  /**
   * `avg` as written: the same loop as `sum`, then the division by
   * `right.length`, which is undefined on a node, so the quotient is NaN
   * whenever the loop completes.
   */
  method AvgAsWritten(left: Slot, right: Slot) returns (r: Result<real>)
    ensures r == Evaluator.AvgAsWritten(left, right)
  {
    if right.None? {
      return Err(TypeError);
    }
    var node := right.value;
    var average := 0.0;
    var i := 0;
    while i < GetLength(node)
      invariant 0 <= i <= GetLength(node)
      invariant Evaluator.ArgValues(node, i).Ok?
      invariant average == SumOf(Evaluator.ArgValues(node, i).value)
    {
      var v := Evaluator.Eval(node, Some(i));
      if v.Err? {
        Evaluator.ArgValuesFailurePersists(node, i + 1, GetLength(node));
        return Err(v.error);
      }
      average := average + v.value;
      i := i + 1;
    }
    return Err(NotANumber);
  }

  /**
   * `average += right.evaluateExpression(i)` for every index below
   * `right.getLength()`, then the division by the number of arguments that
   * `avg` evidently intends (the source divides by `right.length`).
   */
  method Avg(left: Slot, right: Slot) returns (r: Result<real>)
    ensures r == Evaluator.Avg(left, right)
  {
    if right.None? {
      return Err(TypeError);
    }
    var node := right.value;
    var average := 0.0;
    var i := 0;
    while i < GetLength(node)
      invariant 0 <= i <= GetLength(node)
      invariant Evaluator.ArgValues(node, i).Ok?
      invariant |Evaluator.ArgValues(node, i).value| == i
      invariant average == SumOf(Evaluator.ArgValues(node, i).value)
    {
      var v := Evaluator.Eval(node, Some(i));
      if v.Err? {
        Evaluator.ArgValuesFailurePersists(node, i + 1, GetLength(node));
        return Err(v.error);
      }
      average := average + v.value;
      i := i + 1;
    }
    if GetLength(node) == 0 {
      return Err(NotANumber);
    }
    return Ok(average / (GetLength(node) as real));
  }

  /** Start from argument 0 and keep any later argument that is strictly smaller. */
  method Min(left: Slot, right: Slot) returns (r: Result<real>)
    ensures r == Evaluator.Min(left, right)
  {
    if right.None? {
      return Err(TypeError);
    }
    var node := right.value;
    var first := Evaluator.Eval(node, Some(0));
    if first.Err? {
      if GetLength(node) > 0 {
        Evaluator.ArgValuesFailurePersists(node, 1, GetLength(node));
      }
      return Err(first.error);
    }
    var min := first.value;
    var i := 1;
    while i < GetLength(node)
      invariant 1 <= i <= GetLength(node)
      invariant Evaluator.ArgValues(node, i).Ok?
      invariant |Evaluator.ArgValues(node, i).value| == i
      invariant min == MinOf(Evaluator.ArgValues(node, i).value)
    {
      var m := Evaluator.Eval(node, Some(i));
      if m.Err? {
        Evaluator.ArgValuesFailurePersists(node, i + 1, GetLength(node));
        return Err(m.error);
      }
      MinOfSnoc(Evaluator.ArgValues(node, i).value, m.value);
      if m.value < min {
        min := m.value;
      }
      i := i + 1;
    }
    return Ok(min);
  }

  /** Start from argument 0 and keep any later argument that is strictly larger. */
  method Max(left: Slot, right: Slot) returns (r: Result<real>)
    ensures r == Evaluator.Max(left, right)
  {
    if right.None? {
      return Err(TypeError);
    }
    var node := right.value;
    var first := Evaluator.Eval(node, Some(0));
    if first.Err? {
      if GetLength(node) > 0 {
        Evaluator.ArgValuesFailurePersists(node, 1, GetLength(node));
      }
      return Err(first.error);
    }
    var max := first.value;
    var i := 1;
    while i < GetLength(node)
      invariant 1 <= i <= GetLength(node)
      invariant Evaluator.ArgValues(node, i).Ok?
      invariant |Evaluator.ArgValues(node, i).value| == i
      invariant max == MaxOf(Evaluator.ArgValues(node, i).value)
    {
      var m := Evaluator.Eval(node, Some(i));
      if m.Err? {
        Evaluator.ArgValuesFailurePersists(node, i + 1, GetLength(node));
        return Err(m.error);
      }
      MaxOfSnoc(Evaluator.ArgValues(node, i).value, m.value);
      if m.value > max {
        max := m.value;
      }
      i := i + 1;
    }
    return Ok(max);
  }

  /** The loop of `factorial`: `factorial *= i` for `i = 2, 3, ...` while `i` does not exceed `v`. */
  method ProductUpTo(v: real) returns (factorial: nat)
    ensures factorial == FactorialUpTo(v.Floor)
  {
    factorial := 1;
    var i := 2;
    while i as real <= v
      invariant 2 <= i
      invariant i == 2 || i - 1 <= v.Floor
      invariant factorial == FactorialUpTo(i - 1)
      decreases v.Floor + 1 - i
    {
      factorial := factorial * i;
      i := i + 1;
    }
  }

  /** `factorial` as written: the product up to the value of the right child. */
  method FactorialAsWritten(left: Slot, right: Slot) returns (r: Result<real>)
    ensures r == Evaluator.FactorialAsWritten(left, right)
  {
    var v := Evaluator.EvalSlot(right, None);
    if v.Err? {
      return Err(v.error);
    }
    var factorial := ProductUpTo(v.value);
    return Ok(factorial as real);
  }

  /**
   * `factorial` with the operand it evidently intends: the left child of a
   * postfix `n!` (the source reads the right child, see
   * `Evaluator.FactorialAsWritten`), or the argument of `factorial(x)`; a
   * juxtaposed right child multiplies the product.
   */
  method Factorial(left: Slot, right: Slot) returns (r: Result<real>)
    ensures r == Evaluator.Factorial(left, right)
  {
    var operand := if left.Some? then left else right;
    var v := Evaluator.EvalSlot(operand, None);
    if v.Err? {
      return Err(v.error);
    }
    var factorial := ProductUpTo(v.value);
    if left.None? || right.None? {
      return Ok(factorial as real);
    }
    var w := Evaluator.EvalSlot(right, None);
    if w.Err? {
      return Err(w.error);
    }
    Evaluator.FactorialTimesJuxtaposed(left.value, right.value);
    r := Ok((factorial as real) * w.value);
    assert r.value == Evaluator.Factorial(left, right).value;
  }
}
