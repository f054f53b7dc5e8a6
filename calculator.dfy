/**
 * Parsing followed by evaluation, as the page does with
 * `parser.parse(text).evaluateExpression()`, and what that computes for
 * whole families of inputs: decimal and fractional literals, the
 * precedence and associativity of two operators (and how a chain of three,
 * `a-b*c-d`, is grouped against precedence), postfix `!`, unary minus,
 * implicit products, parentheses, function calls, and malformed input
 * (empty, an unclosed `(`, a comma outside any call).
 */
module Calculator {
  import opened Outcomes
  import opened ExpressionTree
  import opened ParserSpec
  import opened ParserProperties
  import opened Arith
  import Evaluator

  /** Parse, then evaluate the root without an index; an empty parse leaves nothing to call. */
  function Calculate(registry: Registry, s: string): Result<real>
  {
    var root :- Parse(registry, s);
    if root.None? then Err(TypeError) else Evaluator.Eval(root.value, None)
  }

  // ----- decimal literals -----

  function DigitChar(d: nat): (c: char)
    requires d < 10
    ensures IsDigit(c) && DigitValue(c) == d
  {
    ('0' as int + d) as char
  }

  /** The shortest decimal spelling of `n`, as `n.toString()` writes it. */
  function Decimal(n: nat): (d: string)
    ensures |d| >= 1 && forall k :: 0 <= k < |d| ==> IsDigit(d[k])
  {
    if n < 10 then [DigitChar(n)] else Decimal(n / 10) + [DigitChar(n % 10)]
  }

  /** The value of digits `t[a..b]` does not depend on what follows them. */
  lemma {:induction false} DigitsValuePrefix(t: string, u: string, a: nat, b: nat)
    requires a <= b <= |t| && forall k :: a <= k < b ==> IsDigit(t[k])
    ensures DigitsValue(t + u, a, b) == DigitsValue(t, a, b)
    decreases b
  {
    if b > a {
      DigitsValuePrefix(t, u, a, b - 1);
    }
  }

  /** Reading the digits of `Decimal(n)` gives `n` back. */
  lemma {:induction false} DecimalValue(n: nat)
    ensures DigitsValue(Decimal(n), 0, |Decimal(n)|) == n
  {
    if n >= 10 {
      var d := Decimal(n);
      var p := Decimal(n / 10);
      assert d == p + [DigitChar(n % 10)];
      DigitsValuePrefix(p, [DigitChar(n % 10)], 0, |p|);
      DecimalValue(n / 10);
    }
  }

  /** `parseFloat` of a run of digits is its decimal value. */
  lemma {:induction false} ParseFloatOfDigits(t: string, i: nat, e: nat)
    requires i < e <= |t| && forall k :: i <= k < e ==> IsDigit(t[k])
    ensures ParseFloatIn(t, i, e) == Num(DigitsValue(t, i, e) as real)
  {
    assert !IsJsWhitespace(t[i]);
    DigitsToEnd(t, i, e);
  }

  lemma {:induction false} DigitsToEnd(t: string, k: nat, e: nat)
    requires k <= e <= |t| && forall m :: k <= m < e ==> IsDigit(t[m])
    ensures DigitEnd(t, k, e) == e
    decreases e - k
  {
    if k < e {
      DigitsToEnd(t, k + 1, e);
    }
  }

  /** The number-scanning loop stops exactly at the end of a run of digits. */
  lemma {:induction false} ScanDigits(s: string, i: nat, k: int, d: string)
    requires i <= k < i + |d| && Spells(s, i, d)
    requires forall m :: 0 <= m < |d| ==> IsDigit(d[m])
    requires i + |d| == |s| || !IsNumberChar(Some(s[i + |d|]))
    ensures ScanEnd(s, k, NumberRun) == if i + |d| == |s| then |s| else i + |d| - 1
    decreases i + |d| - k
  {
    if k < i + |d| - 1 {
      assert s[k + 1] == d[k + 1 - i];
      ScanDigits(s, i, k + 1, d);
    } else if i + |d| == |s| {
      assert ScanEnd(s, |s|, NumberRun) == |s|;
    }
  }

  /** One round of the main loop, when it starts successfully, followed by the rest of the loop. */
  lemma {:induction false} ParseFromStep(registry: Registry, s: string, i: int, stack: Stack, next: State)
    requires 0 <= i < |s| && Step(registry, s, i, stack) == Ok(next)
    ensures ParseFrom(registry, s, i, stack) == ParseFrom(registry, s, next.index, next.stack)
  {
  }

  /** The round of the main loop that starts on a digit is a number round. */
  lemma DigitStep(registry: Registry, s: string, i: int, stack: Stack)
    requires 0 <= i < |s| && IsDigit(s[i])
    ensures Step(registry, s, i, stack) == Ok(NumberRound(s, i, stack))
  {
    assert IsNumberChar(Some(s[i]));
  }

  /** The round of the main loop that starts on an operator or `!`. */
  lemma {:induction false} OperatorCharStep(registry: Registry, s: string, i: int, stack: Stack)
    requires 0 <= i < |s| && (IsOperatorChar(s[i]) || s[i] == '!')
    ensures Step(registry, s, i, stack) == Ok(State(i + 1, Pap(stack, Leaf(Fn(FunctionFromOperator(s[i]))))))
  {
    OperatorIsNoNumber(s[i]);
  }

  /** Operator characters and `!` are neither digits, white space nor `.`. */
  lemma OperatorIsNoNumber(c: char)
    requires IsOperatorChar(c) || c == '!'
    ensures !IsNumberChar(Some(c))
  {
    assert !IsDigit(c) && !IsJsWhitespace(c) && c != '.';
  }

  /** `d` is written in `s` starting at position `i`. */
  predicate Spells(s: string, i: nat, d: string)
  {
    i + |d| <= |s| && forall k :: 0 <= k < |d| ==> s[i + k] == d[k]
  }

  lemma {:induction false} SpellsSlice(s: string, i: nat, d: string)
    requires Spells(s, i, d)
    ensures s[i..i + |d|] == d
  {
    assert forall k :: 0 <= k < |d| ==> s[i..i + |d|][k] == d[k];
  }

  /**
   * The number round on the decimal literal of `n` at position `i` scans
   * exactly that literal and places a number node holding `n`.
   */
  lemma {:induction false} LiteralRound(s: string, i: nat, n: nat, stack: Stack)
    requires Spells(s, i, Decimal(n))
    requires i + |Decimal(n)| == |s| || !IsNumberChar(Some(s[i + |Decimal(n)|]))
    ensures var e := i + |Decimal(n)|;
            NumberRound(s, i, stack) == State(if e == |s| then e + 1 else e, Place(stack, Lit(n), CharAt(s, e)))
  {
    LiteralToken(s, i, n);
    ParseFloatOfDecimal(n);
  }

  /** The number scan from the start of the literal of `n` reads exactly that literal. */
  lemma {:induction false} LiteralToken(s: string, i: nat, n: nat)
    requires Spells(s, i, Decimal(n))
    requires i + |Decimal(n)| == |s| || !IsNumberChar(Some(s[i + |Decimal(n)|]))
    ensures var e := i + |Decimal(n)|;
            var j := ScanEnd(s, i, NumberRun);
            j + 1 == (if e == |s| then e + 1 else e) && CharAt(s, j + 1) == CharAt(s, e) &&
            Token(s, i, j) == Decimal(n)
  {
    ScanDigits(s, i, i, Decimal(n));
    SpellsSlice(s, i, Decimal(n));
  }

  /** `parseFloat` of the decimal literal of `n` is `n`. */
  lemma {:induction false} ParseFloatOfDecimal(n: nat)
    ensures ParseFloat(Decimal(n)) == Num(n as real)
  {
    ParseFloatOfDigits(Decimal(n), 0, |Decimal(n)|);
    DecimalValue(n);
  }

  /** The round of the main loop at the decimal literal of `n` reads that literal. */
  lemma {:induction false} LiteralStep(registry: Registry, s: string, i: nat, n: nat, stack: Stack)
    requires Spells(s, i, Decimal(n))
    requires i + |Decimal(n)| == |s| || !IsNumberChar(Some(s[i + |Decimal(n)|]))
    ensures var e := i + |Decimal(n)|;
            Step(registry, s, i, stack) ==
            Ok(State(if e == |s| then e + 1 else e, Place(stack, Lit(n), CharAt(s, e))))
  {
    assert s[i] == Decimal(n)[0];
    DigitStep(registry, s, i, stack);
    LiteralRound(s, i, n, stack);
  }

  /**
   * A decimal literal that ends the input is read as one number node and
   * the main loop stops with it placed on the stack.
   */
  lemma {:induction false} LiteralAtEnd(registry: Registry, s: string, i: nat, n: nat, stack: Stack)
    requires Spells(s, i, Decimal(n)) && i + |Decimal(n)| == |s|
    ensures ParseFrom(registry, s, i, stack) == Finish(Place(stack, Lit(n), None))
  {
    var placed := Place(stack, Lit(n), None);
    LiteralStep(registry, s, i, n, stack);
    ParseFromStep(registry, s, i, stack, State(|s| + 1, placed));
    ParseFromPastEnd(registry, s, placed);
  }

  /** Past the end of the input the main loop has also stopped. */
  lemma {:induction false} ParseFromPastEnd(registry: Registry, s: string, stack: Stack)
    ensures ParseFrom(registry, s, |s| + 1, stack) == Finish(stack)
  {
  }

  /** At the end of input, a stack of chainable nodes folds into its right spine. */
  lemma {:induction false} FinishChain(seg: Stack)
    requires AllChainable(seg) && seg != []
    ensures Finish(seg) == Ok(Spine(seg[..|seg| - 1], seg[|seg| - 1]))
  {
    if |seg| > 1 {
      IparcSpine([], seg);
      assert [] + seg == seg;
      var root := Spine(seg[..|seg| - 1], seg[|seg| - 1]);
      assert CloseGroup(seg) == Ok(Split([], root));
      assert Reduce(seg) == Reduce([root]);
    }
  }

  function Lit(n: nat): Node
  {
    Leaf(Num(n as real))
  }

  /** A decimal literal parses to a number node holding its value. */
  lemma {:induction false} ParseDecimal(registry: Registry, n: nat)
    ensures Parse(registry, Decimal(n)) == Ok(Some(Lit(n)))
  {
    var d := Decimal(n);
    assert Spells(d, 0, d);
    LiteralAtEnd(registry, d, 0, n, []);
    assert Place([], Lit(n), None) == [Some(Lit(n))];
  }

  /** Reading a decimal literal and evaluating it gives its value back. */
  lemma {:induction false} LiteralRoundTrip(registry: Registry, n: nat)
    ensures Calculate(registry, Decimal(n)) == Ok(n as real)
  {
    ParseDecimal(registry, n);
  }

  // ----- fractional literals -----

  predicate AllDigits(d: string)
  {
    forall k :: 0 <= k < |d| ==> IsDigit(d[k])
  }

  /** The value a literal `ip.fp` denotes: the integer digits plus the fraction digits over 10^|fp|. */
  function LiteralValue(ip: string, fp: string): real
    requires AllDigits(ip) && AllDigits(fp)
  {
    DigitsValue(ip, 0, |ip|) as real + DigitsValue(fp, 0, |fp|) as real / Pow10(|fp|) as real
  }

  /** The value of digits does not depend on what precedes them. */
  lemma {:induction false} DigitsValueShift(p: string, u: string, a: nat, b: nat)
    requires a <= b <= |u| && forall k :: a <= k < b ==> IsDigit(u[k])
    ensures forall k :: |p| + a <= k < |p| + b ==> IsDigit((p + u)[k])
    ensures DigitsValue(p + u, |p| + a, |p| + b) == DigitsValue(u, a, b)
    decreases b
  {
    assert forall k :: |p| + a <= k < |p| + b ==> (p + u)[k] == u[k - |p|];
    if b > a {
      DigitsValueShift(p, u, a, b - 1);
    }
  }

  /** The digit scan from `k` stops at the first non-digit `b`. */
  lemma {:induction false} DigitsThenStop(t: string, k: nat, b: nat, e: nat)
    requires k <= b < e <= |t| && !IsDigit(t[b])
    requires forall m :: k <= m < b ==> IsDigit(t[m])
    ensures DigitEnd(t, k, e) == b
    decreases b - k
  {
    if k < b {
      DigitsThenStop(t, k + 1, b, e);
    }
  }

  /** A token of number characters is scanned to the end of the input. */
  lemma {:induction false} ScanNumberToEnd(s: string, i: nat)
    requires i <= |s| && forall k :: i <= k < |s| ==> IsNumberChar(Some(s[k]))
    ensures ScanEnd(s, i, NumberRun) == |s|
    decreases |s| - i
  {
    if i < |s| {
      ScanNumberToEnd(s, i + 1);
    }
  }

  /** An input made only of number characters is one literal: it parses to the node `parseFloat` gives. */
  lemma {:induction false} NumberLiteralParses(registry: Registry, t: string)
    requires t != [] && forall k :: 0 <= k < |t| ==> IsNumberChar(Some(t[k]))
    ensures Parse(registry, t) == Ok(Some(Leaf(ParseFloat(t))))
  {
    ScanNumberToEnd(t, 0);
    assert Token(t, 0, |t|) == t;
    var node := Leaf(ParseFloat(t));
    assert IsNumberChar(Some(t[0]));
    assert NumberRound(t, 0, []) == State(|t| + 1, Place([], node, None));
    assert Place([], node, None) == [Some(node)];
    ParseFromStep(registry, t, 0, [], State(|t| + 1, [Some(node)]));
    ParseFromPastEnd(registry, t, [Some(node)]);
  }

  /** `parseFloat` of `ip.fp` is the literal's value, whenever one of the two parts has a digit. */
  lemma {:induction false} ParseFloatOfFraction(ip: string, fp: string)
    requires AllDigits(ip) && AllDigits(fp) && |ip| + |fp| >= 1
    ensures ParseFloat(ip + "." + fp) == Num(LiteralValue(ip, fp))
  {
    var t := ip + "." + fp;
    var n := |ip|;
    assert t == ip + ("." + fp);
    assert t == (ip + ".") + fp;
    assert t[n] == '.';
    assert !IsJsWhitespace(t[0]) by {
      if n > 0 { assert t[0] == ip[0]; }
    }
    assert SpaceEnd(t, 0, |t|) == 0;
    assert forall m :: 0 <= m < n ==> t[m] == ip[m];
    DigitsThenStop(t, 0, n, |t|);
    DigitsValueShift(ip + ".", fp, 0, |fp|);
    DigitsToEnd(t, n + 1, |t|);
    DigitsValuePrefix(ip, "." + fp, 0, n);
  }

  /**
   * Reading a literal with a decimal point (`2.5`, `.5`, `0.25`, `3.`) and
   * evaluating it gives the value it denotes.
   */
  lemma {:induction false} FractionalRoundTrip(registry: Registry, ip: string, fp: string)
    requires AllDigits(ip) && AllDigits(fp) && |ip| + |fp| >= 1
    ensures Calculate(registry, ip + "." + fp) == Ok(LiteralValue(ip, fp))
  {
    var t := ip + "." + fp;
    assert forall k :: 0 <= k < |t| ==> IsNumberChar(Some(t[k])) by {
      forall k | 0 <= k < |t|
        ensures IsNumberChar(Some(t[k]))
      {
        if k < |ip| {
          assert t[k] == ip[k];
        } else if k > |ip| {
          assert t[k] == fp[k - |ip| - 1];
        }
      }
    }
    NumberLiteralParses(registry, t);
    ParseFloatOfFraction(ip, fp);
  }

  // ----- postfix factorial -----

  /**
   * `n!` parses into a factorial node whose LEFT child is `n`. The
   * `factorial` as written reads only the right child, so evaluating this
   * tree throws, while the intended `factorial` gives 2·3·…·n for it.
   */
  lemma {:induction false} PostfixFactorial(registry: Registry, n: nat)
    ensures Parse(registry, Decimal(n) + "!") == Ok(Some(Node(Fn(FactorialFn), Some(Lit(n)), None)))
    ensures Calculate(registry, Decimal(n) + "!") == Err(TypeError)
    ensures Evaluator.Factorial(Some(Lit(n)), None) == Ok(FactorialUpTo(n) as real)
  {
    PostfixFactorialParses(registry, n);
    assert (n as real).Floor == n;
    assert Evaluator.EvalSlot(Some(Lit(n)), None) == Ok(n as real);
    Evaluator.FactorialOfOperand(Some(Lit(n)), None);
    Evaluator.FactorialAsWrittenReadsRight(Some(Lit(n)), None);
    assert Evaluator.Eval(Node(Fn(FactorialFn), Some(Lit(n)), None), None) == Err(TypeError);
  }

  /** The main loop on `n!`: a number round, then PAP of the factorial node, then the end. */
  lemma {:induction false} PostfixFactorialParses(registry: Registry, n: nat)
    ensures Parse(registry, Decimal(n) + "!") == Ok(Some(Node(Fn(FactorialFn), Some(Lit(n)), None)))
  {
    var s := Decimal(n) + "!";
    var e := |Decimal(n)|;
    var root := Node(Fn(FactorialFn), Some(Lit(n)), None);
    PostfixFactorialRounds(registry, n);
    ParseFromStep(registry, s, 0, [], State(e, [Some(Lit(n))]));
    ParseFromStep(registry, s, e, [Some(Lit(n))], State(e + 1, [Some(root)]));
    assert ParseFrom(registry, s, e + 1, [Some(root)]) == Finish([Some(root)]);
  }

  /** The two rounds of the main loop on `n!`. */
  lemma {:induction false} PostfixFactorialRounds(registry: Registry, n: nat)
    ensures var s := Decimal(n) + "!";
            var e := |Decimal(n)|;
            && Step(registry, s, 0, []) == Ok(State(e, [Some(Lit(n))]))
            && Step(registry, s, e, [Some(Lit(n))]) ==
               Ok(State(e + 1, [Some(Node(Fn(FactorialFn), Some(Lit(n)), None))]))
  {
    var d := Decimal(n);
    var s := d + "!";
    var e := |d|;
    assert Spells(s, 0, d);
    assert s[e] == '!';
    OperatorIsNoNumber('!');
    LiteralStep(registry, s, 0, n, []);
    assert Place([], Lit(n), Some('!')) == [Some(Lit(n))];
    OperatorCharStep(registry, s, e, [Some(Lit(n))]);
  }

  // ----- two binary operators -----

  /**
   * The operator characters `+ - * / ^`, named on their own so that the
   * five-way case split stays folded in the proofs below until it is needed.
   */
  predicate IsBinaryOperator(c: char)
  {
    IsOperatorChar(c)
  }

  /** The operator node PAP builds with `left` already attached. */
  function Pending(c: char, left: Node): Node
    requires IsBinaryOperator(c)
  {
    Node(Fn(FunctionFromOperator(c)), Some(left), None)
  }

  function Binary(c: char, left: Node, right: Node): Node
    requires IsBinaryOperator(c)
  {
    Node(Fn(FunctionFromOperator(c)), Some(left), Some(right))
  }

  /** The stack once `a o1 b` and the second operator have been read. */
  function StackBeforeLast(a: nat, o1: char, b: nat, o2: char): Stack
    requires IsBinaryOperator(o1) && IsBinaryOperator(o2)
  {
    if AttachesEagerly(FunctionFromOperator(o1), o2)
    then [Some(Pending(o2, Binary(o1, Lit(a), Lit(b))))]
    else [Some(Pending(o1, Lit(a))), Some(Pending(o2, Lit(b)))]
  }

  /** The tree `a o1 b o2 c` is parsed into. */
  function TwoOperatorTree(a: nat, o1: char, b: nat, o2: char, c: nat): Node
    requires IsBinaryOperator(o1) && IsBinaryOperator(o2)
  {
    if AttachesEagerly(FunctionFromOperator(o1), o2)
    then Binary(o2, Binary(o1, Lit(a), Lit(b)), Lit(c))
    else Binary(o1, Lit(a), Binary(o2, Lit(b), Lit(c)))
  }

  /** The stack changes while `b o2` is read. */
  lemma {:induction false} SecondOperatorStacks(a: nat, o1: char, b: nat, o2: char)
    requires IsBinaryOperator(o1) && IsBinaryOperator(o2)
    ensures Pap(Place([Some(Pending(o1, Lit(a)))], Lit(b), Some(o2)), Leaf(Fn(FunctionFromOperator(o2)))) ==
            StackBeforeLast(a, o1, b, o2)
  {
    var afterB := Place([Some(Pending(o1, Lit(a)))], Lit(b), Some(o2));
    if AttachesEagerly(FunctionFromOperator(o1), o2) {
      assert afterB == [Some(Binary(o1, Lit(a), Lit(b)))];
    } else {
      assert afterB == [Some(Pending(o1, Lit(a))), Some(Lit(b))];
    }
  }

  /** The stack at the end of `a o1 b o2 c` folds into the expected tree. */
  lemma {:induction false} LastOperandStacks(a: nat, o1: char, b: nat, o2: char, c: nat)
    requires IsBinaryOperator(o1) && IsBinaryOperator(o2)
    ensures Finish(Place(StackBeforeLast(a, o1, b, o2), Lit(c), None)) == Ok(Some(TwoOperatorTree(a, o1, b, o2, c)))
  {
    var before := StackBeforeLast(a, o1, b, o2);
    var last := Place(before, Lit(c), None);
    assert last == before + [Some(Lit(c))];
    assert AllChainable(last);
    FinishChain(last);
    assert last[..|last| - 1] == before;
    if AttachesEagerly(FunctionFromOperator(o1), o2) {
      assert before[1..] == [];
    } else {
      assert before[1..] == [Some(Pending(o2, Lit(b)))];
      assert before[1..][1..] == [];
      assert Spine(before[1..], Some(Lit(c))) == Some(Binary(o2, Lit(b), Lit(c)));
      assert Spine(before, Some(Lit(c))) == Some(TwoOperatorTree(a, o1, b, o2, c));
    }
  }

  /**
   * The stack operations the main loop performs for the tokens `a o1 b o2 c`
   * (place `a`, PAP `o1`, place `b`, PAP `o2`, place `c`, fold at the end)
   * build `TwoOperatorTree`: grouped to the left exactly when the precedence
   * test lets `b` attach to `o1` at once, and to the right otherwise.
   */
  lemma {:induction false} TwoOperatorsGrouping(a: nat, o1: char, b: nat, o2: char, c: nat)
    requires IsBinaryOperator(o1) && IsBinaryOperator(o2)
    ensures var afterA := Pap(Place([], Lit(a), Some(o1)), Leaf(Fn(FunctionFromOperator(o1))));
            var afterB := Pap(Place(afterA, Lit(b), Some(o2)), Leaf(Fn(FunctionFromOperator(o2))));
            Finish(Place(afterB, Lit(c), None)) == Ok(Some(TwoOperatorTree(a, o1, b, o2, c)))
  {
    assert Place([], Lit(a), Some(o1)) == [Some(Lit(a))];
    assert Pap([Some(Lit(a))], Leaf(Fn(FunctionFromOperator(o1)))) == [Some(Pending(o1, Lit(a)))];
    SecondOperatorStacks(a, o1, b, o2);
    LastOperandStacks(a, o1, b, o2, c);
  }

  /**
   * What the grouping of two operators means for values: `*` and `/`
   * before `+` and `-`, `-` grouped to the left, `^` grouped to the right.
   * Chains of three or more operators can be grouped otherwise; see
   * `ThreeOperatorChain`.
   */
  lemma PrecedenceExamples()
    ensures Evaluator.Eval(TwoOperatorTree(2, '+', 3, '*', 4), None) == Ok(14.0)
    ensures Evaluator.Eval(TwoOperatorTree(2, '*', 3, '+', 4), None) == Ok(10.0)
    ensures Evaluator.Eval(TwoOperatorTree(8, '-', 3, '-', 2), None) == Ok(3.0)
    ensures Evaluator.Eval(TwoOperatorTree(2, '^', 1, '^', 2), None) == Ok(2.0)
  {
    assert AttachesEagerly(MultiplyOp, '+');
    assert AttachesEagerly(SubtractOp, '-');
    assert !AttachesEagerly(AddOp, '*');
    assert !AttachesEagerly(PowOp, '^');
    assert RealPow(1.0, 2) == 1.0;
    assert RealPow(2.0, 1) == 2.0;
  }

  // ----- longer chains: the test looks at one operator pair only -----

  /** The stack after `a-b*`: both operators pending, since `b` does not attach to `-` before `*`. */
  lemma {:induction false} ChainProductPending(a: nat, b: nat)
    ensures Pap(Place(Pap(Place([], Lit(a), Some('-')), Leaf(Fn(SubtractOp))), Lit(b), Some('*')), Leaf(Fn(MultiplyOp))) ==
            [Some(Pending('-', Lit(a))), Some(Pending('*', Lit(b)))]
  {
    assert Place([], Lit(a), Some('-')) == [Some(Lit(a))];
    assert Pap([Some(Lit(a))], Leaf(Fn(SubtractOp))) == [Some(Pending('-', Lit(a)))];
    assert !AttachesEagerly(SubtractOp, '*');
    assert Place([Some(Pending('-', Lit(a)))], Lit(b), Some('*')) == [Some(Pending('-', Lit(a))), Some(Lit(b))];
  }

  /**
   * The stack after `a-b*c-`: `c` attaches to `*` before `-`, and the
   * second `-` then adopts `b*c` as its left operand, while the first `-`
   * stays pending below it.
   */
  lemma {:induction false} ChainSecondMinus(a: nat, b: nat, c: nat)
    ensures Pap(Place([Some(Pending('-', Lit(a))), Some(Pending('*', Lit(b)))], Lit(c), Some('-')), Leaf(Fn(SubtractOp))) ==
            [Some(Pending('-', Lit(a))), Some(Pending('-', Binary('*', Lit(b), Lit(c))))]
  {
    var before := [Some(Pending('-', Lit(a))), Some(Pending('*', Lit(b)))];
    assert AttachesEagerly(MultiplyOp, '-');
    var placed := [Some(Pending('-', Lit(a))), Some(Binary('*', Lit(b), Lit(c)))];
    assert Place(before, Lit(c), Some('-')) == placed;
    assert !NoLeftOperand(placed);
  }

  /** At the end of input, two pending operators and a last operand fold to the right. */
  lemma {:induction false} FinishTwoPending(o1: char, x: Node, o2: char, y: Node, z: Node)
    requires IsBinaryOperator(o1) && IsBinaryOperator(o2) && !IsScopeMarker(z.op)
    ensures Finish([Some(Pending(o1, x)), Some(Pending(o2, y)), Some(z)]) == Ok(Some(Binary(o1, x, Binary(o2, y, z))))
  {
    var init := [Some(Pending(o1, x)), Some(Pending(o2, y))];
    var last := init + [Some(z)];
    assert AllChainable(last);
    FinishChain(last);
    assert last[..2] == init;
    assert init[1..] == [Some(Pending(o2, y))];
    assert init[1..][1..] == [];
    assert Spine(init[1..], Some(z)) == Some(Binary(o2, y, z));
    assert last == [Some(Pending(o1, x)), Some(Pending(o2, y)), Some(z)];
  }

  /**
   * The stack operations for `a-b*c-d` build `a-((b*c)-d)`: the precedence
   * test compares only the operator on top of the stack with the next
   * character, so the first `-` never sees the second one, and the chain
   * is grouped to the right of `a`.
   */
  lemma {:induction false} ThreeOperatorChain(a: nat, b: nat, c: nat, d: nat)
    ensures var afterMul := Pap(Place(Pap(Place([], Lit(a), Some('-')), Leaf(Fn(SubtractOp))), Lit(b), Some('*')), Leaf(Fn(MultiplyOp)));
            var afterMinus := Pap(Place(afterMul, Lit(c), Some('-')), Leaf(Fn(SubtractOp)));
            Finish(Place(afterMinus, Lit(d), None)) ==
              Ok(Some(Binary('-', Lit(a), Binary('-', Binary('*', Lit(b), Lit(c)), Lit(d)))))
  {
    ChainProductPending(a, b);
    ChainSecondMinus(a, b, c);
    var afterMinus := [Some(Pending('-', Lit(a))), Some(Pending('-', Binary('*', Lit(b), Lit(c))))];
    assert Place(afterMinus, Lit(d), None) == afterMinus + [Some(Lit(d))];
    assert afterMinus + [Some(Lit(d))] ==
           [Some(Pending('-', Lit(a))), Some(Pending('-', Binary('*', Lit(b), Lit(c)))), Some(Lit(d))];
    FinishTwoPending('-', Lit(a), '-', Binary('*', Lit(b), Lit(c)), Lit(d));
  }

  /**
   * What the grouping of `a-b*c-d` means for values: the tree evaluates to
   * a - b·c + d, while grouping by precedence, `(a-(b*c))-d`, gives
   * a - b·c - d; the two differ whenever d is not 0. For `2-3*4-5` they are
   * -5 and -15.
   */
  lemma {:induction false} ThreeOperatorChainValue(a: nat, b: nat, c: nat, d: nat)
    ensures var built := Evaluator.Eval(Binary('-', Lit(a), Binary('-', Binary('*', Lit(b), Lit(c)), Lit(d))), None);
            built.Ok? && built.value == a as real - (b as real) * (c as real) + d as real
    ensures var grouped := Evaluator.Eval(Binary('-', Binary('-', Lit(a), Binary('*', Lit(b), Lit(c))), Lit(d)), None);
            grouped.Ok? && grouped.value == a as real - (b as real) * (c as real) - d as real
    ensures d > 0 ==>
              Evaluator.Eval(Binary('-', Lit(a), Binary('-', Binary('*', Lit(b), Lit(c)), Lit(d))), None) !=
              Evaluator.Eval(Binary('-', Binary('-', Lit(a), Binary('*', Lit(b), Lit(c))), Lit(d)), None)
  {
    var product := (b as real) * (c as real);
    var bc := Binary('*', Lit(b), Lit(c));
    assert Evaluator.EvalSlot(Some(Lit(b)), None) == Ok(b as real);
    assert Evaluator.EvalSlot(Some(Lit(c)), None) == Ok(c as real);
    assert Evaluator.Eval(bc, None) == Evaluator.Multiply(Some(Lit(b)), Some(Lit(c)));
    assert Evaluator.EvalSlot(Some(bc), None).Ok? && Evaluator.EvalSlot(Some(bc), None).value == product;
    assert Evaluator.EvalSlot(Some(Lit(a)), None) == Ok(a as real);
    assert Evaluator.EvalSlot(Some(Lit(d)), None) == Ok(d as real);
    var inner := Binary('-', bc, Lit(d));
    assert Evaluator.Eval(inner, None) == Evaluator.Subtract(Some(bc), Some(Lit(d)));
    assert Evaluator.EvalSlot(Some(inner), None) == Ok(product - d as real);
    assert Evaluator.Eval(Binary('-', Lit(a), inner), None) == Evaluator.Subtract(Some(Lit(a)), Some(inner));
    var left := Binary('-', Lit(a), bc);
    assert Evaluator.Eval(left, None) == Evaluator.Subtract(Some(Lit(a)), Some(bc));
    assert Evaluator.EvalSlot(Some(left), None) == Ok(a as real - product);
    assert Evaluator.Eval(Binary('-', left, Lit(d)), None) == Evaluator.Subtract(Some(left), Some(Lit(d)));
  }

  /** `2-3*4-5` evaluates to -5 in the source, where precedence would give -15. */
  lemma ThreeOperatorChainExample()
    ensures Evaluator.Eval(Binary('-', Lit(2), Binary('-', Binary('*', Lit(3), Lit(4)), Lit(5))), None) == Ok(-5.0)
    ensures Evaluator.Eval(Binary('-', Binary('-', Lit(2), Binary('*', Lit(3), Lit(4))), Lit(5)), None) == Ok(-15.0)
  {
    ThreeOperatorChainValue(2, 3, 4, 5);
  }

  // ----- unary minus, implicit products and malformed input -----

  const OpenParen: Slot := Some(Leaf(Marker('(')))

  /** `-x`: a subtract node without a left operand. */
  function Negated(x: Node): Node
  {
    Node(Fn(SubtractOp), None, Some(x))
  }

  /** At the end of input, a pending operator and its last operand fold into one node. */
  lemma {:induction false} FinishPending(o: char, x: Node, y: Node)
    requires IsBinaryOperator(o) && !IsScopeMarker(y.op)
    ensures Finish([Some(Pending(o, x)), Some(y)]) == Ok(Some(Binary(o, x, y)))
  {
    var last := [Some(Pending(o, x)), Some(y)];
    assert AllChainable(last);
    FinishChain(last);
    assert last[..1] == [Some(Pending(o, x))];
    assert [Some(Pending(o, x))][1..] == [];
  }

  /** At the end of input, `x o - y` with the `-` still bare folds into `x o (-y)`. */
  lemma {:induction false} FinishPendingNegated(o: char, x: Node, y: Node)
    requires IsBinaryOperator(o) && !IsScopeMarker(y.op)
    ensures Finish([Some(Pending(o, x)), Some(Leaf(Fn(SubtractOp))), Some(y)]) == Ok(Some(Binary(o, x, Negated(y))))
  {
    var init := [Some(Pending(o, x)), Some(Leaf(Fn(SubtractOp)))];
    var last := init + [Some(y)];
    assert AllChainable(last);
    FinishChain(last);
    assert last[..2] == init;
    assert init[1..] == [Some(Leaf(Fn(SubtractOp)))];
    assert init[1..][1..] == [];
    assert Spine(init[1..], Some(y)) == Some(Negated(y));
    assert last == [Some(Pending(o, x)), Some(Leaf(Fn(SubtractOp))), Some(y)];
  }

  /** The stack after `-a` when `+` follows: the bare `-` takes `a` at once as its right operand. */
  lemma {:induction false} LeadingMinusStacks(a: nat)
    ensures Place(Pap([], Leaf(Fn(SubtractOp))), Lit(a), Some('+')) == [Some(Negated(Lit(a)))]
  {
    assert Pap([], Leaf(Fn(SubtractOp))) == [Some(Leaf(Fn(SubtractOp)))];
    assert AttachesEagerly(SubtractOp, '+');
  }

  /**
   * The stack operations for `-a+b` (PAP `-` on the empty stack, place `a`,
   * PAP `+`, place `b`, fold at the end): the leading `-` is pushed bare and
   * becomes the additive inverse of `a`, so the value is b - a.
   */
  lemma {:induction false} LeadingUnaryMinus(a: nat, b: nat)
    ensures Finish(Place(Pap(Place(Pap([], Leaf(Fn(SubtractOp))), Lit(a), Some('+')), Leaf(Fn(AddOp))), Lit(b), None)) ==
            Ok(Some(Binary('+', Negated(Lit(a)), Lit(b))))
  {
    LeadingMinusStacks(a);
    var afterPlus := Pap(Place(Pap([], Leaf(Fn(SubtractOp))), Lit(a), Some('+')), Leaf(Fn(AddOp)));
    assert afterPlus == Pap([Some(Negated(Lit(a)))], Leaf(Fn(AddOp)));
    assert afterPlus == [Some(Pending('+', Negated(Lit(a))))];
    assert Place(afterPlus, Lit(b), None) == [Some(Pending('+', Negated(Lit(a)))), Some(Lit(b))];
    FinishPending('+', Negated(Lit(a)), Lit(b));
  }

  /** The tree of `-a+b` evaluates to b - a. */
  lemma LeadingUnaryMinusValue(a: nat, b: nat)
    ensures Evaluator.Eval(Binary('+', Negated(Lit(a)), Lit(b)), None) == Ok(b as real - a as real)
  {
    NegatedValue(a);
    assert Evaluator.EvalSlot(Some(Lit(b)), None) == Ok(b as real);
    assert Evaluator.Eval(Binary('+', Negated(Lit(a)), Lit(b)), None) ==
           Evaluator.Add(Some(Negated(Lit(a))), Some(Lit(b)));
  }

  /** `-a` evaluates to the additive inverse of `a`. */
  lemma NegatedValue(a: nat)
    ensures Evaluator.Eval(Negated(Lit(a)), None) == Ok(-(a as real))
  {
    Evaluator.SubtractNegates(Some(Lit(a)));
  }

  /** The stack after `a o -`: PAP of the `-` finds `o` still missing its right operand and pushes it bare. */
  lemma {:induction false} MinusAfterOperatorStacks(a: nat, o: char)
    requires IsBinaryOperator(o)
    ensures Pap(Pap(Place([], Lit(a), Some(o)), Leaf(Fn(FunctionFromOperator(o)))), Leaf(Fn(SubtractOp))) ==
            [Some(Pending(o, Lit(a))), Some(Leaf(Fn(SubtractOp)))]
  {
    assert Place([], Lit(a), Some(o)) == [Some(Lit(a))];
    var afterO := [Some(Pending(o, Lit(a)))];
    assert Pap([Some(Lit(a))], Leaf(Fn(FunctionFromOperator(o)))) == afterO;
    assert NoLeftOperand(afterO);
  }

  /**
   * The stack operations for `a o -b`: the `-` is pushed bare, so the tree
   * is `a o (-b)`, which evaluates as `o` applied to `a` and the number -b.
   */
  lemma {:induction false} UnaryMinusOperand(a: nat, o: char, b: nat)
    requires IsBinaryOperator(o)
    ensures var afterMinus := Pap(Pap(Place([], Lit(a), Some(o)), Leaf(Fn(FunctionFromOperator(o)))), Leaf(Fn(SubtractOp)));
            Finish(Place(afterMinus, Lit(b), None)) == Ok(Some(Binary(o, Lit(a), Negated(Lit(b)))))
  {
    MinusAfterOperatorStacks(a, o);
    NegatedLastOperand(a, o, b);
  }

  /** At the end of `a o -b`, the stack folds into `a o (-b)`. */
  lemma {:induction false} NegatedLastOperand(a: nat, o: char, b: nat)
    requires IsBinaryOperator(o)
    ensures Finish(Place([Some(Pending(o, Lit(a))), Some(Leaf(Fn(SubtractOp)))], Lit(b), None)) ==
            Ok(Some(Binary(o, Lit(a), Negated(Lit(b)))))
  {
    var afterMinus := [Some(Pending(o, Lit(a))), Some(Leaf(Fn(SubtractOp)))];
    assert Place(afterMinus, Lit(b), None) == [Some(Pending(o, Lit(a))), Some(Leaf(Fn(SubtractOp))), Some(Lit(b))];
    FinishPendingNegated(o, Lit(a), Lit(b));
  }

  /** The tree of `a o -b` evaluates as `o` applied to `a` and the number -b. */
  lemma UnaryMinusValue(a: nat, o: char, b: nat)
    requires IsBinaryOperator(o)
    ensures Evaluator.Eval(Binary(o, Lit(a), Negated(Lit(b))), None) ==
            Evaluator.Eval(Binary(o, Lit(a), Leaf(Num(-(b as real)))), None)
  {
    NegatedValue(b);
    Evaluator.OperatorsReadValues(FunctionFromOperator(o), Some(Lit(a)), Some(Negated(Lit(b))), Some(Leaf(Num(-(b as real)))));
  }

  /** `3*-2` evaluates to -6. */
  lemma UnaryMinusExample()
    ensures Evaluator.Eval(Binary('*', Lit(3), Negated(Lit(2))), None) == Ok(-6.0)
  {
    UnaryMinusValue(3, '*', 2);
    assert Evaluator.Eval(Binary('*', Lit(3), Leaf(Num(-2.0))), None) == Ok(-6.0);
  }

  /** The stack after `a(b+`: a number, the `(` marker, and `+` holding `b`. */
  lemma {:induction false} ImplicitProductOpens(a: nat, b: nat)
    ensures Pap(Place(Place([], Lit(a), Some('(')) + [OpenParen], Lit(b), Some('+')), Leaf(Fn(AddOp))) ==
            [Some(Lit(a)), OpenParen, Some(Pending('+', Lit(b)))]
  {
    assert Place([], Lit(a), Some('(')) == [Some(Lit(a))];
    var afterParen := [Some(Lit(a)), OpenParen];
    assert Place(afterParen, Lit(b), Some('+')) == afterParen + [Some(Lit(b))];
  }

  /** The `)` of `a(b+c)`: the group folds to `b+c`, which PARC makes the right child of `a`. */
  lemma {:induction false} ImplicitProductCloses(a: nat, b: nat, c: nat)
    ensures CloseRound([Some(Lit(a)), OpenParen, Some(Pending('+', Lit(b))), Some(Lit(c))]) ==
            Ok([Some(Node(Num(a as real), None, Some(Binary('+', Lit(b), Lit(c)))))])
  {
    GroupCloses([Some(Lit(a))], Pending('+', Lit(b)), Lit(c));
    assert [Some(Lit(a))] + [OpenParen, Some(Pending('+', Lit(b))), Some(Lit(c))] ==
           [Some(Lit(a)), OpenParen, Some(Pending('+', Lit(b))), Some(Lit(c))];
  }

  /**
   * The stack operations for `a(b+c)`: after the `)` closes the group, PARC
   * makes `b+c` the right child of the number `a`, which multiplies it.
   */
  lemma {:induction false} ImplicitProduct(a: nat, b: nat, c: nat)
    ensures var afterPlus := Pap(Place(Place([], Lit(a), Some('(')) + [OpenParen], Lit(b), Some('+')), Leaf(Fn(AddOp)));
            var closed := CloseRound(Place(afterPlus, Lit(c), Some(')')));
            closed.Ok? && Finish(closed.value) == Ok(Some(Node(Num(a as real), None, Some(Binary('+', Lit(b), Lit(c))))))
  {
    ImplicitProductOpens(a, b);
    var afterPlus := [Some(Lit(a)), OpenParen, Some(Pending('+', Lit(b)))];
    assert Place(afterPlus, Lit(c), Some(')')) == afterPlus + [Some(Lit(c))];
    assert afterPlus + [Some(Lit(c))] == [Some(Lit(a)), OpenParen, Some(Pending('+', Lit(b))), Some(Lit(c))];
    ImplicitProductCloses(a, b, c);
    var root := Node(Num(a as real), None, Some(Binary('+', Lit(b), Lit(c))));
    assert Finish([Some(root)]) == Ok(Some(root));
  }

  /** The tree of `a(b+c)` evaluates to a * (b + c). */
  lemma ImplicitProductValue(a: nat, b: nat, c: nat)
    ensures var product := Evaluator.Eval(Node(Num(a as real), None, Some(Binary('+', Lit(b), Lit(c)))), None);
            product.Ok? && product.value == (a as real) * (b as real + c as real)
  {
    assert Evaluator.EvalSlot(Some(Lit(b)), None) == Ok(b as real);
    assert Evaluator.EvalSlot(Some(Lit(c)), None) == Ok(c as real);
    assert Evaluator.Eval(Binary('+', Lit(b), Lit(c)), None) == Evaluator.Add(Some(Lit(b)), Some(Lit(c)));
    assert Evaluator.EvalSlot(Some(Binary('+', Lit(b), Lit(c))), None) == Ok(b as real + c as real);
  }

  /**
   * `)` above `base ( p q`, where `p` is a pending operator and `q` its last
   * operand, with no comma in the group: IPARC makes `q` the right child of
   * `p`, the `(` is consumed, and PARC attaches the result to the top of
   * `base`.
   */
  lemma {:induction false} GroupCloses(base: Stack, p: Node, q: Node)
    requires p.op.Fn? && !IsScopeMarker(q.op)
    ensures CloseGroup(base + [OpenParen, Some(p), Some(q)]) == Ok(Split(base, Some(p.(right := Some(q)))))
    ensures CloseRound(base + [OpenParen, Some(p), Some(q)]) == Parc(base, Some(p.(right := Some(q))))
  {
    var seg := [Some(p), Some(q)];
    assert AllChainable(seg);
    assert base + [OpenParen, Some(p), Some(q)] == (base + [OpenParen]) + seg;
    IparcSpine(base + [OpenParen], seg);
    assert seg[..1] == [Some(p)];
    assert [Some(p)][1..] == [];
    assert Pop(base + [OpenParen]) == base;
  }

  /**
   * The stack operations for `(a+b` without its `)`: the end-of-input
   * folding closes the group as if the `)` were there.
   */
  lemma {:induction false} UnclosedParenthesis(a: nat, b: nat)
    ensures var afterPlus := Pap(Place([OpenParen], Lit(a), Some('+')), Leaf(Fn(AddOp)));
            Finish(Place(afterPlus, Lit(b), None)) == Ok(Some(Binary('+', Lit(a), Lit(b))))
  {
    assert Place([OpenParen], Lit(a), Some('+')) == [OpenParen, Some(Lit(a))];
    var afterPlus := [OpenParen, Some(Pending('+', Lit(a)))];
    assert Pap([OpenParen, Some(Lit(a))], Leaf(Fn(AddOp))) == afterPlus;
    var last := [OpenParen, Some(Pending('+', Lit(a))), Some(Lit(b))];
    assert Place(afterPlus, Lit(b), None) == last;
    UnclosedFolds(Pending('+', Lit(a)), Lit(b));
  }

  /** At the end of input, `( p q` folds as if closed. */
  lemma {:induction false} UnclosedFolds(p: Node, q: Node)
    requires p.op.Fn? && !IsScopeMarker(q.op)
    ensures Finish([OpenParen, Some(p), Some(q)]) == Ok(Some(p.(right := Some(q))))
  {
    GroupCloses([], p, q);
    assert [] + [OpenParen, Some(p), Some(q)] == [OpenParen, Some(p), Some(q)];
  }

  /** Empty input parses to no node at all, and evaluating it throws. */
  lemma EmptyInput(registry: Registry)
    ensures Parse(registry, "") == Ok(None)
    ensures Calculate(registry, "") == Err(TypeError)
  {
  }

  /** The stack after `a,`: IPARC gives `a` back, and a comma marker goes on top. */
  lemma {:induction false} CommaStacks(a: nat)
    ensures CommaRound(Place([], Lit(a), Some(','))) == Ok([Some(Lit(a)), Comma])
  {
    assert Place([], Lit(a), Some(',')) == [Some(Lit(a))];
    assert Iparc([Some(Lit(a))]) == Ok(Split([], Some(Lit(a))));
    assert [] + [Some(Lit(a)), Comma] == [Some(Lit(a)), Comma];
  }

  /**
   * The stack operations for `a,b` outside any call: the end-of-input
   * folding finds the comma and looks for the argument before it, and the
   * marker below that argument is missing, so reading its operation throws.
   */
  lemma {:induction false} TopLevelComma(a: nat, b: nat)
    ensures var afterComma := CommaRound(Place([], Lit(a), Some(',')));
            afterComma.Ok? && Finish(Place(afterComma.value, Lit(b), None)) == Err(TypeError)
  {
    CommaStacks(a);
    var last := [Some(Lit(a)), Comma, Some(Lit(b))];
    assert Place([Some(Lit(a)), Comma], Lit(b), None) == last;
    StrayComma(Lit(a), Lit(b));
  }

  /** Folding `x , y` at the bottom of the stack throws: no marker lies below `x`. */
  lemma {:induction false} StrayComma(x: Node, y: Node)
    requires !IsScopeMarker(x.op) && !IsScopeMarker(y.op)
    ensures Finish([Some(x), Comma, Some(y)]) == Err(TypeError)
  {
    var last := [Some(x), Comma, Some(y)];
    assert Pop(last) == [Some(x), Comma];
    assert IsScopeMarker(Comma.value.op);
    assert Iparc(last) == Ok(Split([Some(x), Comma], Some(y)));
    assert Pop([Some(x), Comma]) == [Some(x)];
    assert Iparc([Some(x)]) == Ok(Split([], Some(x)));
    assert CollectArgs([Some(x)], [], Some(y)) == Err(TypeError);
  }

  /** `)` above `base ( x`: the group is `x` alone, and the `(` is consumed. */
  lemma {:induction false} GroupOfOne(base: Stack, x: Node)
    requires !IsScopeMarker(x.op)
    ensures CloseGroup(base + [OpenParen, Some(x)]) == Ok(Split(base, Some(x)))
  {
    assert AllChainable([Some(x)]);
    assert base + [OpenParen, Some(x)] == (base + [OpenParen]) + [Some(x)];
    IparcSpine(base + [OpenParen], [Some(x)]);
    assert Spine([], Some(x)) == Some(x);
    assert Pop(base + [OpenParen]) == base;
  }

  /** `)` on a stack holding only `x`: nothing is folded, and `x` is pushed back. */
  lemma {:induction false} CloseAlone(x: Node)
    ensures CloseRound([Some(x)]) == Ok([Some(x)])
  {
    assert Iparc([Some(x)]) == Ok(Split([], Some(x)));
    assert CloseGroup([Some(x)]) == Ok(Split([], Some(x)));
  }

  /** The stack operations for `(a)`: one pair of parentheses gives `a` back. */
  lemma {:induction false} Parentheses(a: nat)
    ensures CloseRound([OpenParen, Some(Lit(a))]) == Ok([Some(Lit(a))])
  {
    GroupOfOne([], Lit(a));
    assert [] + [OpenParen, Some(Lit(a))] == [OpenParen, Some(Lit(a))];
  }

  /** The inner `)` of `((a))`: PARC makes `a` the right child of the outer `(` marker. */
  lemma {:induction false} InnerParenthesisCloses(a: nat)
    ensures CloseRound([OpenParen, OpenParen, Some(Lit(a))]) == Ok([Some(Node(Marker('('), None, Some(Lit(a))))])
  {
    GroupOfOne([OpenParen], Lit(a));
    assert [OpenParen] + [OpenParen, Some(Lit(a))] == [OpenParen, OpenParen, Some(Lit(a))];
  }

  /**
   * The stack operations for `((a))`: after the inner `)`, the outer `)`
   * finds the marker holding `a` at the bottom of the stack and keeps it,
   * so the root is that marker, and evaluating it throws.
   */
  lemma {:induction false} NestedParentheses(a: nat)
    ensures var inner := CloseRound([OpenParen, OpenParen, Some(Lit(a))]);
            inner.Ok? && CloseRound(inner.value) == Ok([Some(Node(Marker('('), None, Some(Lit(a))))])
    ensures Evaluator.Eval(Node(Marker('('), None, Some(Lit(a))), None) == Err(TypeError)
  {
    InnerParenthesisCloses(a);
    CloseAlone(Node(Marker('('), None, Some(Lit(a))));
  }

  /** `)` after `name(a`: the group is `a`, which PARC makes the right child of the name's node. */
  lemma {:induction false} CallCloses(f: Node, a: nat)
    requires f.right.None? && !IsScopeMarker(f.op)
    ensures CloseRound([Some(f), OpenParen, Some(Lit(a))]) == Ok([Some(f.(right := Some(Lit(a))))])
  {
    GroupOfOne([Some(f)], Lit(a));
    assert [Some(f)] + [OpenParen, Some(Lit(a))] == [Some(f), OpenParen, Some(Lit(a))];
  }

  /**
   * The stack operations for `name(a)`: the name is looked up and the group
   * becomes its right child.
   */
  lemma {:induction false} FunctionCall(registry: Registry, name: string, a: nat)
    ensures var afterParen := Place([], Leaf(Lookup(registry, name)), Some('(')) + [OpenParen];
            CloseRound(Place(afterParen, Lit(a), Some(')'))) == Ok([Some(Node(Lookup(registry, name), None, Some(Lit(a))))])
  {
    CallStacks(Lookup(registry, name), a);
  }

  /** `op(a)` for an operation `op` that is not a marker: the group becomes the right child. */
  lemma {:induction false} CallStacks(op: Op, a: nat)
    requires !IsScopeMarker(op)
    ensures CloseRound(Place(Place([], Leaf(op), Some('(')) + [OpenParen], Lit(a), Some(')'))) ==
            Ok([Some(Node(op, None, Some(Lit(a))))])
  {
    var f := Leaf(op);
    assert !IsOperator(Some(')'));
    assert Place([], f, Some('(')) == [Some(f)];
    var last := [Some(f), OpenParen, Some(Lit(a))];
    assert Place([Some(f), OpenParen], Lit(a), Some(')')) == [Some(f), OpenParen] + [Some(Lit(a))];
    assert [Some(f), OpenParen] + [Some(Lit(a))] == last;
    CallCloses(f, a);
  }

  /**
   * The tree of `name(a)`: a registered function is applied to `a` with no
   * left operand, and an unregistered name leaves an undefined operation
   * that throws when evaluated.
   */
  lemma CallValue(registry: Registry, name: string, a: nat)
    ensures name in registry ==>
              Evaluator.Eval(Node(Lookup(registry, name), None, Some(Lit(a))), None) ==
              Evaluator.Apply(registry[name], None, Some(Lit(a)))
    ensures name !in registry ==> Evaluator.Eval(Node(Lookup(registry, name), None, Some(Lit(a))), None) == Err(TypeError)
  {
  }
}
