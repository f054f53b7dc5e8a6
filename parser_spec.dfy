/**
 * The meaning of `Parser.parse` as pure functions over a stack of slots:
 * character classes, the two scanning loops, `parseFloat` on the scanned
 * digits, the stack operations PAP, PARC and IPARC, the argument-list
 * folding done on `)` and at the end of input, and the whole left-to-right
 * pass. The imperative parser in module `Parser` is proved to compute
 * exactly these functions.
 */
module ParserSpec {
  import opened Outcomes
  import opened ExpressionTree

  /** The parse stack; its last element is the top. */
  type Stack = seq<Slot>

  /** Name-to-function lookup that stands in for the global `window[name]`. */
  type Registry = map<string, FnKind>

  // ----- characters -----

  /** `charAt(i)`: the character at `i`, or the empty string (`None`) outside the string. */
  function CharAt(s: string, i: int): Option<char>
  {
    if 0 <= i < |s| then Some(s[i]) else None
  }

  predicate IsDigit(c: char)
  {
    '0' <= c <= '9'
  }

  /** The characters ECMAScript's string-to-number conversion skips as white space or line terminators. */
  predicate IsJsWhitespace(c: char)
  {
    c == '\t' || c == '\n' || c == '\U{000B}' || c == '\U{000C}' || c == '\r' || c == ' ' ||
    c == '\U{00A0}' || c == '\U{1680}' || ('\U{2000}' <= c <= '\U{200A}') ||
    c == '\U{2028}' || c == '\U{2029}' || c == '\U{202F}' || c == '\U{205F}' ||
    c == '\U{3000}' || c == '\U{FEFF}'
  }

  /**
   * `isValidNumber(token)`, i.e. `!isNaN(token)` on a one-character string:
   * digits and white space convert to a number, and so does the empty
   * string returned past the end of the input.
   */
  predicate IsValidNumber(c: Option<char>)
  {
    c.None? || IsDigit(c.value) || IsJsWhitespace(c.value)
  }

  /** A character that starts or continues a number literal. */
  predicate IsNumberChar(c: Option<char>)
  {
    IsValidNumber(c) || c == Some('.')
  }

  /** One of the five operator characters `+ - * / ^`. */
  predicate IsOperatorChar(c: char)
  {
    c == '+' || c == '-' || c == '*' || c == '/' || c == '^'
  }

  /** `isOperator`: an operator character (never the empty string). */
  predicate IsOperator(c: Option<char>)
  {
    c.Some? && IsOperatorChar(c.value)
  }

  /** A character that continues a function name: anything but `( ) , !` and the operators. */
  predicate ExtendsName(c: Option<char>)
  {
    c.None? || !(c.value == '(' || c.value == ')' || c.value == ',' || c.value == '!' || IsOperator(c))
  }

  /**
   * `getFunctionFromOperator`: each operator character names one of the
   * five operator functions that `nodeIsOperator` recognises, and `!` names
   * `factorial`, which it does not.
   */
  function FunctionFromOperator(c: char): (k: FnKind)
    requires IsOperatorChar(c) || c == '!'
    ensures NodeIsOperator(Some(Leaf(Fn(k)))) <==> c != '!'
    ensures k == FactorialFn <==> c == '!'
  {
    match c
    case '+' => AddOp
    case '-' => SubtractOp
    case '*' => MultiplyOp
    case '/' => DivideOp
    case '^' => PowOp
    case '!' => FactorialFn
  }

  /** `nodeIsOperator`: the node's operation is one of the five operator functions. */
  predicate NodeIsOperator(s: Slot)
  {
    s.Some? && s.value.op.Fn? && s.value.op.kind in {AddOp, SubtractOp, MultiplyOp, DivideOp, PowOp}
  }

  /** `getFunctionFromToken`: the registered function, or `undefined`. */
  function Lookup(registry: Registry, name: string): Op
  {
    if name in registry then Fn(registry[name]) else Undefined
  }

  /**
   * JavaScript's loose `operation == "("` / `operation == ","`. Besides the
   * marker itself, an array operation compares by its `toString()`, which is
   * "," for exactly a two-element array of undefined entries.
   */
  predicate LooselyEquals(op: Op, c: char)
  {
    op == Marker(c) ||
    (c == ',' && op.List? && |op.items| == 2 && op.items[0].None? && op.items[1].None?)
  }

  /** An operation that IPARC stops at: `"("` or `","`. */
  predicate IsScopeMarker(op: Op)
  {
    LooselyEquals(op, '(') || LooselyEquals(op, ',')
  }

  // ----- scanning -----

  datatype Run = NumberRun | NameRun

  predicate Extends(run: Run, c: Option<char>)
  {
    match run
    case NumberRun => IsNumberChar(c)
    case NameRun => ExtendsName(c)
  }

  /**
   * The scanning loop: from the first character at `i`, advance while the
   * next character continues the run. The result is the index the loop
   * stops at; the scanned token is `s[i..min(j + 1, |s|)]`.
   */
  function ScanEnd(s: string, i: int, run: Run): (j: int)
    requires 0 <= i <= |s|
    ensures i <= j <= |s|
    ensures j == |s| || !Extends(run, CharAt(s, j + 1))
    decreases |s| - i
  {
    if i < |s| && Extends(run, CharAt(s, i + 1)) then ScanEnd(s, i + 1, run) else i
  }

  /** Every character the scan steps over continues the run. */
  lemma {:induction false} ScanEndCovers(s: string, i: int, run: Run)
    requires 0 <= i <= |s|
    ensures forall k :: i < k <= ScanEnd(s, i, run) && k < |s| ==> Extends(run, Some(s[k]))
    decreases |s| - i
  {
    if i < |s| && Extends(run, CharAt(s, i + 1)) {
      ScanEndCovers(s, i + 1, run);
    }
  }

  /** One more round of the scanning loop: same stopping point, token one character (or "") longer. */
  lemma ScanContinues(s: string, start: int, i: int, run: Run)
    requires 0 <= start <= i < |s| && Extends(run, CharAt(s, i + 1))
    ensures ScanEnd(s, i, run) == ScanEnd(s, i + 1, run)
    ensures Token(s, start, i + 1) == Token(s, start, i) + (if i + 1 < |s| then [s[i + 1]] else "")
  {
    if i + 1 < |s| {
      assert s[start..i + 2] == s[start..i + 1] + [s[i + 1]];
    }
  }

  function Smaller(a: int, b: int): int
  {
    if a < b then a else b
  }

  /** The characters a scanning loop starting at `i` and stopping at `j` collected. */
  function Token(s: string, i: int, j: int): string
    requires 0 <= i <= j <= |s|
  {
    s[i..Smaller(j + 1, |s|)]
  }

  // ----- parseFloat on a scanned number token -----

  function DigitValue(c: char): nat
    requires IsDigit(c)
  {
    (c as int - '0' as int) as nat
  }

  /** The first index in `k..e` whose character is not a digit, or `e`. */
  function DigitEnd(t: string, k: nat, e: nat): (r: nat)
    requires k <= e <= |t|
    ensures k <= r <= e
    ensures r == e || !IsDigit(t[r])
    decreases e - k
  {
    if k < e && IsDigit(t[k]) then DigitEnd(t, k + 1, e) else k
  }

  /** Every character the digit scan steps over is a digit. */
  lemma {:induction false} DigitEndCovers(t: string, k: nat, e: nat)
    requires k <= e <= |t|
    ensures forall m :: k <= m < DigitEnd(t, k, e) ==> IsDigit(t[m])
    decreases e - k
  {
    if k < e && IsDigit(t[k]) {
      DigitEndCovers(t, k + 1, e);
    }
  }

  /** The decimal value of the digits `t[a..b]`. */
  function DigitsValue(t: string, a: nat, b: nat): nat
    requires a <= b <= |t| && forall k :: a <= k < b ==> IsDigit(t[k])
    decreases b
  {
    if b == a then 0 else 10 * DigitsValue(t, a, b - 1) + DigitValue(t[b - 1])
  }

  function Pow10(n: nat): (p: nat)
    ensures p >= 1
  {
    if n == 0 then 1 else 10 * Pow10(n - 1)
  }

  /** The first index in `k..e` whose character is not JavaScript white space, or `e`. */
  function SpaceEnd(t: string, k: nat, e: nat): (r: nat)
    requires k <= e <= |t|
    ensures k <= r <= e
    decreases e - k
  {
    if k < e && IsJsWhitespace(t[k]) then SpaceEnd(t, k + 1, e) else k
  }

  /**
   * `parseFloat` on the characters `t[i..e]` (digits, white space and dots):
   * skip leading white space, then read `digits [. digits]`; NaN when no
   * digit is read. The value is exact; binary floating-point rounding is
   * not modelled.
   */
  function ParseFloatIn(t: string, i: nat, e: nat): Op
    requires i <= e <= |t|
  {
    var a := SpaceEnd(t, i, e);
    var n := DigitEnd(t, a, e);
    DigitEndCovers(t, a, e);
    if n < e && t[n] == '.' then
      var m := DigitEnd(t, n + 1, e);
      DigitEndCovers(t, n + 1, e);
      if n == a && m == n + 1 then NaNNum
      else Num(DigitsValue(t, a, n) as real + DigitsValue(t, n + 1, m) as real / Pow10(m - n - 1) as real)
    else if n == a then NaNNum
    else Num(DigitsValue(t, a, n) as real)
  }

  /** `parseFloat` on a whole token. */
  function ParseFloat(t: string): Op
  {
    ParseFloatIn(t, 0, |t|)
  }

  // ----- stack operations -----

  /** `stack[stack.length - 1]`: undefined on an empty stack. */
  function Top(stack: Stack): Slot
  {
    if stack == [] then None else stack[|stack| - 1]
  }

  /** The stack after `stack.pop()`; popping an empty stack leaves it empty. */
  function Pop(stack: Stack): Stack
  {
    if stack == [] then [] else stack[..|stack| - 1]
  }

  /**
   * The condition under which PAP pushes a `-` without a left operand: the
   * stack is empty, its top is an operator still missing its right operand,
   * or its top is a `(` or `,` marker.
   */
  predicate NoLeftOperand(stack: Stack)
  {
    var peek := Top(stack);
    peek.None? || (NodeIsOperator(peek) && peek.value.right.None?) ||
    LooselyEquals(peek.value.op, '(') || LooselyEquals(peek.value.op, ',')
  }

  /**
   * PAP, Push-As-Parent. A unary `-` is pushed bare (one entry more);
   * otherwise the top is popped and becomes the new node's left child, so the
   * length is unchanged unless the stack was empty.
   */
  function Pap(stack: Stack, node: Node): (r: Stack)
    ensures node.op == Fn(SubtractOp) && NoLeftOperand(stack) ==>
              |r| == |stack| + 1 && r[..|stack|] == stack && r[|stack|] == Some(node)
    ensures !(node.op == Fn(SubtractOp) && NoLeftOperand(stack)) ==>
              |r| == (if stack == [] then 1 else |stack|) && r[..|r| - 1] == Pop(stack) &&
              r[|r| - 1] == Some(node.(left := Top(stack)))
  {
    if node.op == Fn(SubtractOp) && NoLeftOperand(stack) then stack + [Some(node)]
    else Pop(stack) + [Some(node.(left := Top(stack)))]
  }

  /**
   * PARC, Push-As-Right-Child. On an empty stack the slot is pushed. A top
   * without a right child takes the slot as its right child; a top that
   * already has one is replaced by an implicit `multiply(top, slot)`. Only
   * an undefined top fails (reading its `right` throws). No other entry
   * changes and the length is unchanged on a non-empty stack.
   */
  function Parc(stack: Stack, s: Slot): (r: Result<Stack>)
    ensures r.Err? <==> stack != [] && Top(stack).None?
    ensures r.Ok? ==> |r.value| == (if stack == [] then 1 else |stack|)
    ensures r.Ok? ==> r.value[..|r.value| - 1] == Pop(stack)
    ensures r.Ok? && stack == [] ==> r.value == [s]
    ensures r.Ok? && stack != [] && Top(stack).value.right.None? ==>
              r.value[|stack| - 1] == Some(Top(stack).value.(right := s))
    ensures r.Ok? && stack != [] && Top(stack).value.right.Some? ==>
              r.value[|stack| - 1] == Some(Node(Fn(MultiplyOp), Top(stack), s))
  {
    if stack == [] then Ok([s])
    else
      var peek := stack[|stack| - 1];
      if peek.None? then Err(TypeError)
      else if peek.value.right.Some? then Ok(Pop(stack) + [Some(Node(Fn(MultiplyOp), peek, s))])
      else Ok(Pop(stack) + [Some(peek.value.(right := s))])
  }

  /** A stack split into what remains and the node an operation produced. */
  datatype Split = Split(stack: Stack, node: Slot)

  /** True when IPARC stops below this entry: it is undefined (and IPARC throws) or a scope marker. */
  predicate Stops(s: Slot)
  {
    s.None? || IsScopeMarker(s.value.op)
  }

  /**
   * The loop of IPARC: while the stack is non-empty and its top is not a
   * scope marker, pop the top, make `current` its right child and continue
   * with it. An undefined top throws when its operation is read.
   */
  function IparcLoop(stack: Stack, current: Slot): (r: Result<Split>)
    ensures r.Ok? ==> r.value.stack <= stack
    ensures r.Ok? ==> r.value.stack == [] || (Top(r.value.stack).Some? && IsScopeMarker(Top(r.value.stack).value.op))
    ensures r.Ok? ==> forall k :: |r.value.stack| <= k < |stack| ==> !Stops(stack[k])
    ensures r.Err? ==> r.error == TypeError
    decreases |stack|
  {
    if stack == [] then Ok(Split(stack, current))
    else
      var peek := stack[|stack| - 1];
      if peek.None? then Err(TypeError)
      else if IsScopeMarker(peek.value.op) then Ok(Split(stack, current))
      else IparcLoop(Pop(stack), Some(peek.value.(right := current)))
  }

  /**
   * IPARC, Iterated Push-As-Right-Child: pop the top as the current node,
   * then run the loop. At least one entry is popped from a non-empty stack,
   * and the loop stops at the nearest scope marker below the top: no entry
   * it pops is one.
   */
  function Iparc(stack: Stack): (r: Result<Split>)
    ensures r.Ok? ==> r.value.stack <= Pop(stack)
    ensures r.Ok? && stack != [] ==> |r.value.stack| < |stack|
    ensures r.Ok? ==> r.value.stack == [] || (Top(r.value.stack).Some? && IsScopeMarker(Top(r.value.stack).value.op))
    ensures r.Ok? ==> forall k :: |r.value.stack| <= k < |stack| - 1 ==> !Stops(stack[k])
  {
    IparcLoop(Pop(stack), Top(stack))
  }

  /** Stack and argument list after the argument-collecting loop. */
  datatype Collected = Collected(stack: Stack, params: seq<Slot>)

  /**
   * The do-while loop that collects comma-separated arguments: record the
   * current node, IPARC the next argument, pop the marker below it, and
   * repeat while that marker is a comma; the last argument is recorded after
   * the loop. Arguments are recorded last-first. Reading the operation of a
   * missing marker throws.
   */
  function CollectArgs(stack: Stack, params: seq<Slot>, current: Slot): (r: Result<Collected>)
    ensures r.Ok? ==> |r.value.stack| < |stack| && |r.value.params| >= |params| + 2
    ensures r.Ok? ==> r.value.params[..|params| + 1] == params + [current]
    decreases |stack|
  {
    var recorded := params + [current];
    var sp :- Iparc(stack);
    var marker := Top(sp.stack);
    if marker.None? then Err(TypeError)
    else if LooselyEquals(marker.value.op, ',') then
      var r := CollectArgs(Pop(sp.stack), recorded, sp.node);
      if r.Ok? then
        assert r.value.params[..|params| + 1] == r.value.params[..|recorded|][..|params| + 1];
        r
      else r
    else Ok(Collected(Pop(sp.stack), recorded + [sp.node]))
  }

  /** `reverseArray`'s result: the elements in the opposite order. */
  function Reverse<T>(s: seq<T>): (r: seq<T>)
    ensures |r| == |s|
  {
    if s == [] then [] else Reverse(s[1..]) + [s[0]]
  }

  /** Reversal takes the last element first. */
  lemma {:induction false} ReverseLast<T>(s: seq<T>)
    requires s != []
    ensures Reverse(s) == [s[|s| - 1]] + Reverse(s[..|s| - 1])
  {
    if |s| > 1 {
      ReverseLast(s[1..]);
      assert s[1..][..|s[1..]| - 1] == s[..|s| - 1][1..];
    }
  }

  /**
   * What `)` and each end-of-input round do before PARC: IPARC, pop the
   * marker below the result, and if it is a comma fold the comma-separated
   * arguments into one list node in source order.
   */
  function CloseGroup(stack: Stack): (r: Result<Split>)
    ensures r.Ok? && stack != [] ==> |r.value.stack| < |stack|
    ensures r.Ok? ==> r.value.stack <= stack
  {
    var sp :- Iparc(stack);
    var marker := Top(sp.stack);
    if marker.Some? && LooselyEquals(marker.value.op, ',') then
      var args :- CollectArgs(Pop(sp.stack), [], sp.node);
      assert args.stack <= stack by { CollectedIsPrefix(Pop(sp.stack), [], sp.node); }
      Ok(Split(args.stack, Some(Leaf(List(Reverse(args.params))))))
    else Ok(Split(Pop(sp.stack), sp.node))
  }

  /** The stack left by the argument loop is a prefix of the one it started from. */
  lemma {:induction false} CollectedIsPrefix(stack: Stack, params: seq<Slot>, current: Slot)
    requires CollectArgs(stack, params, current).Ok?
    ensures CollectArgs(stack, params, current).value.stack <= stack
    decreases |stack|
  {
    var sp := Iparc(stack).value;
    var marker := Top(sp.stack);
    if LooselyEquals(marker.value.op, ',') {
      CollectedIsPrefix(Pop(sp.stack), params + [current], sp.node);
    }
  }

  // ----- placement of literals and function names -----

  /**
   * The precedence test applied to a literal or function node that follows
   * a pending operator `prev` and is followed by operator `next`, written
   * as the three branches of the source. It holds exactly when `prev` is
   * `^`, `*` or `/` and `next` is not `^`, or `prev` is `-` and `next` is
   * `+` or `-`.
   */
  function AttachesEagerly(prev: FnKind, next: char): (r: bool)
    ensures r <==> (prev in {PowOp, MultiplyOp, DivideOp} && next != '^') ||
                   (prev == SubtractOp && next in {'+', '-'})
  {
    if prev == PowOp && next != '^' then true
    else if (prev == MultiplyOp || prev == DivideOp) && next != '^' then true
    else (prev == DivideOp && (next == '*' || next == '/')) || (prev == SubtractOp && (next == '+' || next == '-'))
  }

  /**
   * Where a new literal or function node goes: attached at once with PARC
   * when it sits between a pending operator and a following operator that
   * binds no tighter, pushed bare otherwise.
   */
  function Place(stack: Stack, node: Node, next: Option<char>): Stack
  {
    if stack != [] && NodeIsOperator(Top(stack)) && IsOperator(next) &&
       AttachesEagerly(Top(stack).value.op.kind, next.value)
    then Parc(stack, Some(node)).value
    else stack + [Some(node)]
  }

  // ----- the pass over the input -----

  /** Scan position and stack between two characters of the main loop. */
  datatype State = State(index: int, stack: Stack)

  /**
   * A number literal starting at `index`: scan the run of digits, white
   * space and dots, parse it and place the number node.
   */
  function NumberRound(s: string, index: int, stack: Stack): (r: State)
    requires 0 <= index < |s|
    ensures index < r.index <= |s| + 1
  {
    var j := ScanEnd(s, index, NumberRun);
    var node := Leaf(ParseFloat(Token(s, index, j)));
    State(j + 1, Place(stack, node, CharAt(s, j + 1)))
  }

  /** A function name starting at `index`: scan it, look it up and place the function node. */
  function NameRound(registry: Registry, s: string, index: int, stack: Stack): (r: State)
    requires 0 <= index < |s|
    ensures index < r.index <= |s| + 1
  {
    var j := ScanEnd(s, index, NameRun);
    var node := Leaf(Lookup(registry, Token(s, index, j)));
    State(j + 1, Place(stack, node, CharAt(s, j + 1)))
  }

  /** `,`: IPARC the argument before it and push it back with a comma marker above. */
  function CommaRound(stack: Stack): Result<Stack>
  {
    var sp :- Iparc(stack);
    Ok(sp.stack + [sp.node, Some(Leaf(Marker(',')))])
  }

  /** `)`: close the group and attach what it gives with PARC. */
  function CloseRound(stack: Stack): Result<Stack>
  {
    var sp :- CloseGroup(stack);
    Parc(sp.stack, sp.node)
  }

  /** One iteration of the main loop, dispatching on the character at `index`. */
  function Step(registry: Registry, s: string, index: int, stack: Stack): (r: Result<State>)
    requires 0 <= index < |s|
    ensures r.Ok? ==> index < r.value.index <= |s| + 1
  {
    var c := s[index];
    if IsNumberChar(Some(c)) then Ok(NumberRound(s, index, stack))
    else if IsOperator(Some(c)) || c == '!' then
      Ok(State(index + 1, Pap(stack, Leaf(Fn(FunctionFromOperator(c))))))
    else if c == ',' then
      var st :- CommaRound(stack);
      Ok(State(index + 1, st))
    else if c == '(' then
      Ok(State(index + 1, stack + [Some(Leaf(Marker('(')))]))
    else if c == ')' then
      var st :- CloseRound(stack);
      Ok(State(index + 1, st))
    else Ok(NameRound(registry, s, index, stack))
  }

  /**
   * End of input: close groups as if `)` kept arriving (without needing the
   * `(`) until at most one entry is left.
   */
  function Reduce(stack: Stack): (r: Result<Stack>)
    ensures r.Ok? ==> |r.value| <= 1
    ensures r.Ok? && stack != [] ==> |r.value| == 1
    ensures |stack| <= 1 ==> r == Ok(stack)
    decreases |stack|
  {
    if |stack| <= 1 then Ok(stack)
    else
      var sp :- CloseGroup(stack);
      var st :- Parc(sp.stack, sp.node);
      Reduce(st)
  }

  /** After the loop: reduce, then pop the root (undefined when nothing is left). */
  function Finish(stack: Stack): Result<Slot>
  {
    var st :- Reduce(stack);
    Ok(Top(st))
  }

  /** The main loop from scan position `index` with the given stack. */
  function ParseFrom(registry: Registry, s: string, index: int, stack: Stack): Result<Slot>
    requires 0 <= index <= |s| + 1
    decreases |s| + 1 - index
  {
    if index >= |s| then Finish(stack)
    else
      var st :- Step(registry, s, index, stack);
      ParseFrom(registry, s, st.index, st.stack)
  }

  /** `parse(expressionString)`: the root node, undefined for empty input, or the error thrown. */
  function Parse(registry: Registry, s: string): Result<Slot>
  {
    ParseFrom(registry, s, 0, [])
  }
}
