# AlphaCalc expression parser and evaluator, in Dafny

AlphaCalc is a browser calculator. A formula typed by the user, such as
`2+3*4`, `min(4, 2, 7)` or `5!`, goes through three stages:

- `Parser.parse` turns it into an `ExpressionNode` tree with one left-to-right
  pass over the characters, using a stack and three stack operations:
  - PAP, push-as-parent;
  - PARC, push-as-right-child;
  - IPARC, iterated push-as-right-child.
- `evaluateExpression` walks the tree.
- It calls the catalogue functions of `alphamath.js` by identity, for the
  operators and for every function name found in the formula.

This project models that core and proves properties of it.

- `outcomes.dfy` (`Outcomes`) holds `Option` and `Result`. A thrown
  JavaScript `TypeError`, a NaN and an infinity each become a distinct
  `Failure`.
- `expression_tree.dfy` (`ExpressionTree`) holds the `ExpressionNode` value:
  - its operation is a number, a function, `undefined`, a `"("`/`","`
    marker string or an argument array;
  - it has `left` and `right` children;
  - it provides `getNodeAt` and `getLength`.
- `arith.dfy` (`Arith`) gives the exact-number meaning of the catalogue's
  loops:
  - running total, running minimum and maximum, and the factorial product;
  - JavaScript's truncated `%`;
  - the mean and its bounds.
- `evaluator.dfy` (`Evaluator`) holds `evaluateExpression` and the catalogue
  functions as pure functions, with lemmas about each.
- `alpha_math.dfy` (`AlphaMath`) holds the catalogue functions whose bodies
  are loops (`sum`, `avg`, `min`, `max`, `factorial`). Each is an imperative
  method proved to return what the `Evaluator` function says. It also holds
  the name-to-function registry that the page's global scope provides.
- `parser_spec.dfy` (`ParserSpec`) gives the meaning of `parse` as pure
  functions over a stack of slots:
  - the character classes and the two scanning loops;
  - `parseFloat` of a scanned literal;
  - PAP, PARC and IPARC;
  - the argument-collecting loop of `)`;
  - `reverseArray`;
  - the precedence test;
  - one iteration of the main loop, and the end-of-input folding.
- `parser.dfy` (`Parser`) is the imperative parser:
  - the stack is a `NodeStack` object whose `items` the methods update;
  - every method of the `Parser` object is proved to compute one
    `ParserSpec` function: `PushAsParent` computes `Pap`,
    `PushAsRightChild` `Parc`, `IteratedPushAsRightChild` `Iparc`,
    `ReverseArray` `Reverse`, `CloseGroup` `CloseGroup`, `ScanToken`
    `ScanEnd` and `Token`, `PlaceNode` `Place`, `ReadNumber` `NumberRound`,
    `ReadName` `NameRound`, `ParseStep` `Step`, and `Parse` `Parse`.
- `parser_properties.dfy` (`ParserProperties`) proves what IPARC builds and
  that `)` gathers comma-separated arguments into one list node in source
  order.
- `calculator.dfy` (`Calculator`) covers parsing followed by evaluation, as
  the page does it:
  - decimal literals read back to their value;
  - how `a o1 b o2 c` is grouped for every pair of operators, and how the
    chain `a-b*c-d` is grouped against precedence;
  - the value of some groupings;
  - decimal fractions such as `2.5` read back to their value;
  - what postfix `n!` parses into;
  - unary minus, implicit products such as `2(3+4)`, parentheses, function
    calls, and malformed input (empty, an unclosed `(`, a comma outside any
    call).

The model follows the code. Two places in it do not do what the
surrounding code and comments say they should:
- The comment at js/alphaparser.js:142 says that `!` is the one node with a
  single left child. `factorial` (js/alphamath.js:210-217) reads only its
  right child.
- `avg` (js/alphamath.js:168-174) divides by a property that nodes do not
  have.

Both are recorded under "## Findings" and modelled twice. `Evaluator.Eval`,
like the page, calls the versions as written (`AvgAsWritten`,
`FactorialAsWritten`, each with an imperative twin in `AlphaMath`).
`Evaluator.Avg` and `Evaluator.Factorial` are the evidently intended
versions, and the lemmas about averages and factorials are stated for them.

## Model

| member | source | states |
|---|---|---|
| ExpressionTree.GetNodeAt | js/alphaparser.js:58-75 | A list node answers an index below `getLength()` with that argument. Any other index gives null. A non-list node answers index 0 with itself and behaves as a one-argument list. |
| Evaluator.EvalAtIndex | js/alphaparser.js:42-75 | Evaluating a list node at an index below `getLength()` is evaluating the argument `getNodeAt` returns there; at any other index it throws. A non-list node ignores the index, evaluates itself, and is its own argument 0. |
| Evaluator.ArgValuesAt | js/alphamath.js:176-182 | Reading arguments 0..k-1 succeeds exactly when each of them evaluates, and then lists their values in index order. |
| Evaluator.ArgValuesFailurePersists | js/alphamath.js:176-182 | Once one argument throws, reading more arguments throws the same error: the first failure ends the loop. |
| Evaluator.BinaryOperators | js/alphamath.js:17-35 | `add`, `subtract`, `multiply` and `divide` combine the values of the left and right children; division is exact when the divisor is non-zero. |
| Evaluator.OperatorsReadValues | js/alphamath.js:17-39 | `add`, `subtract`, `multiply`, `divide` and `pow` depend on the right child only through its value: two right children with the same value give the same result. |
| Evaluator.SubtractNegates | js/alphamath.js:21-27 | `subtract` with a null left child is the additive inverse of its right child. |
| Evaluator.ModOfNaturals | js/alphamath.js:41-43 | `mod` takes arguments 0 and 1 of its right child; on natural numbers it is the integer remainder. |
| Arith.TruncRemNegativeDividend | js/alphamath.js:41-43 | An example of `Arith.TruncRemSign`: -7 % 3 is -1, where Dafny's Euclidean `%` gives 2. |
| Arith.TruncRemSign | js/alphamath.js:41-43 | For every dividend and non-zero divisor, JavaScript's `%` has the sign of the dividend (or is zero) and is smaller in magnitude than the divisor. |
| Arith.TruncRemNatural | js/alphamath.js:41-43 | On non-negative integers the truncated remainder equals the integer remainder. |
| Evaluator.SumIsTotal | js/alphamath.js:176-182 | When every argument evaluates, `sum` succeeds with the total of the values of arguments 0 … getLength()-1. For a bare argument that is its value; for two arguments it is their sum. |
| AlphaMath.Sum | js/alphamath.js:176-182 | The loop `total += right.evaluateExpression(i)` over `i < getLength()` returns exactly `Evaluator.Sum`, error cases included. |
| Evaluator.MinIsLeastArgument | js/alphamath.js:184-193 | The result of `min` is the value of some argument, and no argument's value is smaller. |
| Arith.MinOfIsLeast | js/alphamath.js:184-193 | The running minimum is one of the values and is at most every value. |
| AlphaMath.Min | js/alphamath.js:184-193 | The loop that starts from argument 0 and keeps any strictly smaller later argument returns exactly `Evaluator.Min`. |
| Evaluator.MaxIsGreatestArgument | js/alphamath.js:199-208 | The result of `max` is the value of some argument, and no argument's value is larger. |
| Arith.MaxOfIsGreatest | js/alphamath.js:199-208 | The running maximum is one of the values and is at least every value. |
| AlphaMath.Max | js/alphamath.js:199-208 | The loop that keeps any strictly larger later argument returns exactly `Evaluator.Max`. |
| Evaluator.AvgAsWrittenIsNaN | js/alphamath.js:168-174 | Whenever the intended mean is a number, the `avg` as written gives NaN. Example: `avg(1, 2)` is NaN as written and 1.5 as intended. |
| Evaluator.AvgIsBetween | js/alphamath.js:168-174 | The intended `avg` lies between `min` and `max` of the same arguments. |
| Evaluator.AvgTimesCountIsSum | js/alphamath.js:168-174 | The intended `avg` times the number of arguments is their `sum`. |
| Arith.MeanBetween | js/alphamath.js:168-174 | The total divided by the count lies between the running minimum and the running maximum. |
| AlphaMath.Avg | js/alphamath.js:168-174 | The `avg` loop, dividing by `getLength()`, returns exactly the intended `Evaluator.Avg`. |
| AlphaMath.AvgAsWritten | js/alphamath.js:168-174 | The `avg` loop as written, dividing by the missing `right.length`, returns exactly `Evaluator.AvgAsWritten`: the first failing argument's error, NaN otherwise. |
| Evaluator.FactorialAsWrittenReadsRight | js/alphamath.js:210-217 | The `factorial` as written ignores its left child. With no right child it throws; otherwise it is 2·3·…·floor(v) of the right child's value v. |
| Evaluator.FactorialOfOperand | js/alphamath.js:210-217 | The intended `factorial`: a postfix operand n gives 2·3·…·floor(n), and an operand that throws propagates. The call form `factorial(x)` behaves exactly as the source. |
| Evaluator.FactorialTimesJuxtaposed | js/alphamath.js:210-217 | In the intended `factorial`, a term juxtaposed after `n!` multiplies the factorial. |
| Evaluator.FactorialPostfixExamples | js/alphamath.js:210-217 | On the trees of `5!` and `3!2`: as written, one throws and the other gives 2; as intended they give 120 and 12. |
| AlphaMath.ProductUpTo | js/alphamath.js:211-216 | The loop `factorial *= i` for `i = 2, 3, …` while `i <= v` returns 2·3·…·floor(v). |
| AlphaMath.Factorial | js/alphamath.js:210-217 | The `factorial` loop with the intended operand returns exactly `Evaluator.Factorial`. |
| AlphaMath.FactorialAsWritten | js/alphamath.js:210-217 | The `factorial` loop as written, on the right child only, returns exactly `Evaluator.FactorialAsWritten`. |
| ParserSpec.FunctionFromOperator | js/alphaparser.js:289-304 | Each of `+ - * / ^` maps to one of the five functions `nodeIsOperator` accepts. `!` maps to `factorial`, which it does not accept. |
| Calculator.OperatorIsNoNumber | js/alphaparser.js:314-316 | `isValidNumber` rejects the operator characters and `!`, and none of them is `.`, so none can start or continue a number literal. |
| ParserSpec.ScanEnd | js/alphaparser.js:110-115 | The scanning loop stops at or before the end of the input. It stops either at the end or where the next character does not continue the run. |
| ParserSpec.ScanEndCovers | js/alphaparser.js:170-176 | Every character the scanning loop steps over continues the run: a number character, or a name character that is not `( ) , !` or an operator. |
| Calculator.ScanDigits | js/alphaparser.js:110-115 | On a run of digits followed by a non-number character, the number scan stops exactly at the end of the run. |
| Calculator.ParseFloatOfDecimal | js/alphaparser.js:117 | `parseFloat` of the decimal spelling of n is n. |
| ParserSpec.Pap | js/alphaparser.js:240-251 | PAP pushes a unary `-` bare when the stack is empty, or its top is an operator lacking a right operand, or a `(` or `,`. Otherwise it pops the top and pushes the new node with the old top as its left child. |
| Parser.Parser.PushAsParent | js/alphaparser.js:240-251 | The stack after the method is `Pap` of the stack before it. |
| ParserSpec.Parc | js/alphaparser.js:256-269 | PARC pushes onto an empty stack and fails exactly on an undefined top. A top without a right child takes the node as its right child; a top that has one is replaced by `multiply(top, node)`. No other entry changes. |
| Parser.Parser.PushAsRightChild | js/alphaparser.js:256-269 | The method fails exactly when `Parc` does, leaving the stack unchanged; otherwise the new stack is `Parc`'s. |
| ParserSpec.IparcLoop | js/alphaparser.js:276-281 | IPARC's loop leaves a prefix of the stack that is empty or has a `(`/`,` marker on top, none of the entries it popped is undefined or such a marker, and it fails only with a TypeError. |
| ParserSpec.Iparc | js/alphaparser.js:273-283 | IPARC pops at least one entry from a non-empty stack and stops at the nearest scope marker below the top, or at the bottom: no entry it pops from below the top is undefined or a marker. |
| ParserProperties.IparcSpine | js/alphaparser.js:273-283 | IPARC on a stack with chainable nodes above a marker chains them: each becomes the right child of the one below it. The marker stays. |
| Parser.Parser.IteratedPushAsRightChild | js/alphaparser.js:273-283 | The method returns the node `Iparc` builds and leaves the stack `Iparc` leaves, or fails as it does. |
| ParserSpec.CollectArgs | js/alphaparser.js:158-164 | The argument loop records the current node first, records at least two arguments, and shrinks the stack. |
| ParserSpec.CollectedIsPrefix | js/alphaparser.js:158-164 | The argument loop only pops: the stack it leaves is a prefix of the one it started from. |
| ParserSpec.CloseGroup | js/alphaparser.js:155-167 | The work of `)` before its PARC shrinks a non-empty stack to a prefix of itself. |
| ParserProperties.ArgumentsInSourceOrder | js/alphaparser.js:155-167 | `)` after `f(a0, …, ak)` with at least two arguments gives one list node holding `a0 … ak` in source order, and the `(` is consumed. The last argument may be any chain of operator nodes, folded into its right spine. |
| ParserProperties.CollectArgsInterleaved | js/alphaparser.js:158-164 | On `a0 , … , ak` above a `(`, the argument loop records the arguments last-first and stops below the `(`. |
| Parser.Parser.CloseGroup | js/alphaparser.js:155-167 | The method returns the node and leaves the stack that `ParserSpec.CloseGroup` describes, or fails as it does. |
| ParserProperties.ReverseReverse | js/alphaparser.js:230-236 | Reversing twice gives the sequence back, so `reverseArray` turns the last-first record into source order. |
| Parser.Parser.ReverseArray | js/alphaparser.js:230-236 | The method empties the old array and returns a new one with its items in reverse order. |
| ParserSpec.AttachesEagerly | js/alphaparser.js:127-135 | The precedence test holds exactly when the previous operator is `^`, `*` or `/` and the next is not `^`, or the previous is `-` and the next is `+` or `-`. |
| Parser.Parser.PlaceNode | js/alphaparser.js:119-141 | The order-of-operations check leaves the stack `Place` describes: PARC when the test holds between two operators, otherwise push. |
| Parser.Parser.ScanToken | js/alphaparser.js:110-115 | The scanning loop returns the index `ScanEnd` gives and the token of the characters it passed. |
| ParserSpec.NumberRound | js/alphaparser.js:107-141 | A number round moves the scan position forward, at most one past the end. |
| Parser.Parser.ReadNumber | js/alphaparser.js:107-141 | The number branch leaves the position and stack of `NumberRound`. |
| ParserSpec.NameRound | js/alphaparser.js:169-202 | A name round moves the scan position forward, at most one past the end. |
| Parser.Parser.ReadName | js/alphaparser.js:169-202 | The name branch leaves the position and stack of `NameRound`. |
| ParserSpec.Step | js/alphaparser.js:104-205 | A successful iteration of the main loop moves the scan position forward, at most one past the end. |
| Parser.Parser.ParseStep | js/alphaparser.js:104-205 | One iteration of the main loop fails as `Step` does or leaves its position and stack. |
| ParserSpec.Reduce | js/alphaparser.js:207-223 | The end-of-input folding leaves at most one entry, exactly one from a non-empty stack, and does nothing to a stack of at most one entry. |
| Calculator.FinishChain | js/alphaparser.js:207-226 | At the end of input, a stack of chainable nodes folds into its right spine, which becomes the root. |
| Parser.Parser.Parse | js/alphaparser.js:100-227 | The method returns exactly `ParserSpec.Parse`: the root, undefined for empty input, or the error thrown. |
| Calculator.DigitStep | js/alphaparser.js:107 | A round of the main loop that starts on a digit is a number round. |
| Calculator.OperatorCharStep | js/alphaparser.js:142-144 | A round that starts on an operator or `!` applies PAP to the operator's function node and advances by one. |
| Calculator.LiteralStep | js/alphaparser.js:107-141 | A round on the decimal literal of n reads the whole literal and places a number node holding n. |
| Calculator.ParseDecimal | js/alphaparser.js:100-227 | The decimal spelling of n parses into a single number node holding n. |
| Calculator.LiteralRoundTrip | js/main.js:38-41 | Parsing the decimal spelling of n and evaluating the root gives n back. |
| Calculator.NumberLiteralParses | js/alphaparser.js:107-141 | A non-empty input made only of number characters (digits, dots, white space) parses into a single number node holding `parseFloat` of the whole input. |
| Calculator.FractionalRoundTrip | js/main.js:38-41 | Parsing `ip.fp` for digit strings ip and fp, not both empty, and evaluating the root gives ip + fp/10^|fp|. |
| Calculator.TwoOperatorsGrouping | js/alphaparser.js:119-144 | For any two operators, `a o1 b o2 c` becomes `(a o1 b) o2 c` exactly when the precedence test lets b attach to o1 at once. Otherwise it becomes `a o1 (b o2 c)`. |
| Calculator.PrecedenceExamples | js/alphaparser.js:126-135 | The groupings give 2+3*4 = 14, 2*3+4 = 10, 8-3-2 = 3 and 2^1^2 = 2. |
| Calculator.ThreeOperatorChain | js/alphaparser.js:119-144 | For all a, b, c, d, the stack operations for `a-b*c-d` build `a-((b*c)-d)`: the precedence test sees only the operator on top of the stack and the next character, so the second `-` adopts `b*c` and the first `-` stays below it. |
| Calculator.ThreeOperatorChainValue | js/alphamath.js:21-31 | That tree evaluates to a - b·c + d, while grouping by precedence gives a - b·c - d; the two differ whenever d is not 0. |
| Calculator.ThreeOperatorChainExample | js/alphamath.js:21-31 | `2-3*4-5` evaluates to -5, where precedence gives -15. |
| Calculator.PostfixFactorialParses | js/alphaparser.js:142-144 | `n!` parses into a factorial node whose left child is n and which has no right child. |
| Calculator.PostfixFactorial | js/alphaparser.js:142-144 | `n!` parses into a factorial node with n as left child; with the `factorial` as written the whole input throws, and the intended `factorial` on that tree gives 2·3·…·n. |
| Calculator.LeadingUnaryMinus | js/alphaparser.js:240-251 | In `-a+b` the leading `-` is pushed bare by PAP and takes `a` as its right child, so the tree is `(-a)+b`. |
| Calculator.LeadingUnaryMinusValue | js/alphamath.js:17-27 | The tree of `-a+b` evaluates to b - a. |
| Calculator.UnaryMinusOperand | js/alphaparser.js:240-251 | For every binary operator o, the `-` of `a o -b` is pushed bare because o still lacks its right operand, so the tree is `a o (-b)`. |
| Calculator.UnaryMinusValue | js/alphamath.js:17-39 | The tree of `a o -b` evaluates exactly as o applied to a and the number -b. |
| Calculator.UnaryMinusExample | js/alphamath.js:21-31 | `3*-2` evaluates to -6. |
| Calculator.ImplicitProduct | js/alphaparser.js:154-168 | In `a(b+c)` the `)` folds the group into `b+c`, and PARC makes it the right child of the number a. |
| Calculator.ImplicitProductValue | js/alphaparser.js:43-47 | A number node with a right child multiplies it: the tree of `a(b+c)` evaluates to a·(b+c). |
| Calculator.UnclosedParenthesis | js/alphaparser.js:207-223 | At the end of input an unclosed `(a+b` folds as if its `)` were there, into `a+b`. |
| Calculator.EmptyInput | js/main.js:38-41 | Empty input parses to undefined, and evaluating it throws. |
| Calculator.TopLevelComma | js/alphaparser.js:145-150 | `a,b` outside any call: the comma round pushes `a` and a comma marker, and the end-of-input folding throws, since no marker lies below `a`. |
| Calculator.Parentheses | js/alphaparser.js:151-168 | `(a)`: the `)` gives `a` back and consumes the `(`. |
| Calculator.NestedParentheses | js/alphaparser.js:151-168 | `((a))`: the inner `)` makes `a` the right child of the outer `(` marker, the outer `)` keeps that marker as the root, and evaluating it throws. |
| Calculator.FunctionCall | js/alphaparser.js:169-202 | `name(a)`: the name's node, holding what `getFunctionFromToken` finds, takes the group `a` as its right child. |
| Calculator.CallValue | js/alphaparser.js:318-321 | The tree of `name(a)` applies a registered function to no left child and right child `a`; an unregistered name leaves `undefined`, and evaluating it throws. |

## Left out

- The page itself, `js/main.js` outside lines 38-41, is not part of this model: the DOM, the history table, the `Ans` value and the key handlers.
- Calculator.LiteralRoundTrip: `main.js` removes the first space of the input before parsing. Whole-formula results (`LiteralRoundTrip`, `FractionalRoundTrip`) are stated for inputs without spaces, so this step is not modelled.
- Floating-point arithmetic is not modelled. Numbers are exact reals, and binary rounding of literals and results is left out.
- NaN and the infinities are failures, not values. `0/0` and a NaN literal give `NotANumber`; `x/0` gives `DivisionByZero`. Arithmetic that would continue with NaN or Infinity therefore stops early in the model.
- Evaluator.Pow: `Math.pow` is interpreted only for whole non-negative exponents; any other exponent gives an `Unmodelled` failure.
- The floating-point library functions (`abs`, `recip`, `inv`, `sqrt`, `nthrt`, `ln`, `log`, `logBase`, the trigonometric functions and their inverses) evaluate to an `Unmodelled` failure. They wrap `Math` routines whose results are floating-point. The source defines all nine of `asin`, `acos`, `atan`, `sec`, `csc`, `cot`, `asec`, `acsc` and `acot` twice (js/alphamath.js:96-166), and the later definitions win; that duplication is not represented.
- `count` (js/alphamath.js:195-197) reads `right.length`, which is undefined on a node. `random` (js/alphamath.js:219-221) draws from `Math.random`. Both are registered as `Unmodelled`.
- `getFunctionFromToken` reads `window[token]`. Here it is a lookup in a `Registry` map passed to the parser, and `AlphaMath.Catalogue` is the map the page provides.
- ParserSpec.Lookup: `window[token]` also finds number-valued globals (`NaN`, `Infinity`, and the page's `lastAnswer`), which the source then evaluates as number literals (js/alphaparser.js:43-47). A `Registry` maps names to functions only, so in the model these names are undefined and evaluating them gives `TypeError`.
- Nodes are values, so in-place updates of the node on top of the stack are modelled by replacing it. Aliasing between stack entries and children cannot arise in the source's use and is not represented.
- ParserSpec.Reverse: its own contract states only the length; `ParserProperties.ReverseReverse` and `ArgumentsInSourceOrder` state the order.
- ParserSpec.IparcLoop: IPARC overwrites an existing right child (`2(3)4` evaluates to 8, not 24). The model reproduces this, but no lemma states it separately.
- Calculator.TwoOperatorsGrouping: grouping by precedence holds for two operators only. The source's test compares just the operator on top of the stack with the next character, so longer chains such as `a-b*c-d` (2-3*4-5 gives -5) and `a/b^c*d` (8/2^2*2 gives 1) are grouped against precedence. The model reproduces this (`ThreeOperatorChain`) and does not define a corrected grouping for longer chains.
- Calculator.TwoOperatorsGrouping: precedence is proved for the stack operations the main loop performs on `a o1 b o2 c`, not for the character string; so are unary minus, implicit products, parentheses, calls and the comma cases. Whole-string parse theorems are proved for number literals (`ParseDecimal`, `NumberLiteralParses`), for `n!` (`PostfixFactorialParses`) and for empty input only.
- Errors are not classified into parse and evaluation errors. The source throws JavaScript `TypeError`s, and the model returns `Err(TypeError)` where it would throw.

## Findings

| source | as written | input that shows it | evidently intended | confidence | as-written member | corrected member |
|---|---|---|---|---|---|---|
| js/alphamath.js:168-174 | `avg` divides the total by `right.length`, a property expression nodes do not have, so the quotient is NaN | `avg(1, 2)` gives NaN | divide by `right.getLength()`, the number of arguments the loop read: `avg(1, 2)` is 1.5 | high (not executed) | Evaluator.AvgAsWritten | Evaluator.Avg |
| js/alphamath.js:210-217 | `factorial` reads only its right child, but postfix `!` is parsed with its operand as the left child (js/alphaparser.js:142-144, PAP) | `5!` throws a TypeError; `3!2` gives 2 | the operand of `n!` is the left child, and a juxtaposed term multiplies the result: `5!` is 120, `3!2` is 12 | high (not executed) | Evaluator.FactorialAsWritten | Evaluator.Factorial |
