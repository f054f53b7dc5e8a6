/**
 * The imperative parser: the JavaScript array used as the parse stack and
 * the `Parser` object's stack operations and main loop, each proved to
 * compute its function in module `ParserSpec`: `PushAsParent` computes
 * `Pap`, `PushAsRightChild` `Parc`, `IteratedPushAsRightChild` `Iparc`,
 * `ReverseArray` `Reverse`, `CloseGroup` `CloseGroup`, `ScanToken`
 * `ScanEnd` and `Token`, `PlaceNode` `Place`, `ReadNumber` `NumberRound`,
 * `ReadName` `NameRound`, `ParseStep` `Step` and `Parse` `Parse`.
 */
module Parser {
  import opened Outcomes
  import opened ExpressionTree
  import opened ParserSpec

  /** A JavaScript array used as a stack; the last element is the top. */
  class NodeStack {
    var items: Stack

    constructor ()
      ensures items == []
    {
      items := [];
    }

    /** `stack[stack.length - 1]`. */
    function Peek(): Slot
      reads this
    {
      Top(items)
    }

    method Push(s: Slot)
      modifies this
      ensures items == old(items) + [s]
    {
      items := items + [s];
    }

    /** `stack.pop()`: the former top (undefined when empty) is removed and returned. */
    method Pop() returns (s: Slot)
      modifies this
      ensures s == Top(old(items))
      ensures items == ParserSpec.Pop(old(items))
    {
      if items == [] {
        s := None;
      } else {
        s := items[|items| - 1];
        items := items[..|items| - 1];
      }
    }
  }

  /** `Parser`: parses expression strings against the functions of `registry`. */
  class Parser {
    const registry: Registry

    constructor (registry: Registry)
      ensures this.registry == registry
    {
      this.registry := registry;
    }

    /** PAP: push `node`, adopting the top as its left child unless `node` is a unary minus. */
    method PushAsParent(stack: NodeStack, node: Node)
      modifies stack
      ensures stack.items == Pap(old(stack.items), node)
    {
      var peek := stack.Peek();
      if node.op == Fn(SubtractOp) &&
         (peek.None? || (NodeIsOperator(peek) && peek.value.right.None?) ||
          LooselyEquals(peek.value.op, '(') || LooselyEquals(peek.value.op, ','))
      {
        stack.Push(Some(node));
      } else {
        var adopted := node.(left := peek);
        var _ := stack.Pop();
        stack.Push(Some(adopted));
      }
    }

    /** PARC: attach `s` as the top's right child, or multiply it in, or push it on an empty stack. */
    method PushAsRightChild(stack: NodeStack, s: Slot) returns (r: Result<()>)
      modifies stack
      ensures Parc(old(stack.items), s).Err? ==> r == Err(TypeError) && stack.items == old(stack.items)
      ensures Parc(old(stack.items), s).Ok? ==> r == Ok(()) && stack.items == Parc(old(stack.items), s).value
    {
      if stack.items == [] {
        stack.Push(s);
        return Ok(());
      }
      var peek := stack.Peek();
      if peek.None? {
        return Err(TypeError);
      }
      if peek.value.right.Some? {
        var product := Node(Fn(MultiplyOp), peek, s);
        var _ := stack.Pop();
        stack.Push(Some(product));
      } else {
        var _ := stack.Pop();
        stack.Push(Some(peek.value.(right := s)));
      }
      return Ok(());
    }

    /** IPARC: pop nodes down to the nearest scope marker, chaining each as the right child of the one below. */
    method IteratedPushAsRightChild(stack: NodeStack) returns (r: Result<Slot>)
      modifies stack
      ensures Iparc(old(stack.items)).Err? ==> r == Err(Iparc(old(stack.items)).error)
      ensures Iparc(old(stack.items)).Ok? ==>
                r == Ok(Iparc(old(stack.items)).value.node) && stack.items == Iparc(old(stack.items)).value.stack
    {
      var current := stack.Pop();
      while stack.items != []
        invariant IparcLoop(stack.items, current) == Iparc(old(stack.items))
        decreases |stack.items|
      {
        var peek := stack.Peek();
        if peek.None? {
          return Err(TypeError);
        }
        if IsScopeMarker(peek.value.op) {
          break;
        }
        var previous := stack.Pop();
        current := Some(previous.value.(right := current));
      }
      return Ok(current);
    }

    /** `reverseArray`: move every item of `oldArray`, last first, into a new array. */
    method ReverseArray(oldArray: NodeStack) returns (reversed: NodeStack)
      modifies oldArray
      ensures fresh(reversed)
      ensures reversed.items == Reverse(old(oldArray.items))
      ensures oldArray.items == []
    {
      reversed := new NodeStack();
      while oldArray.items != []
        invariant fresh(reversed)
        invariant reversed.items + Reverse(oldArray.items) == Reverse(old(oldArray.items))
        decreases |oldArray.items|
      {
        ReverseLast(oldArray.items);
        var last := oldArray.Pop();
        reversed.Push(last);
      }
    }

    /**
     * The work of `)` before its PARC (and of each end-of-input round): IPARC,
     * pop the marker, and when it is a comma collect the arguments into a
     * list node.
     */
    method CloseGroup(stack: NodeStack) returns (r: Result<Slot>)
      modifies stack
      ensures ParserSpec.CloseGroup(old(stack.items)).Err? ==>
                r == Err(ParserSpec.CloseGroup(old(stack.items)).error)
      ensures ParserSpec.CloseGroup(old(stack.items)).Ok? ==>
                r == Ok(ParserSpec.CloseGroup(old(stack.items)).value.node) &&
                stack.items == ParserSpec.CloseGroup(old(stack.items)).value.stack
    {
      var newNode :- IteratedPushAsRightChild(stack);
      var marker := stack.Pop();
      if marker.Some? && LooselyEquals(marker.value.op, ',') {
        ghost var goal := CollectArgs(stack.items, [], newNode);
        var parameterList := new NodeStack();
        while true
          invariant fresh(parameterList)
          invariant CollectArgs(stack.items, parameterList.items, newNode) == goal
          decreases |stack.items|
        {
          parameterList.Push(newNode);
          newNode :- IteratedPushAsRightChild(stack);
          marker := stack.Pop();
          if marker.None? {
            return Err(TypeError);
          }
          if !LooselyEquals(marker.value.op, ',') {
            break;
          }
        }
        parameterList.Push(newNode);
        var reversedList := ReverseArray(parameterList);
        newNode := Some(Leaf(List(reversedList.items)));
      }
      return Ok(newNode);
    }

    /** The scanning loop of a number literal or a function name starting at `start`. */
    method ScanToken(s: string, start: int, run: Run) returns (token: string, index: int)
      requires 0 <= start < |s|
      ensures index == ScanEnd(s, start, run)
      ensures token == Token(s, start, index)
    {
      token := [s[start]];
      index := start;
      var nextChar := CharAt(s, index + 1);
      while index < |s| && Extends(run, nextChar)
        invariant start <= index <= |s|
        invariant ScanEnd(s, index, run) == ScanEnd(s, start, run)
        invariant token == Token(s, start, index)
        invariant nextChar == CharAt(s, index + 1)
        decreases |s| - index
      {
        ScanContinues(s, start, index, run);
        token := token + (if nextChar.Some? then [nextChar.value] else "");
        index := index + 1;
        nextChar := CharAt(s, index + 1);
      }
    }

    /** The order-of-operations check that either PARCs or pushes a new literal or function node. */
    method PlaceNode(stack: NodeStack, node: Node, next: Option<char>)
      modifies stack
      ensures stack.items == Place(old(stack.items), node, next)
    {
      var peek := stack.Peek();
      if stack.items != [] && NodeIsOperator(peek) && IsOperator(next) {
        var previousOperator := peek.value.op.kind;
        var nextOperator := next.value;
        if previousOperator == PowOp && nextOperator != '^' {
          var _ := PushAsRightChild(stack, Some(node));
        } else if (previousOperator == MultiplyOp || previousOperator == DivideOp) && nextOperator != '^' {
          var _ := PushAsRightChild(stack, Some(node));
        } else if (previousOperator == DivideOp && (nextOperator == '*' || nextOperator == '/')) ||
                  (previousOperator == SubtractOp && (nextOperator == '+' || nextOperator == '-')) {
          var _ := PushAsRightChild(stack, Some(node));
        } else {
          stack.Push(Some(node));
        }
      } else {
        stack.Push(Some(node));
      }
    }

    /** The number branch of the main loop: scan the literal, `parseFloat` it and place the number node. */
    method ReadNumber(stack: NodeStack, s: string, index: int) returns (next: int)
      requires 0 <= index < |s|
      modifies stack
      ensures State(next, stack.items) == NumberRound(s, index, old(stack.items))
    {
      var literal, last := ScanToken(s, index, NumberRun);
      PlaceNode(stack, Leaf(ParseFloat(literal)), CharAt(s, last + 1));
      next := last + 1;
    }

    /** The name branch of the main loop: scan the name, look it up and place the function node. */
    method ReadName(stack: NodeStack, s: string, index: int) returns (next: int)
      requires 0 <= index < |s|
      modifies stack
      ensures State(next, stack.items) == NameRound(registry, s, index, old(stack.items))
    {
      var name, last := ScanToken(s, index, NameRun);
      PlaceNode(stack, Leaf(Lookup(registry, name)), CharAt(s, last + 1));
      next := last + 1;
    }

    /** One iteration of the main loop of `parse`; returns the next scan position. */
    method ParseStep(stack: NodeStack, s: string, index: int) returns (r: Result<int>)
      requires 0 <= index < |s|
      modifies stack
      ensures Step(registry, s, index, old(stack.items)).Err? ==>
                r == Err(Step(registry, s, index, old(stack.items)).error)
      ensures Step(registry, s, index, old(stack.items)).Ok? ==>
                r == Ok(Step(registry, s, index, old(stack.items)).value.index) &&
                stack.items == Step(registry, s, index, old(stack.items)).value.stack
    {
      var token := s[index];
      if IsNumberChar(Some(token)) {
        var next := ReadNumber(stack, s, index);
        return Ok(next);
      } else if IsOperator(Some(token)) || token == '!' {
        PushAsParent(stack, Leaf(Fn(FunctionFromOperator(token))));
      } else if token == ',' {
        var newNode :- IteratedPushAsRightChild(stack);
        stack.Push(newNode);
        stack.Push(Some(Leaf(Marker(','))));
      } else if token == '(' {
        stack.Push(Some(Leaf(Marker('('))));
      } else if token == ')' {
        var newNode :- CloseGroup(stack);
        var _ :- PushAsRightChild(stack, newNode);
      } else {
        var next := ReadName(stack, s, index);
        return Ok(next);
      }
      return Ok(index + 1);
    }

    /** `parse`: the root of the expression tree, undefined for empty input, or the error thrown. */
    method Parse(s: string) returns (r: Result<Slot>)
      ensures r == ParserSpec.Parse(registry, s)
    {
      var index := 0;
      var nodeStack := new NodeStack();
      while index < |s|
        invariant 0 <= index <= |s| + 1
        invariant ParseFrom(registry, s, index, nodeStack.items) == ParserSpec.Parse(registry, s)
        decreases |s| + 1 - index
      {
        index :- ParseStep(nodeStack, s, index);
      }
      while |nodeStack.items| > 1
        invariant Finish(nodeStack.items) == ParserSpec.Parse(registry, s)
        decreases |nodeStack.items|
      {
        var newNode :- CloseGroup(nodeStack);
        var _ :- PushAsRightChild(nodeStack, newNode);
      }
      var treeParent := nodeStack.Pop();
      return Ok(treeParent);
    }
  }
}
