/**
 * Properties of the parse functions: what IPARC builds, that `)` collects
 * comma-separated arguments in source order, and that a decimal literal
 * scans and parses to its own value.
 */
module ParserProperties {
  import opened Outcomes
  import opened ExpressionTree
  import opened ParserSpec

  // ----- IPARC builds a right spine -----

  /** Every entry is a node that IPARC passes over. */
  predicate AllChainable(seg: Stack)
  {
    forall i :: 0 <= i < |seg| ==> seg[i].Some? && !IsScopeMarker(seg[i].value.op)
  }

  /**
   * `seg[0]` with right child `seg[1]` with right child ... with right child
   * `tail`: the chain IPARC makes of the entries above the nearest marker.
   */
  function Spine(seg: Stack, tail: Slot): Slot
    requires AllChainable(seg)
  {
    if seg == [] then tail else Some(seg[0].value.(right := Spine(seg[1..], tail)))
  }

  lemma {:induction false} SpineSnoc(seg: Stack, last: Node, tail: Slot)
    requires AllChainable(seg + [Some(last)])
    ensures AllChainable(seg)
    ensures Spine(seg + [Some(last)], tail) == Spine(seg, Some(last.(right := tail)))
  {
    assert forall i :: 0 <= i < |seg| ==> seg[i] == (seg + [Some(last)])[i];
    if seg != [] {
      assert (seg + [Some(last)])[1..] == seg[1..] + [Some(last)];
      SpineSnoc(seg[1..], last, tail);
    }
  }

  /**
   * IPARC's loop on `base + seg`, where `seg` holds only chainable nodes:
   * it fails if the entry below `seg` is undefined, and otherwise leaves
   * `base` and returns the right spine of `seg` ending in `current`.
   */
  lemma {:induction false} IparcLoopSpine(base: Stack, seg: Stack, current: Slot)
    requires base == [] || Stops(Top(base))
    requires AllChainable(seg)
    ensures IparcLoop(base + seg, current) ==
            if base != [] && Top(base).None? then Err(TypeError) else Ok(Split(base, Spine(seg, current)))
    decreases |seg|
  {
    if seg == [] {
      assert base + seg == base;
    } else {
      var init := seg[..|seg| - 1];
      var last := seg[|seg| - 1].value;
      assert seg == init + [Some(last)];
      assert base + seg == (base + init) + [Some(last)];
      assert Pop(base + seg) == base + init;
      SpineSnoc(init, last, current);
      IparcLoopSpine(base, init, Some(last.(right := current)));
    }
  }

  /** IPARC on a stack whose top entries are chainable nodes `seg` above a marker. */
  lemma {:induction false} IparcSpine(base: Stack, seg: Stack)
    requires base == [] || Stops(Top(base))
    requires AllChainable(seg) && seg != []
    ensures Iparc(base + seg) ==
            if base != [] && Top(base).None? then Err(TypeError)
            else Ok(Split(base, Spine(seg[..|seg| - 1], seg[|seg| - 1])))
  {
    var init := seg[..|seg| - 1];
    assert base + seg == (base + init) + [seg[|seg| - 1]];
    assert AllChainable(init) by {
      assert forall i :: 0 <= i < |init| ==> init[i] == seg[i];
    }
    IparcLoopSpine(base, init, seg[|seg| - 1]);
  }

  // ----- argument lists -----

  const Comma: Slot := Some(Leaf(Marker(',')))

  /** The stack entries that the arguments `args` leave between `(` and `)`: `a0 , a1 , ... , ak`. */
  function Interleaved(args: seq<Node>): Stack
    requires |args| >= 1
  {
    if |args| == 1 then [Some(args[0])]
    else Interleaved(args[..|args| - 1]) + [Comma, Some(args[|args| - 1])]
  }

  function Slots(args: seq<Node>): (r: Stack)
    ensures |r| == |args| && forall i :: 0 <= i < |args| ==> r[i] == Some(args[i])
  {
    if args == [] then [] else [Some(args[0])] + Slots(args[1..])
  }

  predicate NoMarkers(args: seq<Node>)
  {
    forall i :: 0 <= i < |args| ==> !IsScopeMarker(args[i].op)
  }

  lemma {:induction false} ReverseAppend<T>(a: seq<T>, b: seq<T>)
    ensures Reverse(a + b) == Reverse(b) + Reverse(a)
    decreases |a|
  {
    if a == [] {
      assert a + b == b;
    } else {
      assert (a + b)[1..] == a[1..] + b;
      ReverseAppend(a[1..], b);
    }
  }

  /** Reversing twice gives the sequence back, so `reverseArray` restores source order. */
  lemma {:induction false} ReverseReverse<T>(s: seq<T>)
    ensures Reverse(Reverse(s)) == s
    decreases |s|
  {
    if s != [] {
      ReverseAppend(Reverse(s[1..]), [s[0]]);
      ReverseReverse(s[1..]);
      assert Reverse([s[0]]) == [s[0]];
    }
  }

  /** One round of the argument loop: the argument above a comma is recorded and the comma consumed. */
  lemma {:induction false} CollectArgsOverComma(rest: Stack, arg: Node, params: Stack, current: Slot)
    requires !IsScopeMarker(arg.op)
    ensures CollectArgs(rest + [Comma, Some(arg)], params, current) == CollectArgs(rest, params + [current], Some(arg))
  {
    assert AllChainable([Some(arg)]);
    assert rest + [Comma, Some(arg)] == (rest + [Comma]) + [Some(arg)];
    IparcSpine(rest + [Comma], [Some(arg)]);
    assert Pop(rest + [Comma]) == rest;
  }

  /** The last round of the argument loop: the argument above the `(` is recorded and the `(` consumed. */
  lemma {:induction false} CollectArgsAtParen(base: Stack, arg: Node, params: Stack, current: Slot)
    requires !IsScopeMarker(arg.op)
    requires base != [] && Top(base) == Some(Leaf(Marker('(')))
    ensures CollectArgs(base + [Some(arg)], params, current) == Ok(Collected(Pop(base), params + [current, Some(arg)]))
  {
    assert AllChainable([Some(arg)]);
    IparcSpine(base, [Some(arg)]);
    assert Spine([], Some(arg)) == Some(arg);
    assert params + [current] + [Some(arg)] == params + [current, Some(arg)];
  }

  /** Appending one more argument to an interleaved list adds a comma and the argument. */
  lemma {:induction false} InterleavedSnoc(base: Stack, args: seq<Node>)
    requires |args| >= 2
    ensures base + Interleaved(args) ==
            (base + Interleaved(args[..|args| - 1])) + [Comma, Some(args[|args| - 1])]
  {
  }

  /** The recorded arguments, last-first, start with the last argument. */
  lemma {:induction false} ReversedSlotsSnoc(args: seq<Node>)
    requires |args| >= 1
    ensures Reverse(Slots(args)) == [Some(args[|args| - 1])] + Reverse(Slots(args[..|args| - 1]))
  {
    var init := args[..|args| - 1];
    var last := Some(args[|args| - 1]);
    assert Slots(args) == Slots(init) + [last];
    ReverseAppend(Slots(init), [last]);
    assert Reverse([last]) == [last];
  }

  /** Dropping the last argument keeps the others free of markers. */
  lemma {:induction false} NoMarkersInit(args: seq<Node>)
    requires |args| >= 1 && NoMarkers(args)
    ensures NoMarkers(args[..|args| - 1]) && !IsScopeMarker(args[|args| - 1].op)
  {
    var init := args[..|args| - 1];
    assert forall i :: 0 <= i < |init| ==> init[i] == args[i];
  }

  /**
   * The argument-collecting loop on `base + a0 , ... , ak` with a `(` on top
   * of `base`: it records the arguments last-first and stops below the `(`.
   */
  lemma {:induction false} CollectArgsInterleaved(base: Stack, args: seq<Node>, params: Stack, current: Slot)
    requires |args| >= 1 && NoMarkers(args)
    requires base != [] && Top(base) == Some(Leaf(Marker('(')))
    ensures CollectArgs(base + Interleaved(args), params, current) ==
            Ok(Collected(Pop(base), params + [current] + Reverse(Slots(args))))
    decreases |args|
  {
    if |args| == 1 {
      CollectArgsSingle(base, args, params, current);
    } else {
      var init := args[..|args| - 1];
      NoMarkersInit(args);
      CollectArgsOverLast(base, args, params, current);
      CollectArgsInterleaved(base, init, params + [current], Some(args[|args| - 1]));
      RecordedAfter(params, current, args);
    }
  }

  /** The first round of the argument loop on `base + a0 , ... , ak` records `ak` and consumes its comma. */
  lemma {:induction false} CollectArgsOverLast(base: Stack, args: seq<Node>, params: Stack, current: Slot)
    requires |args| >= 2 && !IsScopeMarker(args[|args| - 1].op)
    ensures CollectArgs(base + Interleaved(args), params, current) ==
            CollectArgs(base + Interleaved(args[..|args| - 1]), params + [current], Some(args[|args| - 1]))
  {
    InterleavedSnoc(base, args);
    CollectArgsOverComma(base + Interleaved(args[..|args| - 1]), args[|args| - 1], params, current);
  }

  /** The argument loop on `base + a0` with a `(` on top of `base`. */
  lemma {:induction false} CollectArgsSingle(base: Stack, args: seq<Node>, params: Stack, current: Slot)
    requires |args| == 1 && NoMarkers(args)
    requires base != [] && Top(base) == Some(Leaf(Marker('(')))
    ensures CollectArgs(base + Interleaved(args), params, current) ==
            Ok(Collected(Pop(base), params + [current] + Reverse(Slots(args))))
  {
    assert Interleaved(args) == [Some(args[0])];
    CollectArgsAtParen(base, args[0], params, current);
    assert Slots(args) == [Some(args[0])];
    assert Reverse(Slots(args)) == [Some(args[0])];
  }

  /** Recording the last argument and then the rest last-first records all of them last-first. */
  lemma {:induction false} RecordedAfter(params: Stack, current: Slot, args: seq<Node>)
    requires |args| >= 1
    ensures params + [current] + [Some(args[|args| - 1])] + Reverse(Slots(args[..|args| - 1])) ==
            params + [current] + Reverse(Slots(args))
  {
    ReversedSlotsSnoc(args);
  }

  /** `)` above `rest , seg`: IPARC folds `seg` up to the comma, so the argument loop starts with its spine. */
  lemma {:induction false} CloseGroupOverComma(rest: Stack, seg: Stack)
    requires AllChainable(seg) && seg != []
    ensures CloseGroup(rest + [Comma] + seg) ==
            (var c :- CollectArgs(rest, [], Spine(seg[..|seg| - 1], seg[|seg| - 1]));
             Ok(Split(c.stack, Some(Leaf(List(Reverse(c.params)))))))
  {
    IparcSpine(rest + [Comma], seg);
    assert Pop(rest + [Comma]) == rest;
  }

  /** Reversing the last-first record gives the arguments in source order, the last one included. */
  lemma {:induction false} RecordedInSourceOrder(args: seq<Node>, last: Slot)
    ensures Reverse([] + [last] + Reverse(Slots(args))) == Slots(args) + [last]
  {
    assert [] + [last] + Reverse(Slots(args)) == [last] + Reverse(Slots(args));
    ReverseAppend([last], Reverse(Slots(args)));
    ReverseReverse(Slots(args));
    assert Reverse([last]) == [last];
  }

  /**
   * `)` after `f(a0, ..., ak, e)`: the arguments before the last comma are
   * single entries (each comma folded its argument with IPARC), and the
   * last argument `e` is still the chain of entries `seg`, such as the
   * pending `add(2)` and `3` of `2+3`. The group closes into one list node
   * holding `a0 ... ak` and the right spine of `seg`, in source order, and
   * the `(` is consumed.
   */
  lemma {:induction false} ArgumentsInSourceOrder(base: Stack, args: seq<Node>, seg: Stack)
    requires |args| >= 1 && NoMarkers(args)
    requires base != [] && Top(base) == Some(Leaf(Marker('(')))
    requires AllChainable(seg) && seg != []
    ensures CloseGroup(base + Interleaved(args) + [Comma] + seg) ==
            Ok(Split(Pop(base), Some(Leaf(List(Slots(args) + [Spine(seg[..|seg| - 1], seg[|seg| - 1])])))))
  {
    var last := Spine(seg[..|seg| - 1], seg[|seg| - 1]);
    CloseGroupOverComma(base + Interleaved(args), seg);
    CollectArgsInterleaved(base, args, [], last);
    RecordedInSourceOrder(args, last);
  }
}
