/** context/context_prop.py: a property whose current value is given by a
    stack of nodes. A node either holds a value, computes one, or edits the
    value of the node just below it. `add` pushes a node for the duration of a
    `with` block. */
module ContextProp {
  import opened Wrappers

  /** `ContextNodeValue`, `ContextNodeFunc` and `ContextNodeFuncEdit`. An edit
      node's `index` is the stack position it was pushed at; because the stack
      is only pushed and popped, that is always its current position, so the
      model reads it off the position instead of storing it. */
  datatype Node<!T> = Value(value: T) | Func(make: () -> T) | FuncEdit(edit: T -> T)

  /** No edit node sits at the bottom: `__prop_init__` refuses index 0. */
  predicate Grounded<T>(stack: seq<Node<T>>) {
    |stack| > 0 ==> !stack[0].FuncEdit?
  }

  /** The value of the node at position `i` (`ContextNode.__call__`). */
  function Eval<T>(stack: seq<Node<T>>, i: nat): T
    requires i < |stack| && Grounded(stack)
    decreases i
  {
    match stack[i]
    case Value(v) => v
    case Func(f) => f()
    case FuncEdit(g) => g(Eval(stack, i - 1))
  }

  /** A node's value depends only on the nodes at and below it, so pushing a
      node above does not change it. */
  lemma {:induction false} EvalPush<T>(stack: seq<Node<T>>, n: Node<T>, i: nat)
    requires i < |stack| && Grounded(stack)
    ensures Grounded(stack + [n]) && Eval(stack + [n], i) == Eval(stack, i)
    decreases i
  {
    if stack[i].FuncEdit? {
      EvalPush(stack, n, i - 1);
    }
  }

  /** A value node hides whatever is below it; an edit node over a value node
      applies its function to that value. */
  lemma EvalTop<T>(stack: seq<Node<T>>, n: Node<T>)
    requires Grounded(stack) && (n.FuncEdit? ==> |stack| > 0)
    ensures Grounded(stack + [n])
    ensures n.Value? ==> Eval(stack + [n], |stack|) == n.value
    ensures n.Func? ==> Eval(stack + [n], |stack|) == n.make()
    ensures n.FuncEdit? ==> Eval(stack + [n], |stack|) == n.edit(Eval(stack, |stack| - 1))
  {
    if n.FuncEdit? {
      EvalPush(stack, n, |stack| - 1);
    }
  }

  class ContextProperty<T> {
    var stack: seq<Node<T>>

    predicate Valid()
      reads this
    {
      Grounded(stack)
    }

    constructor ()
      ensures Valid() && stack == []
    {
      stack := [];
    }

    /** `get`: the value of the top node; `RuntimeError` on an empty stack. */
    method Get() returns (r: Result<T>)
      requires Valid()
      ensures stack == [] <==> r == Err(RuntimeError)
      ensures stack != [] ==> r == Ok(Eval(stack, |stack| - 1))
    {
      if |stack| == 0 {
        return Err(RuntimeError);
      }
      r := Ok(Eval(stack, |stack| - 1));
    }

    /** Entering `add(node)`: the node is pushed and given its index; an edit
        node at index 0 raises `TypeError`, and the `finally` pops it again. */
    method Push(node: Node<T>) returns (o: Outcome)
      requires Valid()
      modifies this
      ensures Valid()
      ensures o == Fail(TypeError) <==> node.FuncEdit? && old(stack) == []
      ensures o == Pass || o == Fail(TypeError)
      ensures stack == if o == Pass then old(stack) + [node] else old(stack)
    {
      stack := stack + [node];
      if node.FuncEdit? && |stack| - 1 == 0 {
        stack := stack[..|stack| - 1];
        return Fail(TypeError);
      }
      o := Pass;
    }

    /** Leaving `add(node)`: the `finally` pop. */
    method Pop()
      requires Valid() && |stack| > 0
      modifies this
      ensures Valid() && stack == old(stack)[..|old(stack)| - 1]
    {
      stack := stack[..|stack| - 1];
    }

    /** `with prop.add(node): seen = prop.get()`: the block sees the new node's
        value, and the stack is the same afterwards whether or not entering
        raised. */
    method With(node: Node<T>) returns (o: Outcome, seen: Result<T>)
      requires Valid()
      modifies this
      ensures Valid() && stack == old(stack)
      ensures o == Fail(TypeError) <==> node.FuncEdit? && old(stack) == []
      ensures o == Pass ==> seen == Ok(Eval(old(stack) + [node], |old(stack)|))
    {
      seen := Err(RuntimeError);
      o := Push(node);
      if o == Pass {
        seen := Get();
        Pop();
        assert old(stack) + [node] == stack + [node];
      }
    }
  }

  /** The example of `ContextProperty`'s docstring: under `add_value(42)` the
      property reads 42, under a further `add_func_edit(x + 1)` it reads 43,
      and leaving both scopes empties it again. */
  method Example() returns (outer: Result<int>, inner: Result<int>, after: Result<int>)
    ensures outer == Ok(42) && inner == Ok(43) && after == Err(RuntimeError)
  {
    var prop := new ContextProperty<int>();
    var o := prop.Push(Value(42));
    outer := prop.Get();
    o := prop.Push(FuncEdit(x => x + 1));
    inner := prop.Get();
    prop.Pop();
    prop.Pop();
    after := prop.Get();
  }

  /** An edit node cannot be the first node: entering raises `TypeError` and
      the property stays empty. */
  method EditFirst() returns (o: Outcome, after: Result<int>)
    ensures o == Fail(TypeError) && after == Err(RuntimeError)
  {
    var prop := new ContextProperty<int>();
    o := prop.Push(FuncEdit(x => x + 1));
    after := prop.Get();
  }
}
