/** context/contextable.py: a class whose instances can be "entered". Every
    subclass owns a stack of the instances currently in context; `C()` reads
    its top. One `ContextStack` object stands for the `_context_stack` list of
    one subclass, so separate subclasses are separate objects. */
module Contextable {
  import opened Wrappers

  class ContextStack {
    /** The instances in context, innermost last. */
    var stack: seq<object>

    /** `__init_subclass__`: a new subclass starts with an empty stack. */
    constructor ()
      ensures stack == []
    {
      stack := [];
    }

    /** Entering `inst` (the part of `__context__` before its `yield`). */
    method Enter(inst: object)
      modifies this
      ensures stack == old(stack) + [inst]
    {
      stack := stack + [inst];
    }

    /** Leaving `inst` (the `finally` part of `__context__`): pops the top and
        asserts it was `inst`. The pop happens before the assertion is checked,
        and popping an empty list raises `IndexError`. */
    method Exit(inst: object) returns (o: Outcome)
      modifies this
      ensures old(stack) == [] ==> o == Fail(IndexError) && stack == []
      ensures old(stack) != [] ==> stack == old(stack)[..|old(stack)| - 1]
      ensures old(stack) != [] ==>
        (o == Pass <==> old(stack)[|old(stack)| - 1] == inst) && (o != Pass ==> o == Fail(AssertionError))
    {
      if |stack| == 0 {
        return Fail(IndexError);
      }
      var top := stack[|stack| - 1];
      stack := stack[..|stack| - 1];
      o := if top == inst then Pass else Fail(AssertionError);
    }

    /** `C(default)`: the innermost instance in context; on an empty stack the
        default, and without a default (`None` here) a `RuntimeError`. The
        argument `Some(d)` is an explicit default, which may itself be Python's
        `None`. */
    method Current<D>(default: Option<D>) returns (r: Result<Either<object, D>>)
      ensures stack != [] ==> r == Ok(Left(stack[|stack| - 1]))
      ensures stack == [] && default.Some? ==> r == Ok(Right(default.value))
      ensures stack == [] && default.None? ==> r == Err(RuntimeError)
    {
      if |stack| > 0 {
        return Ok(Left(stack[|stack| - 1]));
      }
      match default
      case None => r := Err(RuntimeError);
      case Some(d) => r := Ok(Right(d));
    }
  }

  /** Either the instance found on the stack or the caller's default. */
  datatype Either<L, R> = Left(left: L) | Right(right: R)

  /** `with a: with b: ...`: the inner scope sees `b`, the outer one `a` again
      once the inner has left, and both exits succeed and restore the stack. */
  method Nested(s: ContextStack, a: object, b: object) returns (inner: object, outer: object)
    modifies s
    ensures inner == b && outer == a
    ensures s.stack == old(s.stack)
  {
    s.Enter(a);
    s.Enter(b);
    var r := s.Current<object>(None);
    inner := r.value.left;
    var o := s.Exit(b);
    assert o == Pass;
    r := s.Current<object>(None);
    outer := r.value.left;
    o := s.Exit(a);
    assert o == Pass;
  }

  /** Entering an instance of one subclass leaves the stack of every other
      subclass as it was. */
  method Independent(s: ContextStack, t: ContextStack, inst: object) returns (seen: Result<Either<object, int>>)
    requires s != t
    modifies s
    ensures seen == if old(t.stack) == [] then Err(RuntimeError) else Ok(Left(old(t.stack)[|old(t.stack)| - 1]))
  {
    s.Enter(inst);
    seen := t.Current<int>(None);
  }
}
