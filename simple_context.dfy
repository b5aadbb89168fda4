/** context/simple_context.py: `with obj:` for any object with a `__context__`
    generator. Entering asks the object for a fresh context manager, enters it
    and parks it on ONE stack shared by every `SimpleContext` instance of every
    class; leaving pops the most recent manager and hands the exit to it. */
module SimpleContext {
  import opened Wrappers

  /** A context manager obtained from `obj.__context__()`, with the value its
      `__enter__` produced. What the generator does on entry and exit is the
      object's own business; the shared stack only keeps the managers. */
  datatype Manager<V> = Manager(owner: object, entered: V)

  class ManagerStack<V> {
    var managers: seq<Manager<V>>

    constructor ()
      ensures managers == []
    {
      managers := [];
    }

    /** `__enter__`: the manager for `owner`, entered with result `value`, is
        pushed, and that result is returned. */
    method Enter(owner: object, value: V) returns (r: V)
      modifies this
      ensures r == value
      ensures managers == old(managers) + [Manager(owner, value)]
    {
      managers := managers + [Manager(owner, value)];
      r := value;
    }

    /** `__exit__`: pops the most recently pushed manager, which then runs the
        exit; popping an empty list raises `IndexError`. */
    method Exit() returns (r: Result<Manager<V>>)
      modifies this
      ensures old(managers) == [] ==> r == Err(IndexError) && managers == []
      ensures old(managers) != [] ==>
        r == Ok(old(managers)[|old(managers)| - 1]) && managers == old(managers)[..|old(managers)| - 1]
    {
      if |managers| == 0 {
        return Err(IndexError);
      }
      r := Ok(managers[|managers| - 1]);
      managers := managers[..|managers| - 1];
    }
  }

  /** `with a: with b: ...` where `a` and `b` may be of different classes:
      both managers go on the same stack, the exits see `b`'s manager first
      and then `a`'s, and the stack ends as it began. */
  method Nested<V>(s: ManagerStack<V>, a: object, va: V, b: object, vb: V)
    returns (first: Manager<V>, second: Manager<V>)
    modifies s
    ensures first == Manager(b, vb) && second == Manager(a, va)
    ensures s.managers == old(s.managers)
  {
    var _ := s.Enter(a, va);
    var _ := s.Enter(b, vb);
    var r := s.Exit();
    first := r.value;
    r := s.Exit();
    second := r.value;
  }
}
