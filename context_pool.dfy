/** context/context_pool.py: a pool of named context properties. A property of
    the pool works like a `ContextProperty` whose `add` also marks its name as
    "not at its default" in the pool while the node is in place, and
    `decorate_func` fills missing function arguments from the properties'
    current values. */
module ContextPool {
  import opened Wrappers
  import opened ContextProp

  /** `ContextPoolProperty`: the inherited node stack lives in `prop`; `name`
      and `pool` are set when the property is registered (until then `pool` is
      null and reading it raises `AttributeError`). */
  class PoolProperty<T> {
    const prop: ContextProperty<T>
    var name: string
    var pool: Pool?<T>

    constructor ()
      ensures fresh(prop) && prop.Valid() && prop.stack == [] && pool == null
    {
      prop := new ContextProperty<T>();
      name := "";
      pool := null;
    }

    /** `__prop_init__(name, pool)`. */
    method Init(n: string, p: Pool<T>)
      modifies this
      ensures name == n && pool == p
    {
      name := n;
      pool := p;
    }

    /** The value `get` returns, if the stack is not empty. */
    function Current(): Option<T>
      reads prop
      requires prop.Valid()
    {
      if prop.stack == [] then None else Some(Eval(prop.stack, |prop.stack| - 1))
    }

    /** `get`: `RuntimeError` on an empty stack, else the top node's value. */
    method Get() returns (r: Result<T>)
      requires prop.Valid()
      ensures r == if Current().None? then Err(RuntimeError) else Ok(Current().value)
    {
      r := prop.Get();
    }

    /** Entering `add(node)`: push, `__prop_init__` (an edit node at index 0
        raises `TypeError`), then enter `pool.node_added(name)`; any failure
        pops the node again. `marked` tells the exit whether this entry put the
        mark on the name. */
    method Push(node: Node<T>) returns (o: Outcome, marked: bool)
      requires prop.Valid()
      modifies prop, pool
      ensures prop.Valid() && pool == old(pool)
      ensures o == Fail(TypeError) <==> node.FuncEdit? && old(prop.stack) == []
      ensures o == Fail(AttributeError) <==> !(node.FuncEdit? && old(prop.stack) == []) && pool == null
      ensures o == Pass || o == Fail(TypeError) || o == Fail(AttributeError)
      ensures prop.stack == if o == Pass then old(prop.stack) + [node] else old(prop.stack)
      ensures pool != null ==> pool.props == old(pool.props)
      ensures o == Pass ==>
        pool != null && marked == (name !in old(pool.nondefaults)) && pool.nondefaults == old(pool.nondefaults) + {name}
      ensures o != Pass && pool != null ==> pool.nondefaults == old(pool.nondefaults)
    {
      marked := false;
      o := prop.Push(node);
      if o != Pass {
        return;
      }
      if pool == null {
        prop.Pop();
        return Fail(AttributeError), false;
      }
      marked := pool.Mark(name);
    }

    /** Leaving `add(node)`: leave `node_added`, then the `finally` pop. */
    method Pop(marked: bool)
      requires prop.Valid() && |prop.stack| > 0 && pool != null
      modifies prop, pool
      ensures prop.Valid() && prop.stack == old(prop.stack)[..|old(prop.stack)| - 1]
      ensures pool.props == old(pool.props)
      ensures pool.nondefaults == if marked then old(pool.nondefaults) - {name} else old(pool.nondefaults)
    {
      pool.Unmark(name, marked);
      prop.Pop();
    }
  }

  /** The argument-name -> property-name mapping of `decorate_func` AS WRITTEN:
      each positional name maps to itself, then each keyword entry (`...`
      written as `None`) maps to itself or to the given name, overwriting. A
      name given both ways is not refused: the `TypeError` is built but never
      raised. */
  function MappingAsWritten(same: seq<string>, other: seq<(string, Option<string>)>): map<string, string>
  {
    SelfMapping(same) + KeywordMapping(other)
  }

  function SelfMapping(same: seq<string>): (m: map<string, string>)
    ensures m.Keys == set i | 0 <= i < |same| :: same[i]
    ensures forall n :: n in m ==> m[n] == n
    decreases |same|
  {
    if |same| == 0 then map[] else SelfMapping(same[..|same| - 1])[same[|same| - 1] := same[|same| - 1]]
  }

  function KeywordMapping(other: seq<(string, Option<string>)>): (m: map<string, string>)
    ensures m.Keys == set i | 0 <= i < |other| :: other[i].0
    decreases |other|
  {
    if |other| == 0 then map[]
    else
      var e := other[|other| - 1];
      KeywordMapping(other[..|other| - 1])[e.0 := e.1.GetOr(e.0)]
  }

  predicate DistinctNames<V>(items: seq<(string, V)>) {
    forall i, j :: 0 <= i < j < |items| ==> items[i].0 != items[j].0
  }

  /** Each keyword entry maps to its target; each positional name that is not
      also a keyword maps to itself. */
  lemma {:induction false} KeywordMappingAt(other: seq<(string, Option<string>)>, i: nat)
    requires DistinctNames(other) && i < |other|
    ensures KeywordMapping(other)[other[i].0] == other[i].1.GetOr(other[i].0)
    decreases |other|
  {
    if i < |other| - 1 {
      KeywordMappingAt(other[..|other| - 1], i);
    }
  }

  /** The mapping of `decorate_func` with the intended refusal: a name given
      both positionally and as a keyword raises `TypeError`. */
  function Mapping(same: seq<string>, other: seq<(string, Option<string>)>): (r: Result<map<string, string>>)
    requires DistinctNames(other)
    ensures r.Err? <==> exists i, j :: 0 <= i < |same| && 0 <= j < |other| && same[i] == other[j].0
    ensures r.Err? ==> r.error == TypeError
    ensures r.Ok? ==> r.value.Keys == (set i | 0 <= i < |same| :: same[i]) + (set j | 0 <= j < |other| :: other[j].0)
    ensures r.Ok? ==> forall i :: 0 <= i < |same| ==> r.value[same[i]] == same[i]
    ensures r.Ok? ==> forall j :: 0 <= j < |other| ==> r.value[other[j].0] == other[j].1.GetOr(other[j].0)
  {
    var clash := exists i, j :: 0 <= i < |same| && 0 <= j < |other| && same[i] == other[j].0;
    if clash then Err(TypeError)
    else
      var m := MappingAsWritten(same, other);
      assert forall j :: 0 <= j < |other| ==> m[other[j].0] == other[j].1.GetOr(other[j].0) by {
        forall j | 0 <= j < |other| ensures m[other[j].0] == other[j].1.GetOr(other[j].0) {
          KeywordMappingAt(other, j);
        }
      }
      Ok(m)
  }

  /** `decorate_func('a', a='x')` as written maps `a` to `x` without complaint;
      with the intended check it is refused. */
  lemma KeywordSilentlyWins()
    ensures MappingAsWritten(["a"], [("a", Some("x"))]) == map["a" := "x"]
    ensures Mapping(["a"], [("a", Some("x"))]) == Err(TypeError)
  {
    assert MappingAsWritten(["a"], [("a", Some("x"))]).Keys == {"a"};
    KeywordMappingAt([("a", Some("x"))], 0);
  }

  /** Some positional name repeats an earlier one or a keyword name. */
  predicate Clash(names: seq<string>, keys: set<string>) {
    exists i :: 0 <= i < |names| && (names[i] in keys || names[i] in names[..i])
  }

  lemma NoClash(names: seq<string>, keys: set<string>)
    requires !Clash(names, keys)
    ensures forall i :: 0 <= i < |names| ==> names[i] !in names[..i]
    ensures forall k :: k in keys ==> k !in names
  {
  }

  function KeysOf<V>(items: seq<(string, V)>): set<string> {
    set i | 0 <= i < |items| :: items[i].0
  }

  /** Two argument names are mapped to the same property name, not yet
      registered: `register` would receive that name twice. */
  predicate SharedMissing(mapping: map<string, string>, registered: set<string>) {
    exists a, b :: a in mapping && b in mapping && a != b && mapping[a] == mapping[b] && mapping[a] !in registered
  }

  class Pool<T> {
    var props: map<string, PoolProperty<T>>
    var nondefaults: set<string>

    constructor ()
      ensures props == map[] && nondefaults == {}
    {
      props := map[];
      nondefaults := {};
    }

    /** `pool[name]`. */
    method Item(name: string) returns (r: Result<PoolProperty<T>>)
      ensures name in props ==> r == Ok(props[name])
      ensures name !in props ==> r == Err(KeyError)
    {
      if name in props {
        r := Ok(props[name]);
      } else {
        r := Err(KeyError);
      }
    }

    /** Entering `node_added(name)`: marks the name, remembering whether it was
        unmarked. */
    method Mark(name: string) returns (marked: bool)
      modifies this
      ensures props == old(props)
      ensures marked == (name !in old(nondefaults)) && nondefaults == old(nondefaults) + {name}
    {
      marked := name !in nondefaults;
      nondefaults := nondefaults + {name};
    }

    /** Leaving `node_added(name)`: only the entry that put the mark removes it. */
    method Unmark(name: string, marked: bool)
      modifies this
      ensures props == old(props)
      ensures nondefaults == if marked then old(nondefaults) - {name} else old(nondefaults)
    {
      if marked {
        nondefaults := nondefaults - {name};
      }
    }

    /** The keyword properties as a map (their names are distinct). */
    static function MapOf(given: seq<(string, PoolProperty<T>)>): (m: map<string, PoolProperty<T>>)
      ensures m.Keys == KeysOf(given)
      ensures DistinctNames(given) ==> forall i :: 0 <= i < |given| ==> m[given[i].0] == given[i].1
      decreases |given|
    {
      if |given| == 0 then map[]
      else
        var m := MapOf(given[..|given| - 1]);
        assert KeysOf(given) == KeysOf(given[..|given| - 1]) + {given[|given| - 1].0};
        m[given[|given| - 1].0 := given[|given| - 1].1]
    }

    /** `register`'s storing loop for the keyword properties: each is stored
        and told its name and pool. */
    method BindGiven(given: seq<(string, PoolProperty<T>)>)
      modifies this, set i | 0 <= i < |given| :: given[i].1
      ensures nondefaults == old(nondefaults)
      ensures props == old(props) + MapOf(given)
      ensures forall i :: 0 <= i < |given| ==> given[i].1.pool == this
      ensures (forall i, j :: 0 <= i < j < |given| ==> given[i].1 != given[j].1) ==>
        forall i :: 0 <= i < |given| ==> given[i].1.name == given[i].0
    {
      props := props + MapOf(given);
      InitAll(given, this);
    }

    /** The `__prop_init__` calls of that loop. */
    static method InitAll(given: seq<(string, PoolProperty<T>)>, pool: Pool<T>)
      modifies set i | 0 <= i < |given| :: given[i].1
      ensures forall i :: 0 <= i < |given| ==> given[i].1.pool == pool
      ensures (forall i, j :: 0 <= i < j < |given| ==> given[i].1 != given[j].1) ==>
        forall i :: 0 <= i < |given| ==> given[i].1.name == given[i].0
    {
      ghost var distinct := forall a, b :: 0 <= a < b < |given| ==> given[a].1 != given[b].1;
      var i := 0;
      while i < |given|
        invariant 0 <= i <= |given|
        invariant forall j :: 0 <= j < i ==> given[j].1.pool == pool
        invariant distinct ==> forall j :: 0 <= j < i ==> given[j].1.name == given[j].0
      {
        given[i].1.Init(given[i].0, pool);
        i := i + 1;
      }
    }

    /** `register`'s storing loop for the positional names: a fresh property
        for each, told its name and pool. */
    method BindFresh(names: seq<string>)
      modifies this
      ensures nondefaults == old(nondefaults)
      ensures props.Keys == old(props).Keys + set i | 0 <= i < |names| :: names[i]
      ensures forall k :: k in old(props) && k !in names ==> props[k] == old(props)[k]
      ensures (forall i :: 0 <= i < |names| ==> names[i] !in names[..i]) ==> forall i :: 0 <= i < |names| ==>
        fresh(props[names[i]]) && props[names[i]].name == names[i] && props[names[i]].pool == this &&
        props[names[i]].prop.Valid() && props[names[i]].prop.stack == [] && fresh(props[names[i]].prop)
      ensures (forall i :: 0 <= i < |names| ==> names[i] !in names[..i]) ==>
        forall i, j :: 0 <= i < j < |names| ==> props[names[i]].prop != props[names[j]].prop
    {
      var created: map<string, PoolProperty<T>> := map[];
      var i := 0;
      while i < |names|
        invariant 0 <= i <= |names|
        invariant props == old(props) && nondefaults == old(nondefaults)
        invariant created.Keys == set j | 0 <= j < i :: names[j]
        invariant forall k :: k in created ==> fresh(created[k]) && created[k].pool == this && created[k].prop.Valid() && created[k].prop.stack == []
        invariant forall k :: k in created ==> fresh(created[k].prop)
        invariant forall k, q :: k in created && q in created && k != q ==> created[k].prop != created[q].prop
        invariant forall k :: k in created ==> created[k].name == k
      {
        var p := new PoolProperty<T>();
        p.name := names[i];
        p.pool := this;
        created := created[names[i] := p];
        i := i + 1;
      }
      props := props + created;
    }

    /** `register(*names, **given)`: a positional name that repeats a keyword
        or an earlier positional name raises `TypeError` before anything is
        registered. Otherwise the keyword properties and one fresh property per
        positional name are stored under their names, each pointing back to
        this pool under that name. */
    method Register(names: seq<string>, given: seq<(string, PoolProperty<T>)>) returns (o: Outcome)
      requires DistinctNames(given)
      modifies this, set i | 0 <= i < |given| :: given[i].1
      ensures o == Fail(TypeError) <==> Clash(names, KeysOf(given))
      ensures o == Pass || o == Fail(TypeError)
      ensures o != Pass ==> props == old(props)
      ensures nondefaults == old(nondefaults)
      ensures o == Pass ==> props.Keys == old(props).Keys + KeysOf(given) + set i | 0 <= i < |names| :: names[i]
      ensures o == Pass ==> forall k :: k in old(props) && k !in KeysOf(given) && k !in names ==> props[k] == old(props)[k]
      ensures o == Pass ==> forall i :: 0 <= i < |given| ==> props[given[i].0] == given[i].1 && given[i].1.pool == this
      ensures o == Pass && (forall i, j :: 0 <= i < j < |given| ==> given[i].1 != given[j].1) ==>
        forall i :: 0 <= i < |given| ==> given[i].1.name == given[i].0
      ensures o == Pass ==> forall i :: 0 <= i < |names| ==>
        fresh(props[names[i]]) && props[names[i]].name == names[i] && props[names[i]].pool == this &&
        props[names[i]].prop.Valid() && props[names[i]].prop.stack == [] && fresh(props[names[i]].prop)
      ensures o == Pass ==> forall i, j :: 0 <= i < j < |names| ==> props[names[i]].prop != props[names[j]].prop
    {
      if Clash(names, KeysOf(given)) {
        return Fail(TypeError);
      }
      NoClash(names, KeysOf(given));
      BindGiven(given);
      BindFresh(names);
      o := Pass;
    }

    /** `decorate_func(*same, __register__=register, **other)` up to the
        returned decorator: the argument -> property mapping, checked against
        the registered properties. With `register`, the missing property names
        are registered, which raises `TypeError` when two arguments share a
        missing name (`register` would get that name twice); without it, a
        missing name raises `KeyError`. */
    method Decorate(same: seq<string>, other: seq<(string, Option<string>)>, register: bool)
      returns (r: Result<map<string, string>>)
      requires DistinctNames(other)
      modifies this
      ensures nondefaults == old(nondefaults)
      ensures Mapping(same, other).Err? ==> r == Err(TypeError) && props == old(props)
      ensures Mapping(same, other).Ok? && register ==>
        var m := Mapping(same, other).value;
        if SharedMissing(m, old(props).Keys) then r == Err(TypeError) && props == old(props) else
        r == Ok(m) && props.Keys == old(props).Keys + m.Values &&
          (forall k :: k in old(props) ==> props[k] == old(props)[k]) &&
          forall k :: k in props && k !in old(props) ==>
            fresh(props[k]) && props[k].name == k && props[k].pool == this && props[k].prop.Valid() && props[k].prop.stack == [] &&
            fresh(props[k].prop) && forall q :: q in props && q !in old(props) && q != k ==> props[q].prop != props[k].prop
      ensures Mapping(same, other).Ok? && !register ==>
        var m := Mapping(same, other).value;
        props == old(props) && r == if m.Values <= props.Keys then Ok(m) else Err(KeyError)
    {
      var mr := Mapping(same, other);
      if mr.Err? {
        return Err(TypeError);
      }
      var m := mr.value;
      if !register {
        r := if m.Values <= props.Keys then Ok(m) else Err(KeyError);
        return;
      }
      if SharedMissing(m, props.Keys) {
        return Err(TypeError);
      }
      RegisterMissing(m.Values - props.Keys);
      r := Ok(m);
    }

    /** `register(*missing)` for names not yet registered: one fresh,
        distinct property per name. */
    method RegisterMissing(missing: set<string>)
      modifies this
      ensures nondefaults == old(nondefaults)
      ensures props.Keys == old(props).Keys + missing
      ensures forall k :: k in old(props) && k !in missing ==> props[k] == old(props)[k]
      ensures forall k :: k in missing ==>
        fresh(props[k]) && props[k].name == k && props[k].pool == this && props[k].prop.Valid() &&
        props[k].prop.stack == [] && fresh(props[k].prop)
      ensures forall k, q :: k in missing && q in missing && k != q ==> props[q].prop != props[k].prop
    {
      var names := ListOf(missing);
      assert !Clash(names, KeysOf<PoolProperty<T>>([]));
      var o := Register(names, []);
      forall k | k in missing
        ensures exists i :: 0 <= i < |names| && names[i] == k
      {
        assert k in names;
      }
    }

    /** The current value of the property each parameter is mapped to
        (`None` for an empty property). */
    function Currents(mapping: map<string, string>): (cur: map<string, Option<T>>)
      reads this, set a | a in mapping && mapping[a] in props :: props[mapping[a]].prop
      requires forall a :: a in mapping ==> mapping[a] in props && props[mapping[a]].prop.Valid()
      ensures cur.Keys == mapping.Keys
    {
      map a | a in mapping :: props[mapping[a]].Current()
    }

    /** The arguments `decorate_func`'s wrapper passes to the function with
        parameter names `argnames`, called with positional `args` and keyword
        `kwargs` (see `CallArgs`). */
    method Call(mapping: map<string, string>, argnames: seq<string>, args: seq<T>, kwargs: map<string, T>)
      returns (r: Result<map<string, T>>)
      requires forall a :: a in mapping ==> mapping[a] in props && props[mapping[a]].prop.Valid()
      ensures r == CallArgs(Positional(argnames, args), kwargs, Currents(mapping))
    {
      var given := Positional(argnames, args);
      if exists a :: a in given && a in kwargs {
        return Err(TypeError);
      }
      var filled := Fill(mapping, mapping.Keys - given.Keys - kwargs.Keys);
      if filled.Err? {
        return Err(RuntimeError);
      }
      CallArgsFilled(given, kwargs, Currents(mapping), filled.value);
      r := Ok(kwargs + given + filled.value);
    }

    /** The values of the mapped parameters in `want`, read from their
        properties; `RuntimeError` if one of them is empty. */
    method Fill(mapping: map<string, string>, want: set<string>) returns (r: Result<map<string, T>>)
      requires forall a :: a in mapping ==> mapping[a] in props && props[mapping[a]].prop.Valid()
      requires want <= mapping.Keys
      ensures r.Err? <==> exists a :: a in want && props[mapping[a]].Current().None?
      ensures r.Err? ==> r == Err(RuntimeError)
      ensures r.Ok? ==> r.value.Keys == want && forall a :: a in want ==> props[mapping[a]].Current() == Some(r.value[a])
    {
      var rest := want;
      var filled: map<string, T> := map[];
      while rest != {}
        invariant rest <= want
        invariant filled.Keys == want - rest
        invariant forall a :: a in filled ==> props[mapping[a]].Current() == Some(filled[a])
        decreases rest
      {
        var a :| a in rest;
        var v := props[mapping[a]].Get();
        if v.Err? {
          return Err(RuntimeError);
        }
        filled := filled[a := v.value];
        rest := rest - {a};
      }
      r := Ok(filled);
    }
  }

  /** When every remaining mapped parameter has a value, `CallArgs` passes the
      explicit arguments and those values. */
  lemma CallArgsFilled<T>(given: map<string, T>, kwargs: map<string, T>, current: map<string, Option<T>>,
                          filled: map<string, T>)
    requires forall a :: a in given ==> a !in kwargs
    requires filled.Keys == current.Keys - given.Keys - kwargs.Keys
    requires forall a :: a in filled ==> current[a] == Some(filled[a])
    ensures CallArgs(given, kwargs, current) == Ok(kwargs + given + filled)
  {
    var rest := map a | a in current && a !in given && a !in kwargs && current[a].Some? :: current[a].value;
    assert rest == filled;
  }

  /** What the wrapper passes on, given the positional arguments by name, the
      keyword arguments and the current value of each mapped parameter's
      property: a parameter given both ways raises `TypeError`; otherwise a
      mapped parameter given neither way whose property is empty raises
      `RuntimeError`; otherwise explicit arguments are passed as given and the
      remaining mapped parameters get their properties' values. */
  function CallArgs<T>(given: map<string, T>, kwargs: map<string, T>, current: map<string, Option<T>>)
    : Result<map<string, T>>
  {
    if exists a :: a in given && a in kwargs then Err(TypeError)
    else if exists a :: a in current && a !in given && a !in kwargs && current[a].None? then Err(RuntimeError)
    else Ok(kwargs + given + map a | a in current && a !in given && a !in kwargs && current[a].Some? :: current[a].value)
  }

  /** Explicit arguments win: every positional and keyword argument is passed
      unchanged, every other mapped parameter gets its property's value, and
      nothing else is passed. */
  lemma CallArgsPrecedence<T>(given: map<string, T>, kwargs: map<string, T>, current: map<string, Option<T>>)
    requires CallArgs(given, kwargs, current).Ok?
    ensures var passed := CallArgs(given, kwargs, current).value;
      passed.Keys == given.Keys + kwargs.Keys + current.Keys &&
      (forall a :: a in given ==> passed[a] == given[a]) &&
      (forall a :: a in kwargs ==> passed[a] == kwargs[a]) &&
      (forall a :: a in current && a !in given && a !in kwargs ==> current[a] == Some(passed[a]))
  {
  }

  /** `dict(zip(argnames, args))`: positional arguments by parameter name;
      surplus arguments or names are dropped by the `zip`. */
  function Positional<T>(argnames: seq<string>, args: seq<T>): (m: map<string, T>)
    ensures m.Keys == set i | 0 <= i < |argnames| && i < |args| :: argnames[i]
  {
    var n := if |argnames| < |args| then |argnames| else |args|;
    Zip(argnames[..n], args[..n])
  }

  function Zip<T>(names: seq<string>, values: seq<T>): (m: map<string, T>)
    requires |names| == |values|
    ensures m.Keys == set i | 0 <= i < |names| :: names[i]
    decreases |names|
  {
    if |names| == 0 then map[]
    else Zip(names[..|names| - 1], values[..|names| - 1])[names[|names| - 1] := values[|names| - 1]]
  }

  /** The elements of a finite set, each once, in some order. */
  method ListOf(s: set<string>) returns (names: seq<string>)
    ensures forall x :: x in names <==> x in s
    ensures (set i | 0 <= i < |names| :: names[i]) == s
    ensures forall i :: 0 <= i < |names| ==> names[i] !in names[..i]
  {
    names := [];
    var rest := s;
    while rest != {}
      invariant forall x :: x in names <==> x in s - rest
      invariant rest <= s
      invariant forall i :: 0 <= i < |names| ==> names[i] !in names[..i]
      decreases rest
    {
      var n :| n in rest;
      names := names + [n];
      rest := rest - {n};
    }
  }

  /** The module's demonstration: `func(a, b, c)` decorated with
      `decorate_func('a', b=..., c='car', __register__=True)` and called as
      `func(-1)` under values 1, 2, 3 for `a`, `b` and `car` receives
      a = -1 (explicit), b = 2 and c = 3 (from the pool). */
  method DecorateExample() returns (r: Result<map<string, int>>)
    ensures r == Ok(map["a" := -1, "b" := 2, "c" := 3])
  {
    var pool, m := ExamplePushed();
    assert Positional(["a", "b", "c"], [-1]) == map["a" := -1] by {
      assert Zip(["a"], [-1]) == map["a" := -1];
    }
    r := pool.Call(m, ["a", "b", "c"], [-1], map[]);
    ExampleCurrents(pool, m);
    CallArgsExample();
  }

  lemma CallArgsExample()
    ensures CallArgs(map["a" := -1], map[], map["a" := Some(1), "b" := Some(2), "c" := Some(3)])
         == Ok(map["a" := -1, "b" := 2, "c" := 3])
  {
    var given, none: map<string, int> := map["a" := -1], map[];
    var current := map["a" := Some(1), "b" := Some(2), "c" := Some(3)];
    var filled := map["b" := 2, "c" := 3];
    assert current.Keys == {"a", "b", "c"} && given.Keys == {"a"} && none.Keys == {};
    assert "a"[0] != "b"[0] && "a"[0] != "c"[0];
    assert current.Keys - given.Keys - none.Keys == {"b", "c"};
    CallArgsFilled(given, none, current, filled);
    assert none + given + filled == map["a" := -1, "b" := 2, "c" := 3];
  }

  /** The demonstration's pool inside the three `add_value` scopes. */
  method ExamplePushed() returns (pool: Pool<int>, m: map<string, string>)
    ensures m == map["a" := "a", "b" := "b", "c" := "car"]
    ensures pool.props.Keys == {"a", "b", "car"}
    ensures forall k :: k in pool.props ==> pool.props[k].prop.Valid()
    ensures pool.props["a"].Current() == Some(1) && pool.props["b"].Current() == Some(2) &&
      pool.props["car"].Current() == Some(3)
  {
    pool, m := ExamplePool();
    var pa, pb, pc := pool.props["a"], pool.props["b"], pool.props["car"];
    var o, k := pa.Push(Value(1));
    o, k := pb.Push(Value(2));
    o, k := pc.Push(Value(3));
  }

  lemma ExampleCurrents(pool: Pool<int>, m: map<string, string>)
    requires m == map["a" := "a", "b" := "b", "c" := "car"]
    requires pool.props.Keys == {"a", "b", "car"}
    requires forall k :: k in pool.props ==> pool.props[k].prop.Valid()
    requires pool.props["a"].Current() == Some(1) && pool.props["b"].Current() == Some(2) &&
      pool.props["car"].Current() == Some(3)
    ensures pool.Currents(m) == map["a" := Some(1), "b" := Some(2), "c" := Some(3)]
  {
    var cur := pool.Currents(m);
    assert cur.Keys == {"a", "b", "c"};
  }

  /** The pool of the demonstration right after decoration: three fresh,
      empty properties `a`, `b`, `car`, and the mapping a -> a, b -> b,
      c -> car. */
  method ExamplePool() returns (pool: Pool<int>, m: map<string, string>)
    ensures fresh(pool) && m == map["a" := "a", "b" := "b", "c" := "car"]
    ensures pool.props.Keys == {"a", "b", "car"}
    ensures forall k :: k in pool.props ==>
      pool.props[k].pool == pool && pool.props[k].prop.Valid() && pool.props[k].prop.stack == [] &&
      fresh(pool.props[k].prop)
    ensures pool.props["a"].prop != pool.props["b"].prop && pool.props["a"].prop != pool.props["car"].prop &&
      pool.props["b"].prop != pool.props["car"].prop
  {
    ExampleMapping();
    pool := new Pool<int>();
    var d := pool.Decorate(["a"], [("b", None), ("c", Some("car"))], true);
    m := d.value;
  }

  lemma ExampleMapping()
    ensures Mapping(["a"], [("b", None), ("c", Some("car"))]) == Ok(map["a" := "a", "b" := "b", "c" := "car"])
    ensures !SharedMissing(map["a" := "a", "b" := "b", "c" := "car"], {})
  {
    var same, other := ["a"], [("b", None), ("c", Some("car"))];
    assert same[0] != other[0].0 && same[0] != other[1].0;
    var r := Mapping(same, other);
    assert r.Ok?;
    assert r.value.Keys == {"a", "b", "c"} by {
      assert (set i | 0 <= i < |same| :: same[i]) == {"a"};
      assert (set j | 0 <= j < |other| :: other[j].0) == {"b", "c"};
    }
    assert r.value["a"] == "a" && r.value["b"] == "b" && r.value["c"] == "car";
    assert r.value == map["a" := "a", "b" := "b", "c" := "car"];
  }

  /** `node_added` nested twice for one name: the inner exit keeps the mark,
      the outer exit removes it. */
  method NestedMarks<T>(pool: Pool<T>, name: string) returns (between: bool)
    requires name !in pool.nondefaults
    modifies pool
    ensures between && pool.nondefaults == old(pool.nondefaults)
  {
    var outer := pool.Mark(name);
    var inner := pool.Mark(name);
    pool.Unmark(name, inner);
    between := name in pool.nondefaults;
    pool.Unmark(name, outer);
  }
}
