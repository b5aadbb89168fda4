/** serialization/recognizing.py: one-way recognizers that read a
    characteristic (for example which object class a decoded dict stands for)
    off some data. A recognizer is a value of the `Recognizer` datatype and
    `Apply` is its `__call__`. */
module Recognizing {
  import opened Wrappers
  import opened Funcs
  import opened Values

  /** `Sequence`, `Func`, `Key`, `Tuple`, `Nested` and `Map`. `Key` keeps its
      converter and default as options (`None` for "not given"). A `Nested`
      whose `convert` is the identity is `Nested(inner)`; `Map` is `Nested`
      with the mapping lookup as `convert`. The mapping is a dict display,
      kept as its items in order so that a later duplicate key wins. */
  datatype Recognizer =
    | Sequence(items: seq<Recognizer>)
    | Func(f: Value -> Result<Value>)
    | Key(key: Value, converter: Option<Value -> Result<Value>>, default: Option<Value>)
    | Tuple(parts: seq<Recognizer>)
    | Nested(inner: Recognizer)
    | Map(base: Recognizer, mapping: seq<(Value, Target)>)

  /** What a mapping entry holds: a plain value, or a recognizer that is then
      applied to the original data. */
  datatype Target = Plain(v: Value) | Then(r: Recognizer)

  /** `_as_sequence`. */
  function AsSequence(r: Recognizer): (s: seq<Recognizer>)
    ensures r.Sequence? ==> s == r.items
    ensures !r.Sequence? ==> s == [r]
  {
    if r.Sequence? then r.items else [r]
  }

  /** `a >> b` (`Base.__rshift__`): one sequence holding the steps of both. */
  function Chain(a: Recognizer, b: Recognizer): Recognizer {
    Sequence(AsSequence(a) + AsSequence(b))
  }

  /** A recognizer whose steps are not themselves sequences. */
  predicate Flat(r: Recognizer) {
    forall i :: 0 <= i < |AsSequence(r)| ==> !AsSequence(r)[i].Sequence?
  }

  /** `>>` flattens: `a >> b >> c` and `a >> (b >> c)` build the same
      sequence, and chaining flat recognizers gives a flat one. */
  lemma ChainAssociative(a: Recognizer, b: Recognizer, c: Recognizer)
    ensures Chain(Chain(a, b), c) == Chain(a, Chain(b, c))
    ensures Flat(a) && Flat(b) ==> Flat(Chain(a, b))
  {
    assert AsSequence(a) + AsSequence(b) + AsSequence(c) == AsSequence(a) + (AsSequence(b) + AsSequence(c));
  }

  /** `Recognizer.__call__`. */
  function Apply(r: Recognizer, data: Value): Result<Value>
    decreases r
  {
    match r
    case Sequence(items) => Run(items, data)
    case Func(f) => f(data)
    case Key(key, converter, default) => KeyOf(key, converter, default, data)
    case Tuple(parts) =>
      (match ApplyAll(parts, data)
       case Ok(vs) => Ok(TupleV(vs))
       case Err(e) => Err(e))
    case Nested(inner) => Apply(inner, data)
    case Map(base, mapping) =>
      (match Apply(base, data)
       case Err(e) => Err(e)
       case Ok(v) =>
         (match Convert(mapping, v)
          case Err(e) => Err(e)
          case Ok(i) =>
            (match mapping[i].1
             case Plain(x) => Ok(x)
             case Then(next) => Apply(next, data))))
  }

  /** `Sequence.__call__`: each step works on the previous step's result. */
  function Run(items: seq<Recognizer>, data: Value): Result<Value>
    decreases items
  {
    if |items| == 0 then Ok(data)
    else match Apply(items[0], data)
      case Err(e) => Err(e)
      case Ok(v) => Run(items[1..], v)
  }

  /** `Tuple.__call__`: every part on the same data, results in order. */
  function ApplyAll(parts: seq<Recognizer>, data: Value): Result<seq<Value>>
    decreases parts
  {
    if |parts| == 0 then Ok([])
    else match Apply(parts[0], data)
      case Err(e) => Err(e)
      case Ok(v) =>
        (match ApplyAll(parts[1..], data)
         case Err(e) => Err(e)
         case Ok(vs) => Ok([v] + vs))
  }

  /** Python's `k in s` on strings: `k` occurs in `s` as a substring (the
      empty string occurs in every string). */
  predicate Occurs(k: string, s: string)
    decreases |s|
  {
    |k| <= |s| && (s[..|k|] == k || (|s| > 0 && Occurs(k, s[1..])))
  }

  /** Python's `key in data`: a dict tests its keys, a tuple its items, a
      string its substrings (a non-string key is a `TypeError` there); any
      other value supports no `in` and raises `TypeError`. */
  function Contains(data: Value, key: Value): (r: Result<bool>)
    ensures data.DictV? ==> r == Ok(Lookup(data.d, key).Some?)
    ensures data.TupleV? ==> r == Ok(key in data.items)
    ensures data.StrV? ==> r == if key.StrV? then Ok(Occurs(key.s, data.s)) else Err(TypeError)
    ensures r.Err? <==> !(data.DictV? || data.TupleV? || (data.StrV? && key.StrV?))
  {
    match data
    case DictV(d) => Ok(Lookup(d, key).Some?)
    case TupleV(items) => Ok(key in items)
    case StrV(s) => if key.StrV? then Ok(Occurs(key.s, s)) else Err(TypeError)
    case _ => Err(TypeError)
  }

  /** The position an integer index names in a sequence of length `n`:
      negative indices count from the end; out of range is `IndexError`. */
  function Position(i: int, n: nat): (r: Result<nat>)
    ensures r.Ok? <==> -(n as int) <= i < n
    ensures r.Ok? ==> r.value < n && (r.value == i || r.value == i + n)
  {
    if 0 <= i < n then Ok(i) else if -(n as int) <= i < 0 then Ok(i + n) else Err(IndexError)
  }

  /** Python's integer value of an index: an `int`, or a `bool` as 0 or 1. */
  function IndexValue(key: Value): Option<int> {
    match key
    case IntV(i) => Some(i)
    case BoolV(b) => Some(if b then 1 else 0)
    case _ => None
  }

  /** Python's `data[key]`: a dict looks the key up (`KeyError` when absent);
      a tuple or a string takes an integer index (a string gives a
      one-character string) and refuses any other key with `TypeError`; any
      other value is not subscriptable. */
  function Subscript(data: Value, key: Value): (r: Result<Value>)
    ensures data.DictV? ==> r == (match Lookup(data.d, key) case Some(v) => Ok(v) case None => Err(KeyError))
    ensures (data.TupleV? || data.StrV?) && IndexValue(key).None? ==> r == Err(TypeError)
    ensures data.TupleV? && IndexValue(key).Some? ==>
      r == (match Position(IndexValue(key).value, |data.items|)
            case Ok(j) => Ok(data.items[j]) case Err(e) => Err(e))
    ensures data.StrV? && IndexValue(key).Some? ==>
      r == (match Position(IndexValue(key).value, |data.s|)
            case Ok(j) => Ok(StrV([data.s[j]])) case Err(e) => Err(e))
    ensures !(data.DictV? || data.TupleV? || data.StrV?) ==> r == Err(TypeError)
  {
    match data
    case DictV(d) => (match Lookup(d, key) case Some(v) => Ok(v) case None => Err(KeyError))
    case TupleV(items) =>
      (match IndexValue(key)
       case None => Err(TypeError)
       case Some(i) => (match Position(i, |items|) case Ok(j) => Ok(items[j]) case Err(e) => Err(e)))
    case StrV(s) =>
      (match IndexValue(key)
       case None => Err(TypeError)
       case Some(i) => (match Position(i, |s|) case Ok(j) => Ok(StrV([s[j]])) case Err(e) => Err(e)))
    case _ => Err(TypeError)
  }

  /** `Key.__call__`: when `key in data` fails the default is returned, or
      `KeyError` raised when there is none; otherwise `data[key]`, passed
      through the converter if one is set. Errors of `in` and of the
      subscript propagate. */
  function KeyOf(key: Value, converter: Option<Value -> Result<Value>>, default: Option<Value>, data: Value)
    : (r: Result<Value>)
    ensures data.DictV? && Lookup(data.d, key).None? ==>
      r == (if default.Some? then Ok(default.value) else Err(KeyError))
    ensures data.DictV? && Lookup(data.d, key).Some? && converter.None? ==> r == Ok(Lookup(data.d, key).value)
    ensures data.DictV? && Lookup(data.d, key).Some? && converter.Some? ==>
      r == converter.value(Lookup(data.d, key).value)
    ensures data.TupleV? && key !in data.items ==>
      r == (if default.Some? then Ok(default.value) else Err(KeyError))
    ensures data.TupleV? && key in data.items && IndexValue(key).None? ==> r == Err(TypeError)
    ensures data.StrV? && !key.StrV? ==> r == Err(TypeError)
    ensures data.StrV? && key.StrV? ==>
      r == if Occurs(key.s, data.s) then Err(TypeError)
           else if default.Some? then Ok(default.value) else Err(KeyError)
    ensures !(data.DictV? || data.TupleV? || data.StrV?) ==> r == Err(TypeError)
  {
    match Contains(data, key)
    case Err(e) => Err(e)
    case Ok(found) =>
      if !found then (if default.Some? then Ok(default.value) else Err(KeyError))
      else
        match Subscript(data, key)
        case Err(e) => Err(e)
        case Ok(v) => if converter.None? then Ok(v) else converter.value(v)
  }

  /** `Key` on data that is not a dict: a missing key gives the default even
      on a tuple, a string key on a string is a substring test whose success
      leads to a `TypeError` subscript, and an integer key present in a tuple
      indexes it by position. */
  lemma KeyOfOtherData()
    ensures KeyOf(StrV("a"), None, Some(IntV(0)), TupleV([IntV(1), IntV(2)])) == Ok(IntV(0))
    ensures KeyOf(StrV("a"), None, None, TupleV([IntV(1), IntV(2)])) == Err(KeyError)
    ensures KeyOf(StrV("a"), None, None, StrV("abc")) == Err(TypeError)
    ensures KeyOf(StrV("z"), None, Some(IntV(0)), StrV("abc")) == Ok(IntV(0))
    ensures KeyOf(IntV(1), None, None, TupleV([IntV(5), IntV(1)])) == Ok(IntV(1))
    ensures KeyOf(IntV(-1), None, None, TupleV([IntV(5), IntV(-1)])) == Ok(IntV(-1))
    ensures KeyOf(StrV("a"), None, Some(IntV(0)), IntV(3)) == Err(TypeError)
  {
    assert Occurs("a", "abc") by { assert "abc"[..1] == "a"; }
    assert !Occurs("z", "abc") by {
      assert "abc"[..1] != "z" && "abc"[1..] == "bc";
      assert "bc"[..1] != "z" && "bc"[1..] == "c";
      assert "c"[..1] != "z" && "c"[1..] == "";
    }
  }

  /** `Map.convert`, as the index of the mapping entry it returns: the entry
      for the value itself, else the `...` entry, else `KeyError`. Looking up
      an unhashable value raises `TypeError`. */
  function Convert(mapping: seq<(Value, Target)>, v: Value): (r: Result<nat>)
    ensures r.Ok? ==> r.value < |mapping|
    ensures r == Err(TypeError) <==> !Hashable(v)
    ensures Hashable(v) && LastIndex(mapping, v).Some? ==> r == Ok(LastIndex(mapping, v).value)
    ensures Hashable(v) && LastIndex(mapping, v).None? ==>
      r == (if LastIndex(mapping, EllipsisV).Some? then Ok(LastIndex(mapping, EllipsisV).value) else Err(KeyError))
  {
    if !Hashable(v) then Err(TypeError)
    else match LastIndex(mapping, v)
      case Some(i) => Ok(i)
      case None =>
        (match LastIndex(mapping, EllipsisV)
         case Some(j) => Ok(j)
         case None => Err(KeyError))
  }

  /** Applying a sequence of steps followed by more steps is applying the
      first steps and then the rest to their result. */
  lemma {:induction false} RunAppend(s: seq<Recognizer>, t: seq<Recognizer>, data: Value)
    ensures Run(s + t, data) == (match Run(s, data) case Err(e) => Err(e) case Ok(v) => Run(t, v))
    decreases s
  {
    if |s| == 0 {
      assert s + t == t;
    } else {
      assert (s + t)[1..] == s[1..] + t;
      match Apply(s[0], data)
      case Err(e) =>
      case Ok(v) => RunAppend(s[1..], t, v);
    }
  }

  /** A recognizer behaves as the sequence of its steps. */
  lemma AsSequenceRun(r: Recognizer, data: Value)
    ensures Run(AsSequence(r), data) == Apply(r, data)
  {
    if !r.Sequence? {
      assert [r][1..] == [];
    }
  }

  /** `(a >> b)(data)` is `b(a(data))`, and an exception from `a` stops the
      chain. */
  lemma ChainApply(a: Recognizer, b: Recognizer, data: Value)
    ensures Apply(Chain(a, b), data) == (match Apply(a, data) case Err(e) => Err(e) case Ok(v) => Apply(b, v))
  {
    RunAppend(AsSequence(a), AsSequence(b), data);
    AsSequenceRun(a, data);
    match Apply(a, data)
    case Err(e) =>
    case Ok(v) => AsSequenceRun(b, v);
  }

  /** `Tuple` returns one result per part, each the part applied to the
      original data, and fails exactly when some part fails. */
  lemma {:induction false} TupleAt(parts: seq<Recognizer>, data: Value)
    ensures ApplyAll(parts, data).Ok? <==> forall i :: 0 <= i < |parts| ==> Apply(parts[i], data).Ok?
    ensures ApplyAll(parts, data).Ok? ==>
      |ApplyAll(parts, data).value| == |parts| &&
      forall i :: 0 <= i < |parts| ==> ApplyAll(parts, data).value[i] == Apply(parts[i], data).value
    decreases parts
  {
    if |parts| > 0 {
      TupleAt(parts[1..], data);
      assert forall i :: 1 <= i < |parts| ==> parts[i] == parts[1..][i - 1];
    }
  }

  /** A plain `Nested` with the identity `convert` is its inner recognizer. */
  lemma NestedIdentity(inner: Recognizer, data: Value)
    ensures Apply(Nested(inner), data) == Apply(inner, data)
  {
  }

  /** The equivalence `Map`'s docstring states:
      `Map(Key('foo'), {1: Key('bar'), ...: 0})(data)` reads `data['foo']`,
      and gives `data['bar']` when that is 1 and 0 otherwise. */
  lemma DocExample(data: Value)
    requires data.DictV?
    ensures
      var foo := StrV("foo");
      var bar := StrV("bar");
      var m := Map(Key(foo, None, None), [(IntV(1), Then(Key(bar, None, None))), (EllipsisV, Plain(IntV(0)))]);
      Apply(m, data) ==
        match Lookup(data.d, foo)
        case None => Err(KeyError)
        case Some(k) =>
          if !Hashable(k) then Err(TypeError)
          else if k == IntV(1) then (match Lookup(data.d, bar) case None => Err(KeyError) case Some(x) => Ok(x))
          else Ok(IntV(0))
  {
    var foo := StrV("foo");
    var mapping := [(IntV(1), Then(Key(StrV("bar"), None, None))), (EllipsisV, Plain(IntV(0)))];
    match Lookup(data.d, foo)
    case None =>
    case Some(k) =>
      if Hashable(k) && k != IntV(1) && k != EllipsisV {
        assert LastIndex(mapping, k).None?;
      }
  }

  /** A recognizer found in the mapping works on the ORIGINAL data, not on
      the value that selected it: with data `{'foo': 1, 'bar': 7}` the
      docstring example gives 7. */
  lemma ThenSeesOriginalData()
    ensures
      var data := DictV([(StrV("foo"), IntV(1)), (StrV("bar"), IntV(7))]);
      var m := Map(Key(StrV("foo"), None, None), [(IntV(1), Then(Key(StrV("bar"), None, None))), (EllipsisV, Plain(IntV(0)))]);
      Apply(m, data) == Ok(IntV(7))
  {
    var data := DictV([(StrV("foo"), IntV(1)), (StrV("bar"), IntV(7))]);
    assert "foo"[0] != "bar"[0];
    DocExample(data);
  }

  /** `Sequence.__call__` with its loop. */
  method RunSequence(items: seq<Recognizer>, data: Value) returns (r: Result<Value>)
    ensures r == Apply(Sequence(items), data)
  {
    var v := data;
    var i := 0;
    while i < |items|
      invariant 0 <= i <= |items|
      invariant Run(items, data) == Run(items[i..], v)
    {
      assert items[i..][1..] == items[i + 1..];
      var step := Apply(items[i], v);
      if step.Err? {
        return Err(step.error);
      }
      v := step.value;
      i := i + 1;
    }
    return Ok(v);
  }
}
