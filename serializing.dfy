/** serializing.py: two-way serializers. `analyze` turns raw data into a
    value and `compile` turns a value back into raw data. Some serializers
    compile by writing into a second argument, the sink dict `data`; in the
    model a compile returns its result together with the new sink. */
module Serializing {
  import opened Wrappers
  import opened Funcs
  import opened Values

  /** `Sequence`, `Key`, `Func`, `DictFields`, `DictFieldsOptimized` and
      `ToClass`. `Key`'s default and `Func`'s two functions are options
      (`None` for "not given"). `ToClass` carries the `__slots__` of its class,
      or `None` for a class whose instances have a `__dict__`. */
  datatype Serializer =
    | Sequence(items: seq<Serializer>)
    | Key(key: Value, default: Option<Value>)
    | Func(analyser: Option<Value -> Result<Value>>, compiler: Option<Value -> Result<Value>>, keys: seq<Value>)
    | DictFields(fields: seq<Field>)
    | Optimized(fields: seq<Field>, unused: Option<Field>)
    | ToClass(klass: string, slots: Option<seq<Value>>)

  /** `FieldCommon(name, serializer)`. */
  datatype Field = Common(name: Value, szr: Serializer)

  /** What `compile` returns, and the sink dict afterwards (`None` when the
      caller passed no sink). */
  datatype Out = Out(value: Value, sink: Option<Dict<Value, Value>>)

  /** `_as_sequence`. */
  function AsSequence(s: Serializer): seq<Serializer> {
    if s.Sequence? then s.items else [s]
  }

  /** `a >> b` (`Base.__rshift__`). */
  function Chain(a: Serializer, b: Serializer): Serializer {
    Sequence(AsSequence(a) + AsSequence(b))
  }

  /** `get_keys`: the raw keys a serializer reads. `DictFields` does not
      override it, so it reports none. */
  function GetKeys(s: Serializer): seq<Value>
    decreases s
  {
    match s
    case Sequence(items) => SeqKeys(items)
    case Key(key, _) => [key]
    case Func(_, _, keys) => keys
    case DictFields(_) => []
    case Optimized(fields, _) => FieldKeys(fields)
    case ToClass(_, _) => []
  }

  function SeqKeys(items: seq<Serializer>): seq<Value>
    decreases items
  {
    if |items| == 0 then [] else GetKeys(items[0]) + SeqKeys(items[1..])
  }

  function FieldKeys(fields: seq<Field>): seq<Value>
    decreases fields
  {
    if |fields| == 0 then [] else KeysOf(fields[0]) + FieldKeys(fields[1..])
  }

  /** `FieldCommon.get_keys`: its serializer's keys. */
  function KeysOf(f: Field): seq<Value>
    decreases f
  {
    GetKeys(f.szr)
  }

  /** The field `from_key[k]` holds: the last field listing `k` among its keys,
      because the table is filled field by field and later entries win. */
  function KeyOwner(fields: seq<Field>, k: Value): (o: Option<nat>)
    ensures o.Some? ==> o.value < |fields| && k in GetKeys(fields[o.value].szr)
    ensures o.None? ==> forall i :: 0 <= i < |fields| ==> k !in GetKeys(fields[i].szr)
    decreases |fields|
  {
    if |fields| == 0 then None
    else if k in GetKeys(fields[|fields| - 1].szr) then Some(|fields| - 1)
    else KeyOwner(fields[..|fields| - 1], k)
  }

  /** The field `from_name[n]` holds: the last field named `n`. */
  function NameOwner(fields: seq<Field>, n: Value): (o: Option<nat>)
    ensures o.Some? ==> o.value < |fields| && fields[o.value].name == n
    ensures forall i :: 0 <= i < |fields| && fields[i].name == n ==> o.Some? && i <= o.value
    decreases |fields|
  {
    if |fields| == 0 then None
    else if fields[|fields| - 1].name == n then Some(|fields| - 1)
    else NameOwner(fields[..|fields| - 1], n)
  }

  /** The field names the keys of `d` claim, each once, in the order in which
      a key first claims it (`used_field_names`, an ordered set). */
  function UsedNames(fields: seq<Field>, d: Dict<Value, Value>): (names: seq<Value>)
    ensures forall i :: 0 <= i < |names| ==> NameOwner(fields, names[i]).Some?
    decreases |d|
  {
    if |d| == 0 then []
    else
      var names := UsedNames(fields, d[..|d| - 1]);
      match KeyOwner(fields, d[|d| - 1].0)
      case None => names
      case Some(i) => if fields[i].name in names then names else names + [fields[i].name]
  }

  /** The items of `d` no field claims (`unused_keys`). */
  function Unclaimed(fields: seq<Field>, d: Dict<Value, Value>): Dict<Value, Value>
    decreases |d|
  {
    if |d| == 0 then []
    else
      var rest := Unclaimed(fields, d[..|d| - 1]);
      if KeyOwner(fields, d[|d| - 1].0).Some? then rest else Insert(rest, d[|d| - 1].0, d[|d| - 1].1)
  }

  /** `analyze`. */
  function Analyze(s: Serializer, data: Value): Result<Value>
    decreases s
  {
    match s
    case Sequence(items) => AnalyzeSeq(items, data)
    case Key(key, default) =>
      (match data
       case DictV(d) =>
         (match Lookup(d, key)
          case Some(v) => Ok(v)
          case None => if default.Some? then Ok(default.value) else Err(KeyError))
       case _ => if default.Some? then Err(AttributeError) else Err(TypeError))
    case Func(analyser, _, _) => if analyser.None? then Ok(data) else analyser.value(data)
    case DictFields(fields) =>
      (match AnalyzeFields(fields, data, [])
       case Ok(value) => Ok(DictV(value))
       case Err(e) => Err(e))
    case Optimized(fields, unused) =>
      (match data
       case DictV(d) =>
         (match AnalyzeNamed(fields, UsedNames(fields, d), data, [])
          case Err(e) => Err(e)
          case Ok(value) =>
            if unused.Some? && |Unclaimed(fields, d)| > 0 then
              (match FieldAnalyse(unused.value, DictV(Unclaimed(fields, d)), value)
               case Ok(value') => Ok(DictV(value'))
               case Err(e) => Err(e))
            else Ok(DictV(value)))
       case _ => Err(AttributeError))
    case ToClass(klass, slots) =>
      (match data
       case DictV(d) =>
         if slots.None? || forall i :: 0 <= i < |d| ==> d[i].0 in slots.value then Ok(ObjV(klass, d))
         else Err(AttributeError)
       case _ => if slots.None? then Err(TypeError) else Err(AttributeError))
  }

  /** `Sequence.analyze`: left to right, each on the previous result. */
  function AnalyzeSeq(items: seq<Serializer>, data: Value): Result<Value>
    decreases items
  {
    if |items| == 0 then Ok(data)
    else match Analyze(items[0], data)
      case Err(e) => Err(e)
      case Ok(v) => AnalyzeSeq(items[1..], v)
  }

  /** `FieldCommon.analyse(data, value)`: stores the result under the field's
      name unless it is `None`. */
  function FieldAnalyse(f: Field, data: Value, value: Dict<Value, Value>): Result<Dict<Value, Value>>
    decreases f
  {
    match Analyze(f.szr, data)
    case Err(e) => Err(e)
    case Ok(v) => if v == NoneV then Ok(value) else Ok(Insert(value, f.name, v))
  }

  /** The loop of `DictFields.analyze`: every field adds to the same dict. */
  function AnalyzeFields(fields: seq<Field>, data: Value, value: Dict<Value, Value>): Result<Dict<Value, Value>>
    decreases fields
  {
    if |fields| == 0 then Ok(value)
    else match FieldAnalyse(fields[0], data, value)
      case Err(e) => Err(e)
      case Ok(value') => AnalyzeFields(fields[1..], data, value')
  }

  /** The second loop of `DictFieldsOptimized.analyze`: each used name gets
      the result of `from_name[name]`'s serializer on the whole data, even
      when that result is `None`. */
  function AnalyzeNamed(fields: seq<Field>, names: seq<Value>, data: Value, value: Dict<Value, Value>)
    : Result<Dict<Value, Value>>
    requires forall i :: 0 <= i < |names| ==> NameOwner(fields, names[i]).Some?
    decreases fields, |names|
  {
    if |names| == 0 then Ok(value)
    else match AnalyzeWith(fields[NameOwner(fields, names[0]).value], data)
      case Err(e) => Err(e)
      case Ok(v) => AnalyzeNamed(fields, names[1..], data, Insert(value, names[0], v))
  }

  /** `field.serializer.analyze(data)`. */
  function AnalyzeWith(f: Field, data: Value): Result<Value>
    decreases f
  {
    Analyze(f.szr, data)
  }

  /** `compile(value, data)`; `DictFieldsOptimized` is the corrected one (see
      `CompileOptimizedAsWritten`). */
  function Compile(s: Serializer, value: Value, sink: Option<Dict<Value, Value>>): (r: Result<Out>)
    ensures r.Ok? ==> r.value.sink.Some? == sink.Some?
    decreases s
  {
    match s
    case Sequence(items) => CompileSeq(items, value, sink)
    case Key(key, default) =>
      if default.None? || value != default.value then
        (match sink
         case None => Err(TypeError)
         case Some(d) => Ok(Out(NoneV, Some(Insert(d, key, value)))))
      else Ok(Out(NoneV, sink))
    case Func(_, compiler, _) =>
      if compiler.None? then Ok(Out(value, sink))
      else (match compiler.value(value)
            case Ok(w) => Ok(Out(w, sink))
            case Err(e) => Err(e))
    case DictFields(fields) =>
      (match CompileFields(fields, value, sink.GetOr([]))
       case Err(e) => Err(e)
       case Ok(d) => Ok(Out(DictV(d), if sink.Some? then Some(d) else None)))
    case Optimized(fields, unused) =>
      (match CompileUnused(unused, value)
       case Err(e) => Err(e)
       case Ok(_) =>
         if !value.DictV? then Err(AttributeError)
         else match CompileNamed(fields, value.d, sink.GetOr([]))
           case Err(e) => Err(e)
           case Ok(d) => Ok(Out(DictV(d), if sink.Some? then Some(d) else None)))
    case ToClass(_, slots) =>
      (match value
       case ObjV(_, attrs) =>
         if slots.None? then Ok(Out(DictV(attrs), sink))
         else (match SlotValues(slots.value, attrs)
               case Ok(d) => Ok(Out(DictV(d), sink))
               case Err(e) => Err(e))
       case _ => Err(AttributeError))
  }

  /** `Sequence.compile`: the last serializer first, all writing into the
      same sink. */
  function CompileSeq(items: seq<Serializer>, value: Value, sink: Option<Dict<Value, Value>>): (r: Result<Out>)
    ensures r.Ok? ==> r.value.sink.Some? == sink.Some?
    decreases items
  {
    if |items| == 0 then Ok(Out(value, sink))
    else match Compile(items[|items| - 1], value, sink)
      case Err(e) => Err(e)
      case Ok(o) => CompileSeq(items[..|items| - 1], o.value, o.sink)
  }

  /** `FieldCommon.compile(value, data)`: compiles `value.get(name, None)`
      into the sink. */
  function FieldCompile(f: Field, value: Value, d: Dict<Value, Value>): Result<Dict<Value, Value>>
    decreases f, 1
  {
    if !value.DictV? then Err(AttributeError)
    else CompileInto(f, Lookup(value.d, f.name).GetOr(NoneV), d)
  }

  /** `field.serializer.compile(v, d)` for a sink `d`: the sink afterwards. */
  function CompileInto(f: Field, v: Value, d: Dict<Value, Value>): Result<Dict<Value, Value>>
    decreases f, 0
  {
    match Compile(f.szr, v, Some(d))
    case Err(e) => Err(e)
    case Ok(o) => Ok(o.sink.value)
  }

  /** The loop of `DictFields.compile`. */
  function CompileFields(fields: seq<Field>, value: Value, d: Dict<Value, Value>): Result<Dict<Value, Value>>
    decreases fields
  {
    if |fields| == 0 then Ok(d)
    else match FieldCompile(fields[0], value, d)
      case Err(e) => Err(e)
      case Ok(d') => CompileFields(fields[1..], value, d')
  }

  /** `self.unused.compile(value, unused_keys)` with a fresh scratch dict:
      only a failure is seen by the caller. */
  function CompileUnused(unused: Option<Field>, value: Value): Result<Dict<Value, Value>>
    decreases unused
  {
    match unused
    case None => Ok([])
    case Some(f) => FieldCompile(f, value, [])
  }

  /** The loop over `value.items()` of `DictFieldsOptimized.compile`, with the
      membership test on `from_name`: every item named after a field is
      compiled by that field's serializer. */
  function CompileNamed(fields: seq<Field>, items: Dict<Value, Value>, d: Dict<Value, Value>)
    : Result<Dict<Value, Value>>
    decreases fields, |items|
  {
    if |items| == 0 then Ok(d)
    else match NameOwner(fields, items[0].0)
      case None => CompileNamed(fields, items[1..], d)
      case Some(j) =>
        (match CompileInto(fields[j], items[0].1, d)
         case Err(e) => Err(e)
         case Ok(d') => CompileNamed(fields, items[1..], d'))
  }

  /** `{name: getattr(value, name) for name in __slots__}`. */
  function SlotValues(slots: seq<Value>, attrs: Dict<Value, Value>): Result<Dict<Value, Value>>
    decreases |slots|
  {
    if |slots| == 0 then Ok([])
    else match SlotValues(slots[..|slots| - 1], attrs)
      case Err(e) => Err(e)
      case Ok(d) =>
        (match Lookup(attrs, slots[|slots| - 1])
         case None => Err(AttributeError)
         case Some(v) => Ok(Insert(d, slots[|slots| - 1], v)))
  }

  /** `DictFieldsOptimized.compile` as written. An item of `value` is
      compiled only when its NAME is a raw key in `from_key`, and then by
      `from_name[name]`, which raises `KeyError` when no field has that name.
      `Compile` above tests the name against `from_name` instead. */
  function CompileOptimizedAsWritten(fields: seq<Field>, unused: Option<Field>, value: Value, sink: Option<Dict<Value, Value>>)
    : Result<Out>
  {
    match CompileUnused(unused, value)
    case Err(e) => Err(e)
    case Ok(_) =>
      if !value.DictV? then Err(AttributeError)
      else match CompileNamedAsWritten(fields, value.d, sink.GetOr([]))
        case Err(e) => Err(e)
        case Ok(d) => Ok(Out(DictV(d), if sink.Some? then Some(d) else None))
  }

  function CompileNamedAsWritten(fields: seq<Field>, items: Dict<Value, Value>, d: Dict<Value, Value>)
    : Result<Dict<Value, Value>>
    decreases |items|
  {
    if |items| == 0 then Ok(d)
    else if KeyOwner(fields, items[0].0).None? then CompileNamedAsWritten(fields, items[1..], d)
    else match NameOwner(fields, items[0].0)
      case None => Err(KeyError)
      case Some(j) =>
        (match CompileInto(fields[j], items[0].1, d)
         case Err(e) => Err(e)
         case Ok(d') => CompileNamedAsWritten(fields, items[1..], d'))
  }

  /** With the field `FieldCommon('x', Key('a'))`, analysing `{'a': 5}` gives
      `{'x': 5}`. Compiling that back as written skips the field, because
      `'x'` is not a raw key, and compiling `{'a': 5}` raises `KeyError`,
      because `'a'` is not a field name. The corrected compile gives back
      `{'a': 5}`. */
  lemma FromKeyCounterexample()
    ensures
      var x := StrV("x");
      var a := StrV("a");
      var fields := [Common(x, Key(a, None))];
      Analyze(Optimized(fields, None), DictV([(a, IntV(5))])) == Ok(DictV([(x, IntV(5))])) &&
      CompileOptimizedAsWritten(fields, None, DictV([(x, IntV(5))]), None) == Ok(Out(DictV([]), None)) &&
      CompileOptimizedAsWritten(fields, None, DictV([(a, IntV(5))]), None) == Err(KeyError) &&
      Compile(Optimized(fields, None), DictV([(x, IntV(5))]), None) == Ok(Out(DictV([(a, IntV(5))]), None))
  {
    var x := StrV("x");
    var a := StrV("a");
    var fields := [Common(x, Key(a, None))];
    assert "x"[0] != "a"[0];
    assert GetKeys(fields[0].szr) == [a];
    assert KeyOwner(fields, a) == Some(0);
    assert KeyOwner(fields, x) == None;
    assert NameOwner(fields, a) == None;
    assert NameOwner(fields, x) == Some(0);
    var data := [(a, IntV(5))];
    assert UsedNames(fields, data) == [x];
    assert Unclaimed(fields, data) == [];
    assert Lookup(data, a) == Some(IntV(5));
    assert AnalyzeWith(fields[0], DictV(data)) == Ok(IntV(5));
    assert AnalyzeNamed(fields, [x], DictV(data), []) == Ok([(x, IntV(5))]);
  }

  /** `>>` flattens, so composition is associative. */
  lemma ChainAssociative(a: Serializer, b: Serializer, c: Serializer)
    ensures Chain(Chain(a, b), c) == Chain(a, Chain(b, c))
  {
    assert AsSequence(a) + AsSequence(b) + AsSequence(c) == AsSequence(a) + (AsSequence(b) + AsSequence(c));
  }

  lemma {:induction false} SeqKeysAppend(s: seq<Serializer>, t: seq<Serializer>)
    ensures SeqKeys(s + t) == SeqKeys(s) + SeqKeys(t)
    decreases s
  {
    if |s| == 0 {
      assert s + t == t;
    } else {
      assert (s + t)[1..] == s[1..] + t;
      SeqKeysAppend(s[1..], t);
    }
  }

  /** `(a >> b).get_keys()` yields `a`'s keys and then `b`'s. */
  lemma ChainKeys(a: Serializer, b: Serializer)
    ensures GetKeys(Chain(a, b)) == GetKeys(a) + GetKeys(b)
  {
    SeqKeysAppend(AsSequence(a), AsSequence(b));
    assert SeqKeys([a]) == GetKeys(a) by { assert [a][1..] == []; }
    assert SeqKeys([b]) == GetKeys(b) by { assert [b][1..] == []; }
  }

  lemma {:induction false} AnalyzeSeqAppend(s: seq<Serializer>, t: seq<Serializer>, data: Value)
    ensures AnalyzeSeq(s + t, data) == (match AnalyzeSeq(s, data) case Err(e) => Err(e) case Ok(v) => AnalyzeSeq(t, v))
    decreases s
  {
    if |s| == 0 {
      assert s + t == t;
    } else {
      assert (s + t)[1..] == s[1..] + t;
      match Analyze(s[0], data)
      case Err(e) =>
      case Ok(v) => AnalyzeSeqAppend(s[1..], t, v);
    }
  }

  lemma AsSequenceAnalyze(r: Serializer, data: Value)
    ensures AnalyzeSeq(AsSequence(r), data) == Analyze(r, data)
  {
    if !r.Sequence? {
      assert [r][1..] == [];
    }
  }

  /** `(a >> b).analyze` runs `a` first and `b` on its result. */
  lemma ChainAnalyze(a: Serializer, b: Serializer, data: Value)
    ensures Analyze(Chain(a, b), data) == (match Analyze(a, data) case Err(e) => Err(e) case Ok(v) => Analyze(b, v))
  {
    AnalyzeSeqAppend(AsSequence(a), AsSequence(b), data);
    AsSequenceAnalyze(a, data);
    match Analyze(a, data)
    case Err(e) =>
    case Ok(v) => AsSequenceAnalyze(b, v);
  }

  lemma {:induction false} CompileSeqAppend(s: seq<Serializer>, t: seq<Serializer>, v: Value, sink: Option<Dict<Value, Value>>)
    ensures CompileSeq(s + t, v, sink) ==
      (match CompileSeq(t, v, sink) case Err(e) => Err(e) case Ok(o) => CompileSeq(s, o.value, o.sink))
    decreases t
  {
    if |t| == 0 {
      assert s + t == s;
    } else {
      var n := |t| - 1;
      assert (s + t)[..|s + t| - 1] == s + t[..n];
      assert (s + t)[|s + t| - 1] == t[n];
      match Compile(t[n], v, sink)
      case Err(e) =>
      case Ok(o) => CompileSeqAppend(s, t[..n], o.value, o.sink);
    }
  }

  lemma AsSequenceCompile(r: Serializer, v: Value, sink: Option<Dict<Value, Value>>)
    ensures CompileSeq(AsSequence(r), v, sink) == Compile(r, v, sink)
  {
    if !r.Sequence? {
      assert [r][..0] == [];
    }
  }

  /** `(a >> b).compile` runs `b` first and `a` on its result, both with the
      same sink: the first serializer analyses first and compiles last. */
  lemma ChainCompile(a: Serializer, b: Serializer, v: Value, sink: Option<Dict<Value, Value>>)
    ensures Compile(Chain(a, b), v, sink) ==
      (match Compile(b, v, sink) case Err(e) => Err(e) case Ok(o) => Compile(a, o.value, o.sink))
  {
    CompileSeqAppend(AsSequence(a), AsSequence(b), v, sink);
    AsSequenceCompile(b, v, sink);
    match Compile(b, v, sink)
    case Err(e) =>
    case Ok(o) => AsSequenceCompile(a, o.value, o.sink);
  }

  /** `analyze(compile(v)) == v` for a serializer that needs no sink. */
  predicate RoundTrips(s: Serializer, v: Value) {
    Compile(s, v, None).Ok? && Analyze(s, Compile(s, v, None).value.value) == Ok(v)
  }

  /** Round trips compose: if `b` brings `v` back and `a` brings back what
      `b` compiled `v` to, then `a >> b` brings `v` back. */
  lemma ChainRoundTrip(a: Serializer, b: Serializer, v: Value)
    requires RoundTrips(b, v) && RoundTrips(a, Compile(b, v, None).value.value)
    ensures RoundTrips(Chain(a, b), v)
  {
    var w := Compile(b, v, None).value;
    ChainCompile(a, b, v, None);
    var x := Compile(a, w.value, w.sink).value;
    ChainAnalyze(a, b, x.value);
  }

  /** `Key.compile` writes the value under the key unless a default is set
      and the value equals it; without a sink that write raises `TypeError`.
      Analysing the sink afterwards gives the value back, except when the
      write was skipped and the sink already held another value. */
  lemma KeyRoundTrip(key: Value, default: Option<Value>, v: Value, d: Dict<Value, Value>)
    requires DistinctKeys(d)
    ensures Compile(Key(key, default), v, None) == if default == Some(v) then Ok(Out(NoneV, None)) else Err(TypeError)
    ensures Compile(Key(key, default), v, Some(d)).Ok?
    ensures
      var d' := Compile(Key(key, default), v, Some(d)).value.sink.value;
      (default == Some(v) ==> d' == d) &&
      (default != Some(v) ==> DistinctKeys(d') && Lookup(d', key) == Some(v) &&
                              forall q :: q != key ==> Lookup(d', q) == Lookup(d, q)) &&
      (default != Some(v) || Lookup(d, key).None? ==> Analyze(Key(key, default), DictV(d')) == Ok(v))
  {
    if default != Some(v) {
      InsertShape(d, key, v);
      forall q {
        LookupInsert(d, key, v, q);
      }
    }
  }

  /** `FieldCommon.analyse` stores the serializer's result under the field's
      name when it is not `None`, and leaves the dict alone when it is. */
  lemma FieldAnalyseStores(f: Field, data: Value, value: Dict<Value, Value>)
    requires DistinctKeys(value)
    ensures Analyze(f.szr, data).Err? ==> FieldAnalyse(f, data, value) == Err(Analyze(f.szr, data).error)
    ensures Analyze(f.szr, data) == Ok(NoneV) ==> FieldAnalyse(f, data, value) == Ok(value)
    ensures Analyze(f.szr, data).Ok? && Analyze(f.szr, data).value != NoneV ==>
      FieldAnalyse(f, data, value).Ok? && DistinctKeys(FieldAnalyse(f, data, value).value) &&
      Lookup(FieldAnalyse(f, data, value).value, f.name) == Some(Analyze(f.szr, data).value) &&
      forall q :: q != f.name ==> Lookup(FieldAnalyse(f, data, value).value, q) == Lookup(value, q)
  {
    if Analyze(f.szr, data).Ok? && Analyze(f.szr, data).value != NoneV {
      var v := Analyze(f.szr, data).value;
      InsertShape(value, f.name, v);
      forall q {
        LookupInsert(value, f.name, v, q);
      }
    }
  }

  /** Whether the key `k` claims the field named `n`. */
  predicate Claims(fields: seq<Field>, k: Value, n: Value) {
    KeyOwner(fields, k).Some? && fields[KeyOwner(fields, k).value].name == n
  }

  predicate Distinct(s: seq<Value>) {
    forall i, j :: 0 <= i < j < |s| ==> s[i] != s[j]
  }

  /** Each used name is listed once. */
  lemma {:induction false} UsedNamesDistinct(fields: seq<Field>, d: Dict<Value, Value>)
    ensures Distinct(UsedNames(fields, d))
    decreases |d|
  {
    if |d| > 0 {
      var names := UsedNames(fields, d[..|d| - 1]);
      UsedNamesDistinct(fields, d[..|d| - 1]);
      var o := KeyOwner(fields, d[|d| - 1].0);
      if o.Some? && fields[o.value].name !in names {
        assert UsedNames(fields, d) == names + [fields[o.value].name];
      } else {
        assert UsedNames(fields, d) == names;
      }
    }
  }

  /** The used names are exactly the names some key of `d` claims. */
  lemma {:induction false} UsedNamesClaimed(fields: seq<Field>, d: Dict<Value, Value>)
    ensures forall n :: n in UsedNames(fields, d) <==> exists p :: 0 <= p < |d| && Claims(fields, d[p].0, n)
    decreases |d|
  {
    if |d| > 0 {
      var m := |d| - 1;
      UsedNamesClaimed(fields, d[..m]);
      forall n
        ensures n in UsedNames(fields, d) <==> exists p :: 0 <= p < |d| && Claims(fields, d[p].0, n)
      {
        if n in UsedNames(fields, d) && !(n in UsedNames(fields, d[..m])) {
          assert Claims(fields, d[m].0, n);
        }
        if exists p :: 0 <= p < |d| && Claims(fields, d[p].0, n) {
          var p :| 0 <= p < |d| && Claims(fields, d[p].0, n);
          if p < m {
            assert d[..m][p] == d[p];
          }
        }
      }
    }
  }

  /** The used names are listed in the order in which they are first
      claimed: the names claimed by a prefix of `d` form a prefix of the
      list. */
  lemma {:induction false} UsedNamesPrefix(fields: seq<Field>, d: Dict<Value, Value>, p: nat)
    requires p <= |d|
    ensures UsedNames(fields, d[..p]) <= UsedNames(fields, d)
    decreases |d|
  {
    if p < |d| {
      var m := |d| - 1;
      UsedNamesPrefix(fields, d[..m], p);
      assert d[..m][..p] == d[..p];
    } else {
      assert d[..p] == d;
    }
  }

  /** An unclaimed item goes to `unused_keys` with its value; a claimed key
      is not there. */
  lemma {:induction false} UnclaimedLookup(fields: seq<Field>, d: Dict<Value, Value>, k: Value)
    ensures DistinctKeys(Unclaimed(fields, d))
    ensures Lookup(Unclaimed(fields, d), k) == if KeyOwner(fields, k).Some? then None else Lookup(d, k)
    decreases |d|
  {
    if |d| > 0 {
      var m := |d| - 1;
      UnclaimedLookup(fields, d[..m], k);
      if KeyOwner(fields, d[m].0).None? {
        InsertShape(Unclaimed(fields, d[..m]), d[m].0, d[m].1);
        LookupInsert(Unclaimed(fields, d[..m]), d[m].0, d[m].1, k);
      }
    }
  }

  /** The second loop of `DictFieldsOptimized.analyze` fails exactly when
      the field of one of the names fails. */
  lemma {:induction false} AnalyzeNamedOk(fields: seq<Field>, names: seq<Value>, data: Value, acc: Dict<Value, Value>)
    requires forall i :: 0 <= i < |names| ==> NameOwner(fields, names[i]).Some?
    ensures AnalyzeNamed(fields, names, data, acc).Ok? <==>
      forall i :: 0 <= i < |names| ==> AnalyzeWith(fields[NameOwner(fields, names[i]).value], data).Ok?
    decreases |names|
  {
    if |names| > 0 {
      var rest := names[1..];
      assert forall i :: 0 <= i < |rest| ==> rest[i] == names[i + 1];
      match AnalyzeWith(fields[NameOwner(fields, names[0]).value], data)
      case Err(e) =>
      case Ok(v) => AnalyzeNamedOk(fields, rest, data, Insert(acc, names[0], v));
    }
  }

  /** The entries the second loop adds when every field succeeds: one per
      name, in order, holding the result of that name's field. */
  function Entries(fields: seq<Field>, names: seq<Value>, data: Value): (e: Dict<Value, Value>)
    requires forall i :: 0 <= i < |names| ==> NameOwner(fields, names[i]).Some?
    requires forall i :: 0 <= i < |names| ==> AnalyzeWith(fields[NameOwner(fields, names[i]).value], data).Ok?
    ensures |e| == |names|
    decreases |names|
  {
    if |names| == 0 then []
    else [(names[0], AnalyzeWith(fields[NameOwner(fields, names[0]).value], data).value)] + Entries(fields, names[1..], data)
  }

  lemma {:induction false} EntriesAt(fields: seq<Field>, names: seq<Value>, data: Value)
    requires forall i :: 0 <= i < |names| ==> NameOwner(fields, names[i]).Some?
    requires forall i :: 0 <= i < |names| ==> AnalyzeWith(fields[NameOwner(fields, names[i]).value], data).Ok?
    ensures forall i :: 0 <= i < |names| ==>
      Entries(fields, names, data)[i] == (names[i], AnalyzeWith(fields[NameOwner(fields, names[i]).value], data).value)
    decreases |names|
  {
    if |names| > 0 {
      var rest := names[1..];
      assert forall i :: 0 <= i < |rest| ==> rest[i] == names[i + 1];
      EntriesAt(fields, rest, data);
    }
  }

  /** When the second loop succeeds, it appends those entries. */
  lemma {:induction false} AnalyzeNamedShape(fields: seq<Field>, names: seq<Value>, data: Value, acc: Dict<Value, Value>)
    requires forall i :: 0 <= i < |names| ==> NameOwner(fields, names[i]).Some?
    requires Distinct(names)
    requires forall i, j :: 0 <= i < |names| && 0 <= j < |acc| ==> names[i] != acc[j].0
    requires DistinctKeys(acc)
    requires AnalyzeNamed(fields, names, data, acc).Ok?
    ensures forall i :: 0 <= i < |names| ==> AnalyzeWith(fields[NameOwner(fields, names[i]).value], data).Ok?
    ensures AnalyzeNamed(fields, names, data, acc) == Ok(acc + Entries(fields, names, data))
    decreases |names|
  {
    AnalyzeNamedOk(fields, names, data, acc);
    if |names| == 0 {
      assert acc + [] == acc;
    } else {
      var v := AnalyzeWith(fields[NameOwner(fields, names[0]).value], data).value;
      var rest := names[1..];
      var acc' := acc + [(names[0], v)];
      NextAccumulator(names, acc, v);
      AnalyzeNamedShape(fields, rest, data, acc');
      var e := Entries(fields, rest, data);
      assert Entries(fields, names, data) == [(names[0], v)] + e;
      assert acc' + e == acc + ([(names[0], v)] + e);
    }
  }

  /** One step of the second loop keeps its accumulator's keys distinct and
      apart from the names still to come. */
  lemma NextAccumulator(names: seq<Value>, acc: Dict<Value, Value>, v: Value)
    requires |names| > 0 && Distinct(names) && DistinctKeys(acc)
    requires forall i, j :: 0 <= i < |names| && 0 <= j < |acc| ==> names[i] != acc[j].0
    ensures Insert(acc, names[0], v) == acc + [(names[0], v)] && DistinctKeys(acc + [(names[0], v)])
    ensures Distinct(names[1..])
    ensures forall i, j :: 0 <= i < |names[1..]| && 0 <= j < |acc + [(names[0], v)]| ==>
      names[1..][i] != (acc + [(names[0], v)])[j].0
  {
    AppendFresh(acc, names[0], v);
  }

  /** Assigning a key a dict does not hold appends it. */
  lemma AppendFresh(d: Dict<Value, Value>, k: Value, v: Value)
    requires DistinctKeys(d) && forall j :: 0 <= j < |d| ==> d[j].0 != k
    ensures Insert(d, k, v) == d + [(k, v)] && DistinctKeys(d + [(k, v)])
  {
    InsertShape(d, k, v);
  }

  /** Without an `unused` field, `DictFieldsOptimized.analyze` yields one
      entry per used name, in first-claimed order, each holding its field's
      result; unclaimed keys are dropped. */
  lemma OptimizedAnalyzeEntries(fields: seq<Field>, d: Dict<Value, Value>)
    ensures var names := UsedNames(fields, d);
      Analyze(Optimized(fields, None), DictV(d)).Ok? <==>
        forall i :: 0 <= i < |names| ==> AnalyzeWith(fields[NameOwner(fields, names[i]).value], DictV(d)).Ok?
    ensures var names := UsedNames(fields, d);
      var r := Analyze(Optimized(fields, None), DictV(d));
      (r.Ok? ==> r.value.DictV? && |r.value.d| == |names| &&
                 forall i :: 0 <= i < |names| ==>
                   r.value.d[i] == (names[i], AnalyzeWith(fields[NameOwner(fields, names[i]).value], DictV(d)).value))
  {
    var names := UsedNames(fields, d);
    var data := DictV(d);
    UsedNamesDistinct(fields, d);
    AnalyzeNamedOk(fields, names, data, []);
    OptimizedAnalysis(fields, None, d);
    if AnalyzeNamed(fields, names, data, []).Ok? {
      AnalyzeNamedShape(fields, names, data, []);
      var e := Entries(fields, names, data);
      EntriesAt(fields, names, data);
      assert [] + e == e;
    }
  }

  /** The `unused` field runs only when some key is unclaimed. */
  lemma UnusedOnlyIfUnclaimed(fields: seq<Field>, u: Field, d: Dict<Value, Value>)
    requires forall i :: 0 <= i < |d| ==> KeyOwner(fields, d[i].0).Some?
    ensures Analyze(Optimized(fields, Some(u)), DictV(d)) == Analyze(Optimized(fields, None), DictV(d))
  {
    if |Unclaimed(fields, d)| > 0 {
      var k := Unclaimed(fields, d)[0].0;
      UnclaimedLookup(fields, d, k);
      LookupSome(Unclaimed(fields, d), k);
      LookupDomain(d, k);
    }
  }

  lemma {:induction false} LookupDomain(d: Dict<Value, Value>, k: Value)
    requires Lookup(d, k).Some?
    ensures exists p :: 0 <= p < |d| && d[p].0 == k
    decreases |d|
  {
    if d[|d| - 1].0 != k {
      LookupDomain(d[..|d| - 1], k);
      var p :| 0 <= p < |d| - 1 && d[..|d| - 1][p].0 == k;
      assert d[p].0 == k;
    }
  }

  /** `DictFieldsOptimized.compile` computes the `unused` field's output into
      a scratch dict and drops it: when that succeeds, the result is the one
      without an `unused` field. */
  lemma UnusedOutputDropped(fields: seq<Field>, u: Field, value: Value, sink: Option<Dict<Value, Value>>)
    requires FieldCompile(u, value, []).Ok?
    ensures Compile(Optimized(fields, Some(u)), value, sink) == Compile(Optimized(fields, None), value, sink)
    ensures CompileOptimizedAsWritten(fields, Some(u), value, sink) == CompileOptimizedAsWritten(fields, None, value, sink)
  {
  }

  /** For a class with a `__dict__`, `analyze` makes an instance whose
      `__dict__` is the data and `compile` returns that dict: a round trip. */
  lemma ToClassDictRoundTrip(klass: string, d: Dict<Value, Value>, sink: Option<Dict<Value, Value>>)
    ensures Analyze(ToClass(klass, None), DictV(d)) == Ok(ObjV(klass, d))
    ensures Compile(ToClass(klass, None), ObjV(klass, d), sink) == Ok(Out(DictV(d), sink))
  {
  }

  /** `{name: getattr(value, name) for name in __slots__}` holds exactly the
      slots, each with the attribute's value, and raises `AttributeError` when
      one is not set. */
  lemma {:induction false} SlotValuesLookup(slots: seq<Value>, attrs: Dict<Value, Value>)
    ensures SlotValues(slots, attrs).Ok? <==> forall i :: 0 <= i < |slots| ==> Lookup(attrs, slots[i]).Some?
    ensures SlotValues(slots, attrs).Ok? ==>
      DistinctKeys(SlotValues(slots, attrs).value) &&
      forall k :: Lookup(SlotValues(slots, attrs).value, k) == if k in slots then Lookup(attrs, k) else None
    decreases |slots|
  {
    if |slots| > 0 {
      var m := |slots| - 1;
      SlotValuesLookup(slots[..m], attrs);
      if SlotValues(slots, attrs).Ok? {
        var d := SlotValues(slots[..m], attrs).value;
        InsertShape(d, slots[m], Lookup(attrs, slots[m]).value);
        forall k
          ensures Lookup(SlotValues(slots, attrs).value, k) == if k in slots then Lookup(attrs, k) else None
        {
          LookupInsert(d, slots[m], Lookup(attrs, slots[m]).value, k);
          assert k in slots <==> k in slots[..m] || k == slots[m] by {
            assert slots == slots[..m] + [slots[m]];
          }
        }
      }
    }
  }

  /** For a class with `__slots__`, analysing a dict whose keys are slots and
      compiling the instance back gives a dict with the same entries, when
      every slot was set. */
  lemma {:induction false} ToClassSlotsRoundTrip(klass: string, slots: seq<Value>, d: Dict<Value, Value>)
    requires forall i :: 0 <= i < |d| ==> d[i].0 in slots
    requires forall i :: 0 <= i < |slots| ==> Lookup(d, slots[i]).Some?
    ensures Analyze(ToClass(klass, Some(slots)), DictV(d)) == Ok(ObjV(klass, d))
    ensures Compile(ToClass(klass, Some(slots)), ObjV(klass, d), None).Ok?
    ensures forall k :: Lookup(Compile(ToClass(klass, Some(slots)), ObjV(klass, d), None).value.value.d, k) == Lookup(d, k)
  {
    SlotValuesLookup(slots, d);
    var r := SlotValues(slots, d).value;
    var c := Compile(ToClass(klass, Some(slots)), ObjV(klass, d), None);
    assert c == (match SlotValues(slots, d) case Ok(x) => Ok(Out(DictV(x), None)) case Err(e) => Err(e));
    forall k
      ensures Lookup(r, k) == Lookup(d, k)
    {
      if k !in slots && Lookup(d, k).Some? {
        LookupDomain(d, k);
      }
    }
  }

  /** `DictFieldsOptimized.analyze` on a dict, with its loops: the first
      sorts the keys into claimed field names and unclaimed items, the second
      runs each claimed field once. */
  method AnalyzeOptimized(fields: seq<Field>, unused: Option<Field>, d: Dict<Value, Value>) returns (r: Result<Value>)
    ensures r == Analyze(Optimized(fields, unused), DictV(d))
  {
    var used, unusedKeys := SplitKeys(fields, unused.Some?, d);
    var named := AnalyzeNamedLoop(fields, used, DictV(d));
    OptimizedAnalysis(fields, unused, d);
    if named.Err? {
      return Err(named.error);
    }
    var value := named.value;
    if |unusedKeys| > 0 && unused.Some? {
      var stored := FieldAnalyse(unused.value, DictV(unusedKeys), value);
      if stored.Err? {
        return Err(stored.error);
      }
      value := stored.value;
    }
    return Ok(DictV(value));
  }

  /** The first loop of `DictFieldsOptimized.analyze`: the names of the
      fields claiming a key, in first-claimed order, and (when there is an
      `unused` field) the unclaimed items. */
  method SplitKeys(fields: seq<Field>, keepUnused: bool, d: Dict<Value, Value>)
    returns (used: seq<Value>, unusedKeys: Dict<Value, Value>)
    ensures used == UsedNames(fields, d)
    ensures unusedKeys == if keepUnused then Unclaimed(fields, d) else []
  {
    unusedKeys := [];
    used := [];
    var i := 0;
    while i < |d|
      invariant 0 <= i <= |d|
      invariant used == UsedNames(fields, d[..i])
      invariant unusedKeys == if keepUnused then Unclaimed(fields, d[..i]) else []
    {
      assert d[..i + 1][..i] == d[..i];
      var owner := KeyOwner(fields, d[i].0);
      if owner.Some? {
        var name := fields[owner.value].name;
        if name !in used {
          used := used + [name];
        }
      } else if keepUnused {
        unusedKeys := Insert(unusedKeys, d[i].0, d[i].1);
      }
      i := i + 1;
    }
    assert d[..|d|] == d;
  }

  /** The second loop of `DictFieldsOptimized.analyze`: each used name's
      field analyses the whole data, and the first failure stops it. */
  method AnalyzeNamedLoop(fields: seq<Field>, used: seq<Value>, data: Value) returns (r: Result<Dict<Value, Value>>)
    requires forall i :: 0 <= i < |used| ==> NameOwner(fields, used[i]).Some?
    ensures r == AnalyzeNamed(fields, used, data, [])
  {
    var value: Dict<Value, Value> := [];
    var j := 0;
    while j < |used|
      invariant 0 <= j <= |used|
      invariant AnalyzeNamed(fields, used, data, []) == AnalyzeNamed(fields, used[j..], data, value)
    {
      var v := AnalyzeWith(fields[NameOwner(fields, used[j]).value], data);
      if v.Err? {
        return Err(v.error);
      }
      assert used[j..][1..] == used[j + 1..];
      value := Insert(value, used[j], v.value);
      j := j + 1;
    }
    return Ok(value);
  }

  /** `analyze` of `DictFieldsOptimized` on a dict, one step at a time. */
  lemma OptimizedAnalysis(fields: seq<Field>, unused: Option<Field>, d: Dict<Value, Value>)
    ensures var a := AnalyzeNamed(fields, UsedNames(fields, d), DictV(d), []);
      var rest := Unclaimed(fields, d);
      Analyze(Optimized(fields, unused), DictV(d)) ==
        if a.Err? then Err(a.error)
        else if unused.Some? && |rest| > 0 then
          (var stored := FieldAnalyse(unused.value, DictV(rest), a.value);
           if stored.Err? then Err(stored.error) else Ok(DictV(stored.value)))
        else Ok(DictV(a.value))
  {
  }

  /** `DictFieldsOptimized.compile` (with the corrected membership test),
      with its loop over the items of the value. */
  method CompileOptimized(fields: seq<Field>, unused: Option<Field>, value: Value, sink: Option<Dict<Value, Value>>)
    returns (r: Result<Out>)
    ensures r == Compile(Optimized(fields, unused), value, sink)
  {
    var data := sink.GetOr([]);
    if unused.Some? {
      var scratch := FieldCompile(unused.value, value, []);
      if scratch.Err? {
        return Err(scratch.error);
      }
    }
    if !value.DictV? {
      return Err(AttributeError);
    }
    var items := value.d;
    var k := 0;
    while k < |items|
      invariant 0 <= k <= |items|
      invariant CompileNamed(fields, items, sink.GetOr([])) == CompileNamed(fields, items[k..], data)
    {
      assert items[k..][1..] == items[k + 1..];
      var owner := NameOwner(fields, items[k].0);
      if owner.Some? {
        var w := CompileInto(fields[owner.value], items[k].1, data);
        if w.Err? {
          return Err(w.error);
        }
        data := w.value;
      }
      k := k + 1;
    }
    return Ok(Out(DictV(data), if sink.Some? then Some(data) else None));
  }

  /** `DictFields.analyze`: every field adds its result to one dict. */
  method AnalyzeDictFields(fields: seq<Field>, data: Value) returns (r: Result<Value>)
    ensures r == Analyze(DictFields(fields), data)
  {
    var value: Dict<Value, Value> := [];
    var i := 0;
    while i < |fields|
      invariant 0 <= i <= |fields|
      invariant AnalyzeFields(fields, data, []) == AnalyzeFields(fields[i..], data, value)
    {
      assert fields[i..][1..] == fields[i + 1..];
      var stored := FieldAnalyse(fields[i], data, value);
      if stored.Err? {
        return Err(stored.error);
      }
      value := stored.value;
      i := i + 1;
    }
    return Ok(DictV(value));
  }

  /** `DictFields.compile`: every field writes into the sink, a new dict when
      none is given, which is returned. */
  method CompileDictFields(fields: seq<Field>, value: Value, sink: Option<Dict<Value, Value>>) returns (r: Result<Out>)
    ensures r == Compile(DictFields(fields), value, sink)
  {
    var data := sink.GetOr([]);
    var i := 0;
    while i < |fields|
      invariant 0 <= i <= |fields|
      invariant CompileFields(fields, value, sink.GetOr([])) == CompileFields(fields[i..], value, data)
    {
      assert fields[i..][1..] == fields[i + 1..];
      var w := FieldCompile(fields[i], value, data);
      if w.Err? {
        return Err(w.error);
      }
      data := w.value;
      i := i + 1;
    }
    return Ok(Out(DictV(data), if sink.Some? then Some(data) else None));
  }

  /** `Sequence.analyze`: the loop over the serializers, front to back. */
  method AnalyzeSequence(items: seq<Serializer>, data: Value) returns (r: Result<Value>)
    ensures r == Analyze(Sequence(items), data)
  {
    var v := data;
    var i := 0;
    while i < |items|
      invariant 0 <= i <= |items|
      invariant AnalyzeSeq(items, data) == AnalyzeSeq(items[i..], v)
    {
      assert items[i..][1..] == items[i + 1..];
      var step := Analyze(items[i], v);
      if step.Err? {
        return Err(step.error);
      }
      v := step.value;
      i := i + 1;
    }
    return Ok(v);
  }

  /** `Sequence.compile`: the loop over the serializers, back to front, all
      given the same sink. */
  method CompileSequence(items: seq<Serializer>, value: Value, sink: Option<Dict<Value, Value>>) returns (r: Result<Out>)
    ensures r == Compile(Sequence(items), value, sink)
  {
    var o := Out(value, sink);
    var i := |items|;
    assert items[..i] == items;
    while i > 0
      invariant 0 <= i <= |items|
      invariant CompileSeq(items, value, sink) == CompileSeq(items[..i], o.value, o.sink)
    {
      assert items[..i][..i - 1] == items[..i - 1];
      var step := Compile(items[i - 1], o.value, o.sink);
      if step.Err? {
        return Err(step.error);
      }
      o := step.value;
      i := i - 1;
    }
    return Ok(o);
  }
}
