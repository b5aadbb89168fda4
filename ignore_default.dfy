/** ignore_default.py: attributes whose default is not stored on the
    instance. A class keeps a table of `DefaultField`s; reading an attribute
    the instance does not hold falls back to that table, and assigning
    `Missed` removes the attribute again. A mutable default is produced by a
    factory and stored on the instance only when the active `SafeGet` flag is
    false. */
module IgnoreDefaults {
  import opened Wrappers
  import Values

  /** An option that may be left out; `Missed` is the sentinel for "not
      given". */
  datatype Setting<T> = Missed | Given(value: T)

  /** A default factory: an opaque callable, known by its identity. */
  datatype Factory = Factory(id: nat)

  /** An attribute value: a plain value, or what a factory returned (called
      with the instance or without arguments). */
  datatype Attr = Plain(v: Values.Value) | Made(factory: Factory, withSelf: bool)

  datatype DefaultField = DefaultField(
    name: string,
    default: Setting<Values.Value>,
    factory: Setting<Factory>,
    takesSelf: Setting<bool>,
    mutable: bool)

  /** `DefaultField.__attrs_post_init__`: a field cannot have both a default
      and a factory, a default cannot be mutable, and `takes_self` applies
      only to a factory; each is a `TypeError`. */
  function Validate(f: DefaultField): (r: Outcome)
    ensures r == Pass <==>
      (f.default.Missed? || (f.factory.Missed? && !f.mutable)) && (f.takesSelf.Missed? || f.factory.Given?)
    ensures r.Fail? ==> r.error == TypeError
  {
    if f.default.Given? && f.factory.Given? then Fail(TypeError)
    else if f.default.Given? && f.mutable then Fail(TypeError)
    else if f.takesSelf.Given? && f.factory.Missed? then Fail(TypeError)
    else Pass
  }

  /** `self.factory(instance) if self.takes_self else self.factory()` as
      written: `takes_self` left `Missed` is the `Missed` object, which is
      truthy, so the factory is called with the instance. */
  function CallsWithSelfAsWritten(t: Setting<bool>): bool {
    match t
    case Missed => true
    case Given(b) => b
  }

  /** The corrected test: a factory is called with the instance only when
      `takes_self` was given as true. */
  function CallsWithSelf(t: Setting<bool>): bool {
    t == Given(true)
  }

  /** `DefaultField.get` as written, value part: the default, else the
      factory's result, else a `TypeError`; a mutable field needs a
      factory. */
  function ProduceAsWritten(f: DefaultField): Result<Attr> {
    if !f.mutable && f.default.Given? then Ok(Plain(f.default.value))
    else if f.factory.Given? then Ok(Made(f.factory.value, CallsWithSelfAsWritten(f.takesSelf)))
    else Err(TypeError)
  }

  /** The value part of `DefaultField.get`, with the corrected `takes_self`
      test. */
  function Produce(f: DefaultField): (r: Result<Attr>)
    ensures r.Err? ==> r.error == TypeError
    ensures r.Ok? && r.value.Made? ==> f.factory == Given(r.value.factory)
  {
    if !f.mutable && f.default.Given? then Ok(Plain(f.default.value))
    else if f.factory.Given? then Ok(Made(f.factory.value, CallsWithSelf(f.takesSelf)))
    else Err(TypeError)
  }

  /** For a field that passed validation, a read succeeds exactly when a
      default or a factory was given; it returns the default when there is
      one, and it calls the factory with the instance exactly when
      `takes_self` is true. */
  lemma ProduceValid(f: DefaultField)
    requires Validate(f) == Pass
    ensures Produce(f).Ok? <==> f.default.Given? || f.factory.Given?
    ensures f.default.Given? ==> Produce(f) == Ok(Plain(f.default.value))
    ensures f.factory.Given? ==> Produce(f) == Ok(Made(f.factory.value, f.takesSelf == Given(true)))
  {
  }

  /** A field that gives `takes_self` agrees with the source; a
      `DefaultField(factory=f)` that leaves it out passes validation, yet as
      written `f` is called with the instance. */
  lemma TakesSelfMissed(fac: Factory, b: bool)
    ensures var f := DefaultField("x", Missed, Given(fac), Missed, false);
      Validate(f) == Pass &&
      ProduceAsWritten(f) == Ok(Made(fac, true)) && Produce(f) == Ok(Made(fac, false))
    ensures CallsWithSelfAsWritten(Given(b)) == CallsWithSelf(Given(b))
  {
  }

  /** `SafeGetClass`: a context flag. */
  datatype SafeGetFlag = SafeGetFlag(value: bool) {
    /** `Not`, and `~` which returns it: a flag of the opposite value. */
    function Not(): (r: SafeGetFlag)
      ensures r.value != value
    {
      SafeGetFlag(!value)
    }
  }

  /** Negating twice gives the flag back. */
  lemma NotNot(g: SafeGetFlag)
    ensures g.Not().Not() == g && g.Not() != g
  {
  }

  /** An instance: the attributes it holds, and its class's table of
      default fields. */
  class Instance {
    var dict: map<string, Attr>
    const fields: map<string, DefaultField>

    constructor(fields: map<string, DefaultField>)
      ensures dict == map[] && this.fields == fields
    {
      dict := map[];
      this.fields := fields;
    }

    /** `DefaultField.get(instance)`. `safe` is `SafeGet.C()`: the value of
        the innermost active `SafeGet` flag, `None` when no flag is active,
        in which case `C()` raises `RuntimeError` once the factory has run. A
        mutable field's value is stored on the instance only under a false
        flag. */
    method Get(f: DefaultField, safe: Option<bool>) returns (r: Result<Attr>)
      modifies this
      ensures r == if f.mutable && Produce(f).Ok? && safe.None? then Err(RuntimeError) else Produce(f)
      ensures dict == if f.mutable && r.Ok? && safe == Some(false) then old(dict)[f.name := r.value] else old(dict)
    {
      if !f.mutable {
        if f.default.Given? {
          return Ok(Plain(f.default.value));
        }
        if f.factory.Given? {
          return Ok(Made(f.factory.value, CallsWithSelf(f.takesSelf)));
        }
        return Err(TypeError);
      }
      if f.factory.Missed? {
        return Err(TypeError);
      }
      var value := Made(f.factory.value, CallsWithSelf(f.takesSelf));
      if safe.None? {
        return Err(RuntimeError);
      }
      if !safe.value {
        dict := dict[f.name := value];
      }
      return Ok(value);
    }

    /** `_getattr`: the instance's own attribute first, then the class's
        default field, else `AttributeError`. */
    method GetAttr(name: string, safe: Option<bool>) returns (r: Result<Attr>)
      modifies this
      ensures name in old(dict) ==> r == Ok(old(dict)[name]) && dict == old(dict)
      ensures name !in old(dict) && name !in fields ==> r == Err(AttributeError) && dict == old(dict)
      ensures name !in old(dict) && name in fields ==>
        var f := fields[name];
        r == (if f.mutable && Produce(f).Ok? && safe.None? then Err(RuntimeError) else Produce(f)) &&
        dict == (if f.mutable && r.Ok? && safe == Some(false) then old(dict)[f.name := r.value] else old(dict))
    {
      if name in dict {
        return Ok(dict[name]);
      }
      if name in fields {
        r := Get(fields[name], safe);
        return;
      }
      return Err(AttributeError);
    }

    /** `_setattr`: assigning `Missed` removes the attribute (absent is
        fine); any other value is stored. */
    method SetAttr(name: string, value: Setting<Attr>)
      modifies this
      ensures dict == if value.Missed? then old(dict) - {name} else old(dict)[name := value.value]
    {
      if value.Missed? {
        dict := dict - {name};
      } else {
        dict := dict[name := value.value];
      }
    }

    /** The attrs-generated `__init__` assigning one field: an omitted
        argument takes the generated default, which is `Missed` for a field
        with a default entry, so the field stays absent and later reads go
        to the default field. */
    method InitField(name: string, arg: Setting<Attr>, default: Attr)
      modifies this
      ensures arg.Given? ==> dict == old(dict)[name := arg.value]
      ensures arg.Missed? && name in fields ==> dict == old(dict) - {name}
      ensures arg.Missed? && name !in fields ==> dict == old(dict)[name := default]
    {
      var value := if arg.Given? then arg else InitDefault(fields, name, default);
      SetAttr(name, value);
    }
  }

  /** `map_default`'s replacement for an attrs default: `Missed` for the
      fields that have a default entry. */
  function InitDefault(fields: map<string, DefaultField>, name: string, default: Attr): (r: Setting<Attr>)
    ensures r.Missed? <==> name in fields
    ensures r.Given? ==> r.value == default
  {
    if name in fields then Missed else Given(default)
  }

  /** `SafeGet[obj].name`: the flag is entered around the read, so it is
      the active one. */
  method SafeGetAttr(flag: SafeGetFlag, inst: Instance, name: string) returns (r: Result<Attr>)
    modifies inst
    ensures name in old(inst.dict) ==> r == Ok(old(inst.dict)[name]) && inst.dict == old(inst.dict)
    ensures name !in old(inst.dict) && name !in inst.fields ==> r == Err(AttributeError) && inst.dict == old(inst.dict)
    ensures name !in old(inst.dict) && name in inst.fields ==>
      var f := inst.fields[name];
      r == Produce(f) &&
      inst.dict == if f.mutable && !flag.value && r.Ok? then old(inst.dict)[f.name := r.value] else old(inst.dict)
  {
    r := inst.GetAttr(name, Some(flag.value));
  }

  /** The behaviour shown at the bottom of ignore_default.py: `bar` has a
      `list` factory; under `SafeGet` the read leaves the instance empty,
      under `~SafeGet` the produced list is stored. */
  method SafeGetDemo() returns (first: Result<Attr>, second: Result<Attr>,
                                 before: map<string, Attr>, after: map<string, Attr>)
    ensures first == second == Ok(Made(Factory(0), false))
    ensures before == map[] && after == map["bar" := Made(Factory(0), false)]
  {
    var bar := DefaultField("bar", Missed, Given(Factory(0)), Given(false), true);
    var foo := new Instance(map["bar" := bar]);
    first := SafeGetAttr(SafeGetFlag(true), foo, "bar");
    before := foo.dict;
    second := SafeGetAttr(SafeGetFlag(true).Not(), foo, "bar");
    after := foo.dict;
  }

  // ---- the default-field table of a class ----

  /** An attrs attribute's default: none, a value, or a `Factory`. */
  datatype AttrsDefault = NoDefault | ValueDefault(v: Values.Value) | FactoryDefault(factory: Factory, takesSelf: bool)

  datatype AttrsAttribute = AttrsAttribute(name: string, default: AttrsDefault)

  /** The `DefaultField` made for an attrs attribute with a default: a
      value becomes `default`, a `Factory` becomes a mutable factory field
      keeping its `takes_self`. */
  function FromAttribute(a: AttrsAttribute): (f: DefaultField)
    requires !a.default.NoDefault?
    ensures f.name == a.name && Validate(f) == Pass
    ensures f.mutable <==> a.default.FactoryDefault?
  {
    match a.default
    case ValueDefault(v) => DefaultField(a.name, Given(v), Missed, Missed, false)
    case FactoryDefault(fac, t) => DefaultField(a.name, Missed, Given(fac), Given(t), true)
  }

  /** The field for `n` from the bases: the first base, in `__bases__`
      order, that has one. */
  function FirstBase(bases: seq<map<string, DefaultField>>, n: string): Option<DefaultField> {
    if |bases| == 0 then None
    else if n in bases[0] then Some(bases[0][n])
    else FirstBase(bases[1..], n)
  }

  /** The last attribute named `n` that has a default. */
  function LastAttr(attributes: seq<AttrsAttribute>, n: string): (r: Option<AttrsAttribute>)
    ensures r.Some? ==> r.value.name == n && !r.value.default.NoDefault?
  {
    if |attributes| == 0 then None
    else
      var a := attributes[|attributes| - 1];
      if a.name == n && !a.default.NoDefault? then Some(a) else LastAttr(attributes[..|attributes| - 1], n)
  }

  /** The last explicit `__default_fields__` entry for `n`. */
  function LastExplicit(explicit: seq<(string, DefaultField)>, n: string): Option<DefaultField> {
    if |explicit| == 0 then None
    else if explicit[|explicit| - 1].0 == n then Some(explicit[|explicit| - 1].1)
    else LastExplicit(explicit[..|explicit| - 1], n)
  }

  /** The field the bases and the attrs attributes give `n`. */
  function FromAttrs(bases: seq<map<string, DefaultField>>, attributes: seq<AttrsAttribute>, n: string)
    : Option<DefaultField>
  {
    match LastAttr(attributes, n)
    case Some(a) => Some(FromAttribute(a))
    case None => FirstBase(bases, n)
  }

  /** The field `__init_default_fields__` ends with for `n`: an explicit
      entry (renamed to `n`) wins over the attrs attributes, which win over
      the bases, among which the first listed wins. */
  function Winner(bases: seq<map<string, DefaultField>>, attributes: seq<AttrsAttribute>,
                  explicit: seq<(string, DefaultField)>, n: string): Option<DefaultField>
  {
    match LastExplicit(explicit, n)
    case Some(f) => Some(f.(name := n))
    case None => FromAttrs(bases, attributes, n)
  }

  /** `fields` holds exactly the field `o` for `n`. */
  predicate Holds(fields: map<string, DefaultField>, n: string, o: Option<DefaultField>) {
    (n in fields <==> o.Some?) && (n in fields ==> fields[n] == o.value)
  }

  /** `__init_default_fields__`: the bases' tables in reverse order, then the
      attrs attributes with a default, then the explicit entries. */
  method MergeDefaultFields(bases: seq<map<string, DefaultField>>, attributes: seq<AttrsAttribute>,
                            explicit: seq<(string, DefaultField)>)
    returns (fields: map<string, DefaultField>)
    ensures forall n :: Holds(fields, n, Winner(bases, attributes, explicit, n))
  {
    fields := map[];
    var i := |bases|;
    while i > 0
      invariant 0 <= i <= |bases|
      invariant forall n :: Holds(fields, n, FirstBase(bases[i..], n))
    {
      i := i - 1;
      assert bases[i..][1..] == bases[i + 1..];
      fields := fields + bases[i];
    }
    assert bases[0..] == bases;
    var j := 0;
    while j < |attributes|
      invariant 0 <= j <= |attributes|
      invariant forall n :: Holds(fields, n, FromAttrs(bases, attributes[..j], n))
    {
      var a := attributes[j];
      assert attributes[..j + 1][..j] == attributes[..j];
      ghost var before := fields;
      if !a.default.NoDefault? {
        fields := fields[a.name := FromAttribute(a)];
      }
      forall n {:trigger FromAttrs(bases, attributes[..j + 1], n)}
        ensures Holds(fields, n, FromAttrs(bases, attributes[..j + 1], n))
      {
        assert Holds(before, n, FromAttrs(bases, attributes[..j], n));
      }
      j := j + 1;
    }
    assert attributes[..j] == attributes;
    var k := 0;
    while k < |explicit|
      invariant 0 <= k <= |explicit|
      invariant forall n :: Holds(fields, n, Winner(bases, attributes, explicit[..k], n))
    {
      var (name, f) := explicit[k];
      assert explicit[..k + 1][..k] == explicit[..k];
      ghost var before := fields;
      fields := fields[name := f.(name := name)];
      forall n {:trigger Winner(bases, attributes, explicit[..k + 1], n)}
        ensures Holds(fields, n, Winner(bases, attributes, explicit[..k + 1], n))
      {
        assert Holds(before, n, Winner(bases, attributes, explicit[..k], n));
      }
      k := k + 1;
    }
    assert explicit[..k] == explicit;
  }

  /** The order is visible: an explicit entry beats an attrs default for the
      same name, and an earlier base beats a later one. */
  lemma MergeOrder(base1: DefaultField, base2: DefaultField, attr: AttrsAttribute, own: DefaultField)
    requires attr.name == "x" && !attr.default.NoDefault?
    ensures Winner([map["y" := base1], map["y" := base2]], [attr], [("x", own)], "x") == Some(own.(name := "x"))
    ensures Winner([map["y" := base1], map["y" := base2]], [attr], [], "x") == Some(FromAttribute(attr))
    ensures Winner([map["y" := base1], map["y" := base2]], [attr], [], "y") == Some(base1)
  {
    assert [attr][..0] == [];
    assert "x" != "y" by { assert "x"[0] != "y"[0]; }
    assert LastAttr([attr], "y") == None;
    var bases := [map["y" := base1], map["y" := base2]];
    assert FirstBase(bases, "y") == Some(base1);
  }
}
