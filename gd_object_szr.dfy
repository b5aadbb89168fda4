/** classes/gd_object_szr.py: the object serializer. A game object is a
    record `k1,v1,k2,v2,...`; the recognizer table reads the object id (key
    `'1'`) and, for Move and Rotate triggers, two mode flags, and names the
    class whose serializer decodes the record. `InheritableFields.make`
    registers one serializer per class, folding those of its bases. */
module GdObjectSzr {
  import opened Wrappers
  import opened Funcs
  import opened Text
  import opened Values
  import opened Recognizing
  import Serializing

  // ---- InheritableFields ----

  /** A `WrapKeys` or `MultiField` value as the terms it is built from: the
      empty one, `a.combine(b)`, and one passed in by the caller. What
      `combine` does is not part of this model. */
  datatype Part = Blank | Combine(left: Part, right: Part) | Fragment(tag: string)

  /** The serializer `make` builds: `keys >> fields`, followed by
      `ToClass(klass)` when `to_klass` is set. */
  datatype Schema = Schema(keys: Part, fields: Part, toClass: Option<string>)

  /** `InheritableInfo`. */
  datatype Info = Info(klass: string, keys: Part, fields: Part, serializer: Schema)

  /** An entry of the `bases` argument: a class or `...`. */
  datatype BaseArg = BaseClass(name: string) | BaseEllipsis

  /** `mro[:0:-1]`: the MRO reversed, without the class itself. */
  function ReversedBases(mro: seq<string>): (r: seq<string>)
    ensures |mro| == 0 ==> |r| == 0
    ensures |mro| > 0 ==> |r| == |mro| - 1
    ensures forall i :: 0 <= i < |r| ==> r[i] == mro[|mro| - 1 - i]
    decreases |mro|
  {
    if |mro| <= 1 then [] else [mro[|mro| - 1]] + ReversedBases(mro[..|mro| - 1])
  }

  /** The classes among the `bases` entries, in order. */
  function ClassesOf(bases: seq<BaseArg>): (r: seq<string>)
    ensures |r| <= |bases|
    ensures forall x :: x in r <==> BaseClass(x) in bases
    decreases |bases|
  {
    if |bases| == 0 then []
    else
      var rest := ClassesOf(bases[1..]);
      assert forall a :: a in bases <==> a == bases[0] || a in bases[1..];
      if bases[0].BaseClass? then [bases[0].name] + rest else rest
  }

  /** The bases `make` folds, in order: the reversed MRO by default, the
      reversed MRO followed by the given classes when `...` is among them,
      else the given classes. */
  function BaseOrder(mro: seq<string>, bases: Option<seq<BaseArg>>): seq<string> {
    match bases
    case None => ReversedBases(mro)
    case Some(bs) => if BaseEllipsis in bs then ReversedBases(mro) + ClassesOf(bs) else ClassesOf(bs)
  }

  /** The keys and fields folded from `bases`, left to right, skipping the
      bases that are not registered. */
  function Folded(infos: map<string, Info>, bases: seq<string>): (Part, Part)
    decreases |bases|
  {
    if |bases| == 0 then (Blank, Blank)
    else
      var acc := Folded(infos, bases[..|bases| - 1]);
      var b := bases[|bases| - 1];
      if b in infos then (Combine(acc.0, infos[b].keys), Combine(acc.1, infos[b].fields)) else acc
  }

  /** The registered bases, in order. */
  function Registered(infos: map<string, Info>, bases: seq<string>): (r: seq<string>)
    ensures forall i :: 0 <= i < |r| ==> r[i] in infos
    ensures forall b :: b in r <==> b in bases && b in infos
    decreases |bases|
  {
    if |bases| == 0 then []
    else
      var rest := Registered(infos, bases[..|bases| - 1]);
      var b := bases[|bases| - 1];
      assert forall x :: x in bases <==> x in bases[..|bases| - 1] || x == b;
      if b in infos then rest + [b] else rest
  }

  /** Combining every base of a list of registered classes, in order. */
  function CombineAll(infos: map<string, Info>, classes: seq<string>): (Part, Part)
    requires forall i :: 0 <= i < |classes| ==> classes[i] in infos
    decreases |classes|
  {
    if |classes| == 0 then (Blank, Blank)
    else
      var acc := CombineAll(infos, classes[..|classes| - 1]);
      var info := infos[classes[|classes| - 1]];
      (Combine(acc.0, info.keys), Combine(acc.1, info.fields))
  }

  /** `make` folds exactly the registered bases, in their order. */
  lemma {:induction false} FoldedRegistered(infos: map<string, Info>, bases: seq<string>)
    ensures Folded(infos, bases) == CombineAll(infos, Registered(infos, bases))
    decreases |bases|
  {
    if |bases| > 0 {
      var front := bases[..|bases| - 1];
      FoldedRegistered(infos, front);
      var b := bases[|bases| - 1];
      if b in infos {
        assert (Registered(infos, front) + [b])[..|Registered(infos, front)|] == Registered(infos, front);
      }
    }
  }

  /** `x`, combined with the optional argument when it is given. */
  function With(x: Part, arg: Option<Part>): Part {
    match arg
    case None => x
    case Some(p) => Combine(x, p)
  }

  /** The serializer `make` builds for `klass` against the registered infos. */
  function Built(infos: map<string, Info>, klass: string, mro: seq<string>, keys: Option<Part>,
                 fields: Option<Part>, toKlass: bool, bases: Option<seq<BaseArg>>): Schema
  {
    var folded := Folded(infos, BaseOrder(mro, bases));
    Schema(With(folded.0, keys), With(folded.1, fields), if toKlass then Some(klass) else None)
  }

  /** `InheritableFields`: the registered infos and the serializer table,
      which is shared with `GdObjectSerialzier.serializers`. */
  class InheritableFields {
    var infos: map<string, Info>
    var serializers: map<string, Schema>

    /** Every info is filed under its own class, and the serializer table
        holds the same serializer for it. */
    predicate Valid()
      reads this
    {
      forall k :: k in infos ==> infos[k].klass == k && k in serializers && serializers[k] == infos[k].serializer
    }

    /** `InheritableFields(serializers)`: no infos, and the given table or an
        empty one. */
    constructor(table: Option<map<string, Schema>>)
      ensures Valid()
      ensures infos == map[] && serializers == table.GetOr(map[])
    {
      infos := map[];
      serializers := table.GetOr(map[]);
    }

    /** `make`: fold the registered bases, add the given keys and fields,
        then refuse a class registered before with `KeyError`, or file the
        serializer in both tables. */
    method Make(klass: string, mro: seq<string>, keys: Option<Part>, fields: Option<Part>,
                toKlass: bool, bases: Option<seq<BaseArg>>) returns (r: Result<Schema>)
      requires Valid()
      modifies this
      ensures Valid()
      ensures klass in old(infos) ==>
        r == Err(KeyError) && infos == old(infos) && serializers == old(serializers)
      ensures klass !in old(infos) ==>
        var s := Built(old(infos), klass, mro, keys, fields, toKlass, bases);
        r == Ok(s) &&
        infos == old(infos)[klass := Info(klass, s.keys, s.fields, s)] &&
        serializers == old(serializers)[klass := s]
    {
      var order := BaseOrder(mro, bases);
      var newKeys, newFields := Blank, Blank;
      var i := 0;
      while i < |order|
        invariant 0 <= i <= |order|
        invariant (newKeys, newFields) == Folded(infos, order[..i])
      {
        assert order[..i + 1][..i] == order[..i];
        var base := order[i];
        if base in infos {
          var info := infos[base];
          newKeys := Combine(newKeys, info.keys);
          newFields := Combine(newFields, info.fields);
        }
        i := i + 1;
      }
      assert order[..i] == order;
      newKeys := With(newKeys, keys);
      newFields := With(newFields, fields);
      var s := Schema(newKeys, newFields, if toKlass then Some(klass) else None);
      if klass in infos {
        return Err(KeyError);
      }
      infos := infos[klass := Info(klass, newKeys, newFields, s)];
      serializers := serializers[klass := s];
      return Ok(s);
    }
  }

  // ---- the recognizer table ----

  /** The ids of `Move` and `Rotate` (data/special_ids.py). */
  const MoveId := 901
  const RotateId := 1346

  /** `R.Key(key, bool, False)`. */
  function Flag(key: string): Recognizer {
    Key(StrV(key), Some(ToBool), Some(BoolV(false)))
  }

  function FlagPair(a: bool, b: bool): Value {
    TupleV([BoolV(a), BoolV(b)])
  }

  /** The inner map of the Move or Rotate entry: the flags `'100'` and
      `'394'` select one of three classes; it has no `...` entry. */
  function ModeMap(ff: string, tf: string, ft: string): Recognizer {
    Map(Tuple([Flag("100"), Flag("394")]), ModeEntries(ff, tf, ft))
  }

  /** `SpecialId.__all_classes__` as mapping entries. */
  function ClassEntries(classes: seq<(int, string)>): (r: seq<(Value, Target)>)
    ensures |r| == |classes|
    ensures forall i :: 0 <= i < |classes| ==> r[i] == (IntV(classes[i].0), Plain(ClassV(classes[i].1)))
  {
    seq(|classes|, i requires 0 <= i < |classes| => (IntV(classes[i].0), Plain(ClassV(classes[i].1))))
  }

  /** The recognizer `GdObjectSerialzier` is built with: the id under `'1'`
      (0 when absent) looked up in the class table, updated with the `...`
      fallback and the Move and Rotate entries. `classes` is
      `SpecialId.__all_classes__`, which is filled outside this model. */
  function ObjectRecognizer(classes: seq<(int, string)>): Recognizer {
    Map(Key(StrV("1"), Some(ToInt), Some(IntV(0))), ObjectMapping(classes))
  }

  /** The mapping of the table: `__all_classes__ | {...: GdObjectAnyId,
      Move: ..., Rotate: ...}`; the right operand's entries come last, so
      they win. */
  function ObjectMapping(classes: seq<(int, string)>): seq<(Value, Target)> {
    ClassEntries(classes) +
    [(EllipsisV, Plain(ClassV("GdObjectAnyId"))),
     (IntV(MoveId), Then(ModeMap("MoveBy", "MoveTo", "MoveAt"))),
     (IntV(RotateId), Then(ModeMap("RotateBy", "RotateAim", "RotateAs")))]
  }

  /** The flag a record holds under `key`: Python's `bool` of the raw value,
      so any non-empty string (including `'0'`) is set; False when absent. */
  function FlagOf(d: Dict<Value, Value>, key: string): bool {
    match Lookup(d, StrV(key))
    case None => false
    case Some(v) => Truthy(v)
  }

  /** Which of the three classes the flags select; both flags set is a
      `KeyError`. */
  function ModeOf(d: Dict<Value, Value>, ff: string, tf: string, ft: string): Result<Value> {
    var target := FlagOf(d, "100");
    var direction := FlagOf(d, "394");
    if !target && !direction then Ok(ClassV(ff))
    else if target && !direction then Ok(ClassV(tf))
    else if !target && direction then Ok(ClassV(ft))
    else Err(KeyError)
  }

  /** The class the table names for object id `id`: the mode map for Move
      and Rotate, else the last table entry for the id, else
      `GdObjectAnyId`. */
  function ClassFor(classes: seq<(int, string)>, id: int, d: Dict<Value, Value>): Result<Value> {
    if id == MoveId then ModeOf(d, "MoveBy", "MoveTo", "MoveAt")
    else if id == RotateId then ModeOf(d, "RotateBy", "RotateAim", "RotateAs")
    else match LastIndex(ClassEntries(classes), IntV(id))
      case Some(j) => Ok(ClassV(classes[j].1))
      case None => Ok(ClassV("GdObjectAnyId"))
  }

  /** The object id of a record: `int` of the value under `'1'`, 0 when
      there is none. */
  function RecordId(d: Dict<Value, Value>): Result<int> {
    match Lookup(d, StrV("1"))
    case None => Ok(0)
    case Some(raw) => (match ToInt(raw) case Err(e) => Err(e) case Ok(n) => Ok(n.i))
  }

  /** The last match in `a + b` is `b`'s if it has one, else `a`'s. */
  lemma {:induction false} LastIndexAppend<V>(a: seq<(Value, V)>, b: seq<(Value, V)>, k: Value)
    ensures LastIndex(a + b, k) ==
      match LastIndex(b, k) case Some(j) => Some(|a| + j) case None => LastIndex(a, k)
    decreases |b|
  {
    if |b| == 0 {
      assert a + b == a;
    } else {
      assert (a + b)[..|a + b| - 1] == a + b[..|b| - 1];
      LastIndexAppend(a, b[..|b| - 1], k);
    }
  }

  /** A flag recognizer reads `FlagOf`. */
  lemma FlagRead(d: Dict<Value, Value>, key: string)
    ensures Apply(Flag(key), DictV(d)) == Ok(BoolV(FlagOf(d, key)))
  {
  }

  /** The two flags, read as a pair. */
  lemma TupleFlags(d: Dict<Value, Value>)
    ensures Apply(Tuple([Flag("100"), Flag("394")]), DictV(d)) == Ok(FlagPair(FlagOf(d, "100"), FlagOf(d, "394")))
  {
    var parts := [Flag("100"), Flag("394")];
    FlagRead(d, "100");
    FlagRead(d, "394");
    TupleAt(parts, DictV(d));
    var vs := ApplyAll(parts, DictV(d)).value;
    assert vs == [BoolV(FlagOf(d, "100")), BoolV(FlagOf(d, "394"))];
  }

  /** The entries of the inner Move/Rotate map. */
  function ModeEntries(ff: string, tf: string, ft: string): seq<(Value, Target)> {
    [(FlagPair(false, false), Plain(ClassV(ff))),
     (FlagPair(true, false), Plain(ClassV(tf))),
     (FlagPair(false, true), Plain(ClassV(ft)))]
  }

  /** The entry the inner map picks for a flag pair; there is none for both
      flags, and no `...` entry to fall back on. */
  lemma ModeConvert(t: bool, m: bool, ff: string, tf: string, ft: string)
    ensures Convert(ModeEntries(ff, tf, ft), FlagPair(t, m)) ==
      if !t && !m then Ok(0) else if t && !m then Ok(1) else if !t && m then Ok(2) else Err(KeyError)
  {
    var entries := ModeEntries(ff, tf, ft);
    assert Hashable(FlagPair(t, m));
    assert entries[..2] == [entries[0], entries[1]] && entries[..2][..1] == [entries[0]];
    assert LastIndex(entries, EllipsisV).None?;
  }

  /** The inner Move/Rotate map selects by the two flags. */
  lemma ModeMapDispatch(d: Dict<Value, Value>, ff: string, tf: string, ft: string)
    ensures Apply(ModeMap(ff, tf, ft), DictV(d)) == ModeOf(d, ff, tf, ft)
  {
    TupleFlags(d);
    ModeConvert(FlagOf(d, "100"), FlagOf(d, "394"), ff, tf, ft);
  }

  /** The id the table is keyed by, read under `'1'`. */
  lemma HeadId(d: Dict<Value, Value>)
    ensures Apply(Key(StrV("1"), Some(ToInt), Some(IntV(0))), DictV(d)) ==
      match RecordId(d) case Err(e) => Err(e) case Ok(id) => Ok(IntV(id))
  {
  }

  /** The position of the entry the table picks for object id `id`. */
  function TableIndex(classes: seq<(int, string)>, id: int): nat {
    if id == MoveId then |classes| + 1
    else if id == RotateId then |classes| + 2
    else match LastIndex(ClassEntries(classes), IntV(id))
      case Some(j) => j
      case None => |classes|
  }

  /** The table picks the Move or Rotate entry for their ids, else the last
      class entry for the id, else the `...` entry. */
  lemma TableEntry(classes: seq<(int, string)>, id: int)
    ensures Convert(ObjectMapping(classes), IntV(id)) == Ok(TableIndex(classes, id))
  {
    var tail := [(EllipsisV, Plain(ClassV("GdObjectAnyId"))),
      (IntV(MoveId), Then(ModeMap("MoveBy", "MoveTo", "MoveAt"))),
      (IntV(RotateId), Then(ModeMap("RotateBy", "RotateAim", "RotateAs")))];
    assert ObjectMapping(classes) == ClassEntries(classes) + tail;
    LastIndexAppend(ClassEntries(classes), tail, IntV(id));
    if id != MoveId && id != RotateId {
      assert LastIndex(tail, IntV(id)).None?;
      if LastIndex(ClassEntries(classes), IntV(id)).None? {
        LastIndexAppend(ClassEntries(classes), tail, EllipsisV);
        assert LastIndex(ClassEntries(classes), EllipsisV).None?;
        assert tail[..2][..1] == tail[..1] && LastIndex(tail[..1], EllipsisV) == Some(0);
        assert LastIndex(tail, EllipsisV) == Some(0);
      }
    }
  }

  /** The recognizer table, against its reference `ClassFor`: the id is
      `int` of the value under `'1'` (0 when absent, a conversion error
      propagates), and the class is the one `ClassFor` names. */
  lemma RecognizeObject(classes: seq<(int, string)>, d: Dict<Value, Value>)
    ensures Apply(ObjectRecognizer(classes), DictV(d)) ==
      match RecordId(d) case Err(e) => Err(e) case Ok(id) => ClassFor(classes, id, d)
  {
    HeadId(d);
    if RecordId(d).Ok? {
      var id := RecordId(d).value;
      TableEntry(classes, id);
      if id == MoveId {
        ModeMapDispatch(d, "MoveBy", "MoveTo", "MoveAt");
      } else if id == RotateId {
        ModeMapDispatch(d, "RotateBy", "RotateAim", "RotateAs");
      }
    }
  }

  /** A record without `'1'` is recognized as object id 0, and an id the
      table does not know (and that is neither Move nor Rotate) as
      `GdObjectAnyId`. */
  lemma RecognizeDefaults(classes: seq<(int, string)>, d: Dict<Value, Value>, id: int)
    requires forall j :: 0 <= j < |classes| ==> classes[j].0 != id
    requires id != MoveId && id != RotateId
    ensures Lookup(d, StrV("1")).None? ==>
      Apply(ObjectRecognizer(classes), DictV(d)) == ClassFor(classes, 0, d)
    ensures Lookup(d, StrV("1")) == Some(StrV(IntToStr(id))) ==>
      Apply(ObjectRecognizer(classes), DictV(d)) == Ok(ClassV("GdObjectAnyId"))
  {
    if Lookup(d, StrV("1")).None? {
      assert RecordId(d) == Ok(0);
      RecognizeObject(classes, d);
    } else if Lookup(d, StrV("1")) == Some(StrV(IntToStr(id))) {
      RecognizeWithId(classes, d, id);
      assert LastIndex(ClassEntries(classes), IntV(id)).None?;
    }
  }

  /** Move records: no flag is MoveBy, `'100'` alone MoveTo, `'394'` alone
      MoveAt, both a `KeyError`; a flag stored as `'0'` counts as set. */
  lemma MoveDispatch(classes: seq<(int, string)>, d: Dict<Value, Value>)
    requires Lookup(d, StrV("1")) == Some(StrV(IntToStr(MoveId)))
    ensures var r := Apply(ObjectRecognizer(classes), DictV(d));
      var t := FlagOf(d, "100");
      var m := FlagOf(d, "394");
      (!t && !m ==> r == Ok(ClassV("MoveBy"))) &&
      (t && !m ==> r == Ok(ClassV("MoveTo"))) &&
      (!t && m ==> r == Ok(ClassV("MoveAt"))) &&
      (t && m ==> r == Err(KeyError))
    ensures Lookup(d, StrV("100")) == Some(StrV("0")) ==> FlagOf(d, "100")
  {
    RecognizeObject(classes, d);
    ParseIntToStr(MoveId);
  }

  // ---- GdObjectSerialzier ----

  /** A dict of strings as values. */
  function Lifted(d: Dict<string, string>): (r: Dict<Value, Value>)
    ensures |r| == |d|
    ensures forall i :: 0 <= i < |d| ==> r[i] == (StrV(d[i].0), StrV(d[i].1))
  {
    seq(|d|, i requires 0 <= i < |d| => (StrV(d[i].0), StrV(d[i].1)))
  }

  /** `pairs_to_dict(data.split(','))`. */
  function ParseRecord(data: string): Dict<Value, Value> {
    Lifted(Pairs2Dict(Split(data, ',')))
  }

  /** `GdObjectSerialzier.analyze(data)`: recognize the class, fall back to
      `GdObjectAnyId`'s serializer when the class has none, and decode the
      record with it. The warning printed on fallback is left out. */
  function AnalyzeObject(rec: Recognizer, szrs: map<string, Serializing.Serializer>, data: string)
    : (r: Result<Value>)
    ensures Apply(rec, DictV(ParseRecord(data))).Err? ==> r == Err(Apply(rec, DictV(ParseRecord(data))).error)
    ensures Apply(rec, DictV(ParseRecord(data))).Ok? && "GdObjectAnyId" !in szrs ==> r.Err? || Apply(rec, DictV(ParseRecord(data))).value.ClassV?
    ensures var k := Apply(rec, DictV(ParseRecord(data)));
            k.Ok? && !(k.value.ClassV? && k.value.name in szrs) ==>
            r == if "GdObjectAnyId" in szrs then Serializing.Analyze(szrs["GdObjectAnyId"], DictV(ParseRecord(data)))
                 else Err(KeyError)
    ensures Apply(rec, DictV(ParseRecord(data))).Ok? && Apply(rec, DictV(ParseRecord(data))).value.ClassV? &&
            Apply(rec, DictV(ParseRecord(data))).value.name in szrs ==>
            r == Serializing.Analyze(szrs[Apply(rec, DictV(ParseRecord(data))).value.name], DictV(ParseRecord(data)))
  {
    var d := DictV(ParseRecord(data));
    match Apply(rec, d)
    case Err(e) => Err(e)
    case Ok(k) =>
      var klass := if k.ClassV? && k.name in szrs then k.name else "GdObjectAnyId";
      if klass in szrs then Serializing.Analyze(szrs[klass], d) else Err(KeyError)
  }

  /** Every key and value of the record is a string. */
  predicate AllStrings(d: Dict<Value, Value>) {
    forall i :: 0 <= i < |d| ==> d[i].0.StrV? && d[i].1.StrV?
  }

  /** The strings of an all-string record. */
  function Lowered(d: Dict<Value, Value>): (r: Dict<string, string>)
    requires AllStrings(d)
    ensures Lifted(r) == d
  {
    seq(|d|, i requires 0 <= i < |d| => (d[i].0.s, d[i].1.s))
  }

  /** `GdObjectSerialzier.compile(value)` before the join: the class's
      serializer output, with `'1'` set to `str(__id__)` for a class that has
      an id (`ids` holds `__id__` of the `SpecialId` classes). A class without
      a serializer is a `KeyError`; an output that is not a dict fails at the
      item assignment (`TypeError`) or at `items()` (`AttributeError`). */
  function CompileRecord(szrs: map<string, Serializing.Serializer>, ids: map<string, int>, value: Value)
    : (r: Result<Dict<Value, Value>>)
    ensures r.Ok? ==> value.ObjV? && value.klass in szrs
    ensures r.Ok? && value.klass in ids && DistinctKeys(r.value) ==>
      Lookup(r.value, StrV("1")) == Some(StrV(IntToStr(ids[value.klass])))
  {
    if !value.ObjV? || value.klass !in szrs then Err(KeyError)
    else match Serializing.Compile(szrs[value.klass], value, None)
      case Err(e) => Err(e)
      case Ok(out) =>
        if !out.value.DictV? then Err(if value.klass in ids then TypeError else AttributeError)
        else if value.klass in ids then
          var d := Insert(out.value.d, StrV("1"), StrV(IntToStr(ids[value.klass])));
          LookupInserted(out.value.d, StrV("1"), StrV(IntToStr(ids[value.klass])));
          Ok(d)
        else Ok(out.value.d)
  }

  /** After `d[k] = v` on a dict with distinct keys, `d[k]` is `v`. */
  lemma {:induction false} LookupInserted(d: Dict<Value, Value>, k: Value, v: Value)
    ensures DistinctKeys(Insert(d, k, v)) ==> Lookup(Insert(d, k, v), k) == Some(v)
    decreases |d|
  {
    var e := Insert(d, k, v);
    if DistinctKeys(e) {
      var i := InsertedAt(d, k, v);
      LookupSome(e, k);
    }
  }

  /** Where `Insert` put the item. */
  lemma {:induction false} InsertedAt(d: Dict<Value, Value>, k: Value, v: Value) returns (i: nat)
    ensures i < |Insert(d, k, v)| && Insert(d, k, v)[i] == (k, v)
    decreases |d|
  {
    if |d| == 0 || d[0].0 == k {
      i := 0;
    } else {
      var j := InsertedAt(d[1..], k, v);
      i := j + 1;
    }
  }

  /** `','.join(dict_to_pairs(record))`; joining a non-string is a `TypeError`. */
  function FormatRecord(d: Dict<Value, Value>): Result<string> {
    if AllStrings(d) then Ok(Join(Dict2Pairs(Lowered(d)), ',')) else Err(TypeError)
  }

  /** `GdObjectSerialzier.compile(value)`. */
  function CompileObject(szrs: map<string, Serializing.Serializer>, ids: map<string, int>, value: Value)
    : Result<string>
  {
    match CompileRecord(szrs, ids, value)
    case Err(e) => Err(e)
    case Ok(d) => FormatRecord(d)
  }

  /** No key or value of the record contains `,`. */
  predicate NoCommas(d: Dict<string, string>) {
    forall i :: 0 <= i < |d| ==> ',' !in d[i].0 && ',' !in d[i].1
  }

  /** Splitting a formatted record gives it back, when it has distinct keys
      and no key or value contains the separator. */
  lemma RecordRoundTrip(d: Dict<string, string>)
    requires DistinctKeys(d) && NoCommas(d)
    ensures Pairs2Dict(Split(Join(Dict2Pairs(d), ','), ',')) == d
  {
    var pairs := Dict2Pairs(d);
    Dict2PairsAt(d);
    if |d| == 0 {
      assert Split("", ',') == [""];
    } else {
      forall i | 0 <= i < |pairs|
        ensures ',' !in pairs[i]
      {
        var j := i / 2;
        if i % 2 == 0 {
          assert pairs[2 * j] == d[j].0;
        } else {
          assert pairs[2 * j + 1] == d[j].1;
        }
      }
      SplitJoin(pairs, ',');
    }
    Pairs2DictRoundTrip(d);
  }

  /** The record compiled for an object of a class with an id is recognized
      by that id: parsing it back gives the same dict, whose `'1'` is the id,
      so the table answers `ClassFor` of the id. */
  lemma CompiledIdRecognized(classes: seq<(int, string)>, szrs: map<string, Serializing.Serializer>,
                             ids: map<string, int>, value: Value)
    requires CompileRecord(szrs, ids, value).Ok? && value.klass in ids
    requires var d := CompileRecord(szrs, ids, value).value;
      DistinctKeys(d) && AllStrings(d) && NoCommas(Lowered(d))
    ensures CompileObject(szrs, ids, value).Ok?
    ensures var s := CompileObject(szrs, ids, value).value;
      ParseRecord(s) == CompileRecord(szrs, ids, value).value &&
      Apply(ObjectRecognizer(classes), DictV(ParseRecord(s))) == ClassFor(classes, ids[value.klass], ParseRecord(s))
  {
    var d := CompileRecord(szrs, ids, value).value;
    var id := ids[value.klass];
    var low := Lowered(d);
    assert DistinctKeys(low) by {
      forall i, j | 0 <= i < j < |low|
        ensures low[i].0 != low[j].0
      {
        assert d[i].0 != d[j].0;
      }
    }
    assert CompileObject(szrs, ids, value) == Ok(Join(Dict2Pairs(low), ','));
    RecordRoundTrip(low);
    assert ParseRecord(Join(Dict2Pairs(low), ',')) == d;
    RecognizeWithId(classes, d, id);
  }

  /** A record whose `'1'` is the text of `id` is recognized as `id`. */
  lemma RecognizeWithId(classes: seq<(int, string)>, d: Dict<Value, Value>, id: int)
    requires Lookup(d, StrV("1")) == Some(StrV(IntToStr(id)))
    ensures Apply(ObjectRecognizer(classes), DictV(d)) == ClassFor(classes, id, d)
  {
    ParseIntToStr(id);
    assert RecordId(d) == Ok(id);
    RecognizeObject(classes, d);
  }
}
