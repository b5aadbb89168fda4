/** The round trip `DictFields` and `DictFieldsOptimized` are meant to have:
    with fields that each read one raw key, compiling what `analyze`
    produced gives back the raw dict. For `DictFieldsOptimized` it holds for
    the corrected compile (membership checked on `from_name`); the
    as-written compile fails it, see `Serializing.FromKeyCounterexample`. */
module SerializingRoundTrip {
  import opened Wrappers
  import opened Funcs
  import opened Values
  import opened Serializing

  /** Fields `FieldCommon(name_i, Key(key_i))` without defaults, with
      distinct names and distinct keys. */
  predicate KeyFields(fields: seq<Field>) {
    (forall i :: 0 <= i < |fields| ==> fields[i].szr.Key? && fields[i].szr.default.None?) &&
    (forall i, j :: 0 <= i < j < |fields| ==> fields[i].name != fields[j].name) &&
    (forall i, j :: 0 <= i < j < |fields| && fields[i].szr.Key? && fields[j].szr.Key? ==>
                    fields[i].szr.key != fields[j].szr.key)
  }

  /** Under `KeyFields` the field named `fields[i].name` is field `i`. */
  lemma NameOwnerAt(fields: seq<Field>, i: nat)
    requires KeyFields(fields) && i < |fields|
    ensures NameOwner(fields, fields[i].name) == Some(i)
  {
  }

  /** Under `KeyFields` a raw key is claimed by the field reading it, if any. */
  lemma KeyOwnerAt(fields: seq<Field>, k: Value)
    requires KeyFields(fields)
    ensures KeyOwner(fields, k).Some? ==> fields[KeyOwner(fields, k).value].szr.key == k
    ensures forall i :: 0 <= i < |fields| && fields[i].szr.key == k ==> KeyOwner(fields, k) == Some(i)
  {
    if KeyOwner(fields, k).Some? {
      assert GetKeys(fields[KeyOwner(fields, k).value].szr) == [fields[KeyOwner(fields, k).value].szr.key];
    }
    forall i | 0 <= i < |fields| && fields[i].szr.key == k
      ensures KeyOwner(fields, k) == Some(i)
    {
      assert k in GetKeys(fields[i].szr);
    }
  }

  /** A lookup in `a + r` finds `r`'s entry first. */
  lemma {:induction false} LookupConcat(a: Dict<Value, Value>, r: Dict<Value, Value>, q: Value)
    ensures Lookup(a + r, q) == if Lookup(r, q).Some? then Lookup(r, q) else Lookup(a, q)
    decreases |r|
  {
    if |r| == 0 {
      assert a + r == a;
    } else {
      var m := |r| - 1;
      assert (a + r)[..|a + r| - 1] == a + r[..m];
      LookupConcat(a, r[..m], q);
    }
  }

  /** The raw key each entry `(name, v)` is written under. */
  function Raw(fields: seq<Field>, items: Dict<Value, Value>): (raw: Dict<Value, Value>)
    requires KeyFields(fields)
    requires forall i :: 0 <= i < |items| ==> NameOwner(fields, items[i].0).Some?
    ensures |raw| == |items|
    ensures forall i :: 0 <= i < |items| ==> raw[i] == (fields[NameOwner(fields, items[i].0).value].szr.key, items[i].1)
  {
    seq(|items|, i requires 0 <= i < |items| => (fields[NameOwner(fields, items[i].0).value].szr.key, items[i].1))
  }

  /** `Raw` of a non-empty list is its first entry's raw item before the rest. */
  lemma RawCons(fields: seq<Field>, items: Dict<Value, Value>)
    requires KeyFields(fields) && |items| > 0
    requires forall i :: 0 <= i < |items| ==> NameOwner(fields, items[i].0).Some?
    ensures Raw(fields, items) ==
      [(fields[NameOwner(fields, items[0].0).value].szr.key, items[0].1)] + Raw(fields, items[1..])
  {
  }

  /** Writing `(k, v)` into a dict and then appending more items looks up
      like appending `(k, v)` and the items. */
  lemma InsertConcat(data: Dict<Value, Value>, k: Value, v: Value, rest: Dict<Value, Value>, q: Value)
    requires DistinctKeys(data)
    ensures Lookup(Insert(data, k, v) + rest, q) == Lookup(data + ([(k, v)] + rest), q)
  {
    LookupConcat(Insert(data, k, v), rest, q);
    LookupConcat(data, [(k, v)] + rest, q);
    LookupConcat([(k, v)], rest, q);
    LookupInsert(data, k, v, q);
    LookupAppend(data, k, v, q);
    LookupConcat(data, [(k, v)], q);
  }

  /** The corrected compile loop writes every entry under its field's key. */
  lemma {:induction false} CompileNamedKeys(fields: seq<Field>, items: Dict<Value, Value>, data: Dict<Value, Value>)
    requires KeyFields(fields)
    requires forall i :: 0 <= i < |items| ==> NameOwner(fields, items[i].0).Some?
    requires DistinctKeys(data)
    ensures CompileNamed(fields, items, data).Ok?
    ensures DistinctKeys(CompileNamed(fields, items, data).value)
    ensures forall q :: Lookup(CompileNamed(fields, items, data).value, q) == Lookup(data + Raw(fields, items), q)
    decreases |items|
  {
    if |items| == 0 {
      assert data + Raw(fields, items) == data;
    } else {
      var j := NameOwner(fields, items[0].0).value;
      var k := fields[j].szr.key;
      var data' := Insert(data, k, items[0].1);
      assert CompileInto(fields[j], items[0].1, data) == Ok(data');
      InsertShape(data, k, items[0].1);
      var rest := items[1..];
      assert forall i :: 0 <= i < |rest| ==> rest[i] == items[i + 1];
      CompileNamedKeys(fields, rest, data');
      RawCons(fields, items);
      forall q
        ensures Lookup(CompileNamed(fields, items, data).value, q) == Lookup(data + Raw(fields, items), q)
      {
        InsertConcat(data, k, items[0].1, Raw(fields, rest), q);
      }
    }
  }

  /** The raw key the field named `n` reads. */
  function KeyFor(fields: seq<Field>, n: Value): (k: Value)
    requires KeyFields(fields) && NameOwner(fields, n).Some?
    ensures exists i :: 0 <= i < |fields| && fields[i].name == n && fields[i].szr.key == k
  {
    fields[NameOwner(fields, n).value].szr.key
  }

  /** Every name `d` uses belongs to a field whose raw key `d` holds. */
  lemma UsedKeysPresent(fields: seq<Field>, d: Dict<Value, Value>)
    requires KeyFields(fields) && DistinctKeys(d)
    ensures forall i :: 0 <= i < |UsedNames(fields, d)| ==>
      Lookup(d, KeyFor(fields, UsedNames(fields, d)[i])).Some?
  {
    var names := UsedNames(fields, d);
    UsedNamesClaimed(fields, d);
    forall i | 0 <= i < |names|
      ensures Lookup(d, KeyFor(fields, names[i])).Some?
    {
      assert names[i] in names;
      var p :| 0 <= p < |d| && Claims(fields, d[p].0, names[i]);
      var o := KeyOwner(fields, d[p].0).value;
      KeyOwnerAt(fields, d[p].0);
      NameOwnerAt(fields, o);
      LookupSome(d, d[p].0);
    }
  }

  /** Analysing with key fields succeeds and gives, for each used name in
      order, the value of its field's raw key. */
  lemma AnalyzeKeyFields(fields: seq<Field>, d: Dict<Value, Value>)
    requires KeyFields(fields) && DistinctKeys(d)
    ensures var r := Analyze(Optimized(fields, None), DictV(d));
      r.Ok? && r.value.DictV? && AnalyzedFrom(fields, d, r.value.d)
  {
    UsedKeysPresent(fields, d);
    OptimizedAnalyzeEntries(fields, d);
  }

  /** Distinct names of key fields read distinct raw keys. */
  lemma KeyForDistinct(fields: seq<Field>, names: seq<Value>)
    requires KeyFields(fields) && Distinct(names)
    requires forall i :: 0 <= i < |names| ==> NameOwner(fields, names[i]).Some?
    ensures forall i, j :: 0 <= i < j < |names| ==> KeyFor(fields, names[i]) != KeyFor(fields, names[j])
  {
    forall i, j | 0 <= i < j < |names|
      ensures KeyFor(fields, names[i]) != KeyFor(fields, names[j])
    {
      var a := NameOwner(fields, names[i]).value;
      var b := NameOwner(fields, names[j]).value;
      if a < b {
        assert fields[a].szr.key != fields[b].szr.key;
      } else if b < a {
        assert fields[b].szr.key != fields[a].szr.key;
      }
    }
  }

  /** The entries `analyze` produces, in terms of the raw dict. */
  predicate AnalyzedFrom(fields: seq<Field>, d: Dict<Value, Value>, entries: Dict<Value, Value>)
    requires KeyFields(fields)
  {
    var names := UsedNames(fields, d);
    |entries| == |names| &&
    forall i :: 0 <= i < |names| ==>
      entries[i].0 == names[i] && Lookup(d, KeyFor(fields, names[i])) == Some(entries[i].1)
  }

  /** The raw items for analysed entries have distinct keys, each holding the
      raw dict's value. */
  lemma RawItems(fields: seq<Field>, d: Dict<Value, Value>, entries: Dict<Value, Value>)
    requires KeyFields(fields) && AnalyzedFrom(fields, d, entries)
    ensures DistinctKeys(Raw(fields, entries))
    ensures forall i :: 0 <= i < |entries| ==>
      Raw(fields, entries)[i].0 == KeyFor(fields, UsedNames(fields, d)[i]) &&
      Lookup(d, Raw(fields, entries)[i].0) == Some(Raw(fields, entries)[i].1)
  {
    UsedNamesDistinct(fields, d);
    KeyForDistinct(fields, UsedNames(fields, d));
  }

  /** The raw items the corrected compile writes look up like `d`. */
  lemma RawLookup(fields: seq<Field>, d: Dict<Value, Value>, entries: Dict<Value, Value>, q: Value)
    requires KeyFields(fields) && DistinctKeys(d)
    requires forall p :: 0 <= p < |d| ==> KeyOwner(fields, d[p].0).Some?
    requires AnalyzedFrom(fields, d, entries)
    ensures Lookup(Raw(fields, entries), q) == Lookup(d, q)
  {
    var raw := Raw(fields, entries);
    RawItems(fields, d, entries);
    LookupSome(raw, q);
    if Lookup(d, q).Some? {
      LookupDomain(d, q);
      var p :| 0 <= p < |d| && d[p].0 == q;
      var o := KeyOwner(fields, q).value;
      KeyOwnerAt(fields, q);
      UsedNamesClaimed(fields, d);
      assert Claims(fields, d[p].0, fields[o].name);
      var names := UsedNames(fields, d);
      assert fields[o].name in names;
      var i :| 0 <= i < |names| && names[i] == fields[o].name;
      NameOwnerAt(fields, o);
      assert raw[i].0 == q;
    }
  }

  /** Compiling a dict with no `unused` field and no sink runs the named
      fields over an empty dict. */
  lemma CompileOptimizedNoSink(fields: seq<Field>, entries: Dict<Value, Value>)
    ensures Compile(Optimized(fields, None), DictV(entries), None) ==
      match CompileNamed(fields, entries, []) case Ok(o) => Ok(Out(DictV(o), None)) case Err(e) => Err(e)
  {
  }

  /** With fields that each read one raw key, and a raw dict whose keys are
      all claimed, compiling the analysed value gives back the raw dict. */
  lemma OptimizedRoundTrip(fields: seq<Field>, d: Dict<Value, Value>)
    requires KeyFields(fields) && DistinctKeys(d)
    requires forall p :: 0 <= p < |d| ==> KeyOwner(fields, d[p].0).Some?
    ensures Analyze(Optimized(fields, None), DictV(d)).Ok?
    ensures
      var v := Analyze(Optimized(fields, None), DictV(d)).value;
      Compile(Optimized(fields, None), v, None).Ok? &&
      Compile(Optimized(fields, None), v, None).value.value.DictV? &&
      forall q :: Lookup(Compile(Optimized(fields, None), v, None).value.value.d, q) == Lookup(d, q)
  {
    AnalyzeKeyFields(fields, d);
    var v := Analyze(Optimized(fields, None), DictV(d)).value;
    CompiledEntries(fields, d, v.d);
    CompileOptimizedNoSink(fields, v.d);
  }

  /** The named fields compile analysed entries into a dict that looks up
      like the raw one. */
  lemma CompiledEntries(fields: seq<Field>, d: Dict<Value, Value>, entries: Dict<Value, Value>)
    requires KeyFields(fields) && DistinctKeys(d)
    requires forall p :: 0 <= p < |d| ==> KeyOwner(fields, d[p].0).Some?
    requires AnalyzedFrom(fields, d, entries)
    ensures forall i :: 0 <= i < |entries| ==> NameOwner(fields, entries[i].0).Some?
    ensures CompileNamed(fields, entries, []).Ok?
    ensures forall q :: Lookup(CompileNamed(fields, entries, []).value, q) == Lookup(d, q)
  {
    CompileNamedKeys(fields, entries, []);
    assert [] + Raw(fields, entries) == Raw(fields, entries);
    forall q
      ensures Lookup(CompileNamed(fields, entries, []).value, q) == Lookup(d, q)
    {
      RawLookup(fields, d, entries, q);
    }
  }

  // ---- DictFields ----

  /** The fields after the first keep the `KeyFields` shape. */
  lemma KeyFieldsTail(fields: seq<Field>)
    requires KeyFields(fields) && |fields| > 0
    ensures KeyFields(fields[1..])
    ensures forall i :: 0 <= i < |fields| - 1 ==> fields[1..][i] == fields[i + 1]
  {
  }

  /** What `FieldCommon.analyse` leaves under a field's name: the value read,
      or what was there before when the value read is `None`. */
  function Stored(read: Value, before: Option<Value>): (r: Option<Value>)
    ensures read != NoneV ==> r == Some(read)
    ensures read == NoneV ==> r == before
  {
    if read == NoneV then before else Some(read)
  }

  /** `DictFields.analyze` with fields that each read one raw key: it fails,
      with `KeyError`, exactly when some field's key is missing; otherwise
      each field's name holds the value read from its key (unless that value
      is `None`, which leaves the name as it was) and no other name changes. */
  lemma {:induction false} AnalyzeFieldsByKey(fields: seq<Field>, d: Dict<Value, Value>, acc: Dict<Value, Value>)
    requires KeyFields(fields) && DistinctKeys(acc)
    ensures AnalyzeFields(fields, DictV(d), acc).Ok? <==>
      forall i :: 0 <= i < |fields| ==> Lookup(d, fields[i].szr.key).Some?
    ensures AnalyzeFields(fields, DictV(d), acc).Err? ==> AnalyzeFields(fields, DictV(d), acc).error == KeyError
    ensures AnalyzeFields(fields, DictV(d), acc).Ok? ==>
      var r := AnalyzeFields(fields, DictV(d), acc).value;
      DistinctKeys(r) &&
      (forall i :: 0 <= i < |fields| ==>
         Lookup(r, fields[i].name) == Stored(Lookup(d, fields[i].szr.key).value, Lookup(acc, fields[i].name))) &&
      (forall q :: (forall i :: 0 <= i < |fields| ==> fields[i].name != q) ==> Lookup(r, q) == Lookup(acc, q))
    decreases |fields|
  {
    if |fields| > 0 {
      var f := fields[0];
      KeyFieldsTail(fields);
      match Lookup(d, f.szr.key)
      case None =>
        assert f.szr == Key(f.szr.key, None);
        assert Analyze(f.szr, DictV(d)) == Err(KeyError);
        assert FieldAnalyse(f, DictV(d), acc) == Err(KeyError);
      case Some(v) =>
        var acc' := if v == NoneV then acc else Insert(acc, f.name, v);
        assert f.szr == Key(f.szr.key, None);
        assert Analyze(f.szr, DictV(d)) == Ok(v);
        assert FieldAnalyse(f, DictV(d), acc) == Ok(acc');
        if v != NoneV {
          InsertKeys(acc, f.name, v);
        }
        forall q
          ensures Lookup(acc', q) == if q == f.name then Stored(v, Lookup(acc, q)) else Lookup(acc, q)
        {
          if v != NoneV {
            LookupInsert(acc, f.name, v, q);
          }
        }
        AnalyzeFieldsByKey(fields[1..], d, acc');
        assert AnalyzeFields(fields, DictV(d), acc) == AnalyzeFields(fields[1..], DictV(d), acc');
    }
  }

  /** `DictFields.compile` with fields that each read one raw key, into a
      sink `s`: each field's key gets the value's entry under the field's
      name (`None` when there is none), and no other key of the sink
      changes. */
  lemma {:induction false} CompileFieldsByKey(fields: seq<Field>, v: Dict<Value, Value>, s: Dict<Value, Value>)
    requires KeyFields(fields) && DistinctKeys(s)
    ensures CompileFields(fields, DictV(v), s).Ok?
    ensures
      var r := CompileFields(fields, DictV(v), s).value;
      DistinctKeys(r) &&
      (forall i :: 0 <= i < |fields| ==>
         Lookup(r, fields[i].szr.key) == Some(Lookup(v, fields[i].name).GetOr(NoneV))) &&
      (forall q :: (forall i :: 0 <= i < |fields| ==> fields[i].szr.key != q) ==> Lookup(r, q) == Lookup(s, q))
    decreases |fields|
  {
    if |fields| > 0 {
      var f := fields[0];
      KeyFieldsTail(fields);
      var x := Lookup(v, f.name).GetOr(NoneV);
      var s' := Insert(s, f.szr.key, x);
      assert f.szr == Key(f.szr.key, None);
      assert Compile(f.szr, x, Some(s)) == Ok(Out(NoneV, Some(s')));
      assert CompileInto(f, x, s) == Ok(s');
      assert FieldCompile(f, DictV(v), s) == Ok(s');
      InsertKeys(s, f.szr.key, x);
      forall q
        ensures Lookup(s', q) == if q == f.szr.key then Some(x) else Lookup(s, q)
      {
        LookupInsert(s, f.szr.key, x, q);
      }
      CompileFieldsByKey(fields[1..], v, s');
      assert CompileFields(fields, DictV(v), s) == CompileFields(fields[1..], DictV(v), s');
    }
  }

  /** With fields that each read one raw key, and a raw dict that has every
      field's key and no other key, compiling what `DictFields.analyze`
      produced gives back the raw dict, `None` values included. */
  lemma DictFieldsRoundTrip(fields: seq<Field>, d: Dict<Value, Value>)
    requires KeyFields(fields) && DistinctKeys(d)
    requires forall i :: 0 <= i < |fields| ==> Lookup(d, fields[i].szr.key).Some?
    requires forall p :: 0 <= p < |d| ==> KeyOwner(fields, d[p].0).Some?
    ensures Analyze(DictFields(fields), DictV(d)).Ok? && Analyze(DictFields(fields), DictV(d)).value.DictV?
    ensures
      var v := Analyze(DictFields(fields), DictV(d)).value;
      var c := Compile(DictFields(fields), v, None);
      c.Ok? && c.value.sink.None? && c.value.value.DictV? &&
      forall q :: Lookup(c.value.value.d, q) == Lookup(d, q)
  {
    AnalyzeFieldsByKey(fields, d, []);
    var v := AnalyzeFields(fields, DictV(d), []).value;
    CompileFieldsByKey(fields, v, []);
    var c := CompileFields(fields, DictV(v), []).value;
    forall q
      ensures Lookup(c, q) == Lookup(d, q)
    {
      RoundTripAt(fields, d, v, c, q);
    }
  }

  /** One key of the `DictFields` round trip: a field's key reads back the
      raw value, and any other key is absent from both dicts. */
  lemma RoundTripAt(fields: seq<Field>, d: Dict<Value, Value>, v: Dict<Value, Value>, c: Dict<Value, Value>, q: Value)
    requires KeyFields(fields) && DistinctKeys(d)
    requires forall i :: 0 <= i < |fields| ==> Lookup(d, fields[i].szr.key).Some?
    requires forall p :: 0 <= p < |d| ==> KeyOwner(fields, d[p].0).Some?
    requires forall i :: 0 <= i < |fields| ==>
      Lookup(v, fields[i].name) == Stored(Lookup(d, fields[i].szr.key).value, None)
    requires forall i :: 0 <= i < |fields| ==>
      Lookup(c, fields[i].szr.key) == Some(Lookup(v, fields[i].name).GetOr(NoneV))
    requires forall q :: (forall i :: 0 <= i < |fields| ==> fields[i].szr.key != q) ==> Lookup(c, q) == None
    ensures Lookup(c, q) == Lookup(d, q)
  {
    if i :| 0 <= i < |fields| && fields[i].szr.key == q {
      assert Lookup(v, fields[i].name) == Stored(Lookup(d, q).value, None);
    } else {
      LookupSome(d, q);
      if Lookup(d, q).Some? {
        var p :| 0 <= p < |d| && d[p].0 == q;
        KeyOwnerAt(fields, q);
        assert false;
      }
    }
  }
}
