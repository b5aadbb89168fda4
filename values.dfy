/** The Python values the serializers and recognizers pass around: `None`,
    `...`, booleans, integers, strings, tuples, dicts (as their items in
    insertion order), instances (their class and attribute dict) and classes.
    Floats, lists and sets do not occur in the modelled paths. */
module Values {
  import opened Wrappers
  import opened Funcs
  import opened Text

  datatype Value =
    | NoneV
    | EllipsisV
    | BoolV(b: bool)
    | IntV(i: int)
    | StrV(s: string)
    | TupleV(items: seq<Value>)
    | DictV(d: Dict<Value, Value>)
    | ObjV(klass: string, attrs: Dict<Value, Value>)
    | ClassV(name: string)

  /** Python's `bool(v)`: `None`, `False`, `0` and empty containers are false;
      everything else, including the string `'0'`, is true. */
  predicate Truthy(v: Value) {
    match v
    case NoneV => false
    case BoolV(b) => b
    case IntV(i) => i != 0
    case StrV(s) => |s| > 0
    case TupleV(items) => |items| > 0
    case DictV(d) => |d| > 0
    case _ => true
  }

  /** Whether `v` can be a dict key: dicts are not hashable, and a tuple is
      hashable when its items are. */
  predicate Hashable(v: Value) {
    match v
    case DictV(_) => false
    case TupleV(items) => forall i :: 0 <= i < |items| ==> Hashable(items[i])
    case _ => true
  }

  /** Python's `int(v)` on the values that reach it: an integer is itself, a
      boolean is 0 or 1, a string is read by `ParseInt` (`ValueError` where
      that refuses it), anything else is a `TypeError`. */
  function ToInt(v: Value): (r: Result<Value>)
    ensures r.Ok? ==> r.value.IntV?
  {
    match v
    case IntV(i) => Ok(v)
    case BoolV(b) => Ok(IntV(if b then 1 else 0))
    case StrV(s) => (match ParseInt(s) case Some(i) => Ok(IntV(i)) case None => Err(ValueError))
    case _ => Err(TypeError)
  }

  /** Python's `str(v)` for the values whose text does not depend on where
      they were defined: `None`, `...`, booleans, integers and strings. The
      `repr` of tuples, dicts, instances and classes is not modelled and
      reads as a `TypeError`. */
  function ToStr(v: Value): (r: Result<Value>)
    ensures r.Ok? ==> r.value.StrV?
    ensures r.Ok? <==> !(v.TupleV? || v.DictV? || v.ObjV? || v.ClassV?)
    ensures v.StrV? ==> r == Ok(v)
    ensures v.BoolV? ==> r == Ok(StrV(if v.b then "True" else "False"))
    ensures v.NoneV? ==> r == Ok(StrV("None"))
  {
    match v
    case NoneV => Ok(StrV("None"))
    case EllipsisV => Ok(StrV("Ellipsis"))
    case BoolV(b) => Ok(StrV(if b then "True" else "False"))
    case IntV(i) => Ok(StrV(IntToStr(i)))
    case StrV(_) => Ok(v)
    case _ => Err(TypeError)
  }

  /** `int(str(b))` fails for a boolean although `int(b)` does not: the text
      is a word, not digits. */
  lemma ToIntToStrBool(b: bool)
    ensures ToInt(BoolV(b)).Ok?
    ensures ToStr(BoolV(b)).Ok? && ToInt(ToStr(BoolV(b)).value) == Err(ValueError)
  {
    var t := if b then "True" else "False";
    assert Strip(t) == t by {
      assert !IsSpace(t[0]) && !IsSpace(t[|t| - 1]);
      StripUnpadded(t);
    }
    assert ParseNat(t) == None;
  }

  /** `int(str(i)) == i`. */
  lemma ToIntToStr(i: int)
    ensures ToStr(IntV(i)).Ok? && ToInt(ToStr(IntV(i)).value) == Ok(IntV(i))
  {
    ParseIntToStr(i);
  }

  /** Python's `bool(v)` as a converter. */
  function ToBool(v: Value): Result<Value> {
    Ok(BoolV(Truthy(v)))
  }

  /** The index of the last item with key `k` (the item a dict lookup finds:
      in a dict display or union a later duplicate key wins). */
  function LastIndex<V>(d: seq<(Value, V)>, k: Value): (o: Option<nat>)
    ensures o.Some? ==> o.value < |d| && d[o.value].0 == k && forall j :: o.value < j < |d| ==> d[j].0 != k
    ensures o.None? ==> forall j :: 0 <= j < |d| ==> d[j].0 != k
    decreases |d|
  {
    if |d| == 0 then None
    else if d[|d| - 1].0 == k then Some(|d| - 1)
    else LastIndex(d[..|d| - 1], k)
  }
}
