/** tools/vector2abc.py: the mutable two-slot vector base class. A concrete
    vector type supplies a converter, applied to every value assigned through
    attribute or item assignment, and a default used by the initializer for an
    omitted component. One value type `T` stands for both the accepted and the
    stored values, so the converter is a function from `T` to `T`. */
module Vector2Abc {
  import opened Wrappers

  /** The two slots `x` and `y`. */
  datatype Axis = X | Y

  /** The converter maps every value to a fixed point of itself. */
  ghost predicate Idempotent<T(!new)>(conv: T -> T) {
    forall t :: conv(conv(t)) == conv(t)
  }

  class Vector2Abc<T(==,!new)> {
    const conv: T -> T
    const default: T
    var x: T
    var y: T

    /** `__init__`: an omitted component (`Default`) becomes `__default__`, and
        both go through the converter. */
    constructor (conv: T -> T, default: T, x: Option<T>, y: Option<T>)
      ensures this.conv == conv && this.default == default
      ensures this.x == conv(x.GetOr(default)) && this.y == conv(y.GetOr(default))
    {
      this.conv := conv;
      this.default := default;
      this.x := conv(x.GetOr(default));
      this.y := conv(y.GetOr(default));
    }

    /** `__create__`: builds a vector from already converted values, without
        calling the converter. */
    constructor Create(conv: T -> T, default: T, x: T, y: T)
      ensures this.conv == conv && this.default == default
      ensures this.x == x && this.y == y
    {
      this.conv := conv;
      this.default := default;
      this.x := x;
      this.y := y;
    }

    /** `__setattr__`: the value is converted before it is stored, and only the
        named slot changes. */
    method SetAttr(name: Axis, value: T)
      modifies this
      ensures name == X ==> x == conv(value) && y == old(y)
      ensures name == Y ==> y == conv(value) && x == old(x)
    {
      if name == X {
        x := conv(value);
      } else {
        y := conv(value);
      }
    }

    /** `__len__`. */
    function Len(): nat {
      2
    }

    /** `__iter__`: `x`, then `y`. */
    function Iter(): (r: seq<T>)
      reads this
      ensures |r| == Len()
      ensures r[0] == x && r[1] == y
    {
      [x, y]
    }

    /** `__getitem__`: 0 and 1 name the slots directly; any other index indexes
        the pair `(x, y)` with Python's negative indices, so -1 is `y`, -2 is
        `x`, and anything else raises IndexError. */
    function Get(index: int): (r: Result<T>)
      reads this
      ensures r.Ok? <==> -2 <= index < 2
      ensures r.Err? ==> r.error == IndexError
      ensures r.Ok? ==> r.value == Iter()[if index < 0 then index + Len() else index]
    {
      if index == 0 then Ok(x)
      else if index == 1 then Ok(y)
      else if index == -1 then Ok(y)
      else if index == -2 then Ok(x)
      else Err(IndexError)
    }

    /** `__setitem__`: indices 0 and 1 assign one slot through the converter.
        Indices -1 and -2 copy both slots into a list, replace one entry and
        assign both slots back, so both pass through the converter again. Any
        other index raises IndexError before anything changes. */
    method SetItem(index: int, value: T) returns (o: Outcome)
      modifies this
      ensures o.Pass? <==> -2 <= index < 2
      ensures o.Fail? ==> o.error == IndexError && x == old(x) && y == old(y)
      ensures o.Pass? ==> Get(index) == Ok(conv(value))
      ensures index == 0 ==> y == old(y)
      ensures index == 1 ==> x == old(x)
      ensures index == -1 ==> x == conv(old(x))
      ensures index == -2 ==> y == conv(old(y))
      ensures o.Pass? && Idempotent(conv) && old(x) == conv(old(x)) && old(y) == conv(old(y)) ==>
        (index % 2 == 0 ==> y == old(y)) && (index % 2 == 1 ==> x == old(x))
    {
      if index == 0 {
        SetAttr(X, value);
        o := Pass;
      } else if index == 1 {
        SetAttr(Y, value);
        o := Pass;
      } else if -2 <= index < 0 {
        var arr := [x, y];
        arr := arr[index + 2 := value];
        SetAttr(X, arr[0]);
        SetAttr(Y, arr[1]);
        o := Pass;
      } else {
        o := Fail(IndexError);
      }
    }

    /** `__reversed__`: a new vector of the same kind with the slots swapped,
        built through the initializer and so through the converter. */
    method Reversed() returns (r: Vector2Abc<T>)
      ensures fresh(r)
      ensures r.conv == conv && r.default == default
      ensures r.x == conv(y) && r.y == conv(x)
    {
      r := new Vector2Abc(conv, default, Some(y), Some(x));
    }

    /** `__eq__`: true only for another vector with equal slots; `null` stands
        for any object that is not a vector. */
    predicate Eq(other: Vector2Abc?<T>)
      reads this, other
    {
      other != null && x == other.x && y == other.y
    }

    /** `clone`: a new vector equal to this one. */
    method Clone() returns (r: Vector2Abc<T>)
      ensures fresh(r)
      ensures r.conv == conv && r.default == default
      ensures Eq(r) && r.Eq(this)
    {
      r := new Vector2Abc.Create(conv, default, x, y);
    }

    /** `replace`: a new vector that keeps each slot passed as `Default`
        (`None` here) and takes the given value for the other, without
        calling the converter. */
    method Replace(newX: Option<T>, newY: Option<T>) returns (r: Vector2Abc<T>)
      ensures fresh(r)
      ensures r.conv == conv && r.default == default
      ensures r.x == (if newX.Some? then newX.value else x)
      ensures r.y == (if newY.Some? then newY.value else y)
      ensures newX == None && newY == None ==> Eq(r)
    {
      r := new Vector2Abc.Create(conv, default, newX.GetOr(x), newY.GetOr(y));
    }
  }

  /** Vector equality is reflexive and symmetric, and never holds for a
      non-vector. */
  lemma EqLaws<T(!new)>(a: Vector2Abc<T>, b: Vector2Abc<T>)
    ensures a.Eq(a)
    ensures a.Eq(b) <==> b.Eq(a)
    ensures !a.Eq(null)
  {
  }
}
