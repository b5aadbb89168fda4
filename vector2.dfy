/** tools/vector2.py: `Vector2Int`, the integer 2-vector. Every operation returns
    a new vector; Python's `//` and `%` on integers round toward negative
    infinity, which is written out below. */
module Vector2 {
  import opened Wrappers

  datatype Vector2Int = Vector2Int(x: int, y: int)

  const Zero := Vector2Int(0, 0)

  /** Python's `a // b`: the quotient rounded toward negative infinity. */
  function FloorDiv(a: int, b: int): (q: int)
    requires b != 0
    ensures b > 0 ==> q * b <= a < q * b + b
    ensures b < 0 ==> q * b + b < a <= q * b
  {
    if b > 0 then a / b else (-a) / (-b)
  }

  /** Python's `a % b`: the remainder takes the sign of the divisor. */
  function FloorMod(a: int, b: int): (m: int)
    requires b != 0
    ensures b > 0 ==> 0 <= m < b
    ensures b < 0 ==> b < m <= 0
  {
    a - FloorDiv(a, b) * b
  }

  /** `x == (x // k) * k + x % k` for every non-zero `k`. */
  lemma FloorDivMod(a: int, b: int)
    requires b != 0
    ensures a == FloorDiv(a, b) * b + FloorMod(a, b)
  {
  }

  function Neg(v: Vector2Int): Vector2Int {
    Vector2Int(-v.x, -v.y)
  }

  function Add(a: Vector2Int, b: Vector2Int): Vector2Int {
    Vector2Int(a.x + b.x, a.y + b.y)
  }

  /** `__sub__` as written: it adds the components of `other`. */
  function SubAsWritten(a: Vector2Int, b: Vector2Int): (r: Vector2Int)
    ensures r == Add(a, b)
  {
    Vector2Int(a.x + b.x, a.y + b.y)
  }

  /** Subtraction as evidently intended. */
  function Sub(a: Vector2Int, b: Vector2Int): Vector2Int {
    Vector2Int(a.x - b.x, a.y - b.y)
  }

  function Mul(v: Vector2Int, k: int): Vector2Int {
    Vector2Int(v.x * k, v.y * k)
  }

  /** `v // k`; a zero divisor raises ZeroDivisionError. */
  function Div(v: Vector2Int, k: int): (r: Result<Vector2Int>)
    ensures k == 0 <==> r.Err?
    ensures r.Err? ==> r.error == ZeroDivisionError
  {
    if k == 0 then Err(ZeroDivisionError) else Ok(Vector2Int(FloorDiv(v.x, k), FloorDiv(v.y, k)))
  }

  /** `v % k`; a zero divisor raises ZeroDivisionError. */
  function Mod(v: Vector2Int, k: int): (r: Result<Vector2Int>)
    ensures k == 0 <==> r.Err?
    ensures r.Err? ==> r.error == ZeroDivisionError
  {
    if k == 0 then Err(ZeroDivisionError) else Ok(Vector2Int(FloorMod(v.x, k), FloorMod(v.y, k)))
  }

  function Dot(a: Vector2Int, b: Vector2Int): int {
    a.x * b.x + a.y * b.y
  }

  /** `cross` returns the scalar `a.x * b.y - a.y * b.x`. */
  function Cross(a: Vector2Int, b: Vector2Int): int {
    a.x * b.y - a.y * b.x
  }

  function Length2(v: Vector2Int): int {
    v.x * v.x + v.y * v.y
  }

  lemma NegNeg(v: Vector2Int)
    ensures Neg(Neg(v)) == v
    ensures Add(v, Neg(v)) == Zero
  {
  }

  lemma AddLaws(a: Vector2Int, b: Vector2Int, c: Vector2Int)
    ensures Add(a, b) == Add(b, a)
    ensures Add(Add(a, b), c) == Add(a, Add(b, c))
    ensures Add(a, Zero) == a
  {
  }

  /** As written, `a - b` is `a + b`; for `(0, 0) - (1, 0)` it gives `(1, 0)`,
      not `(-1, 0)`. */
  lemma SubAsWrittenCounterexample()
    ensures SubAsWritten(Zero, Vector2Int(1, 0)) == Vector2Int(1, 0)
    ensures Sub(Zero, Vector2Int(1, 0)) == Vector2Int(-1, 0)
  {
  }

  /** Subtraction undoes addition and is addition of the negation. */
  lemma SubInverse(a: Vector2Int, b: Vector2Int)
    ensures Add(Sub(a, b), b) == a
    ensures Sub(Add(a, b), b) == a
    ensures Sub(a, b) == Add(a, Neg(b))
  {
  }

  /** Both components of `v // k` and `v % k` recombine into `v`. */
  lemma DivModRecombine(v: Vector2Int, k: int)
    requires k != 0
    ensures Div(v, k).Ok? && Mod(v, k).Ok?
    ensures Add(Mul(Div(v, k).value, k), Mod(v, k).value) == v
  {
    FloorDivMod(v.x, k);
    FloorDivMod(v.y, k);
  }

  lemma DotLaws(a: Vector2Int, b: Vector2Int)
    ensures Dot(a, b) == Dot(b, a)
    ensures Length2(a) == Dot(a, a)
    ensures Length2(a) >= 0
    ensures Length2(a) == 0 <==> a == Zero
  {
  }

  lemma CrossLaws(a: Vector2Int, b: Vector2Int)
    ensures Cross(a, b) == -Cross(b, a)
    ensures Cross(a, a) == 0
  {
  }
}
