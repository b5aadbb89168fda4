/** The small two-way codecs of classes/gd_object_szr.py: the string codecs
    for integers, booleans and identity handles, and the codecs that turn a
    few raw trigger properties into one enum or handle (`RotateDegrees`,
    `PickupOverride`, `CollisionPlayer`, `Lock`, `ItemType`,
    `DecideItemTimer`). A handle is represented by its category and the
    integer `get_value()` returns for it; within a module that integer
    determines the identity (see the `Identity` module). */
module ObjectCodecs {
  import opened Wrappers
  import opened Text
  import Identity

  /** The handle of category `kind` whose value is `value`. */
  datatype Ref = Ref(kind: Identity.Kind, value: int)

  // ---- szrs[bool] and GdIdSerializer ----

  /** `szrs[bool]`'s analyser: `s == '1'`. */
  function BoolAnalyze(s: string): bool {
    s == "1"
  }

  /** `szrs[bool]`'s compiler: `'1' if x else '0'`. */
  function BoolCompile(b: bool): string {
    if b then "1" else "0"
  }

  /** Every boolean survives the string form; a string survives the boolean
      form exactly when it is `'0'` or `'1'`. */
  lemma BoolRoundTrip(b: bool, s: string)
    ensures BoolAnalyze(BoolCompile(b)) == b
    ensures BoolCompile(BoolAnalyze(s)) == s <==> s == "0" || s == "1"
  {
    if s == "0" {
      assert BoolCompile(BoolAnalyze(s)) == "0" by { assert s[0] != "1"[0]; }
    }
  }

  /** `GdIdSerializer(kind).analyze`: `kind(int(data))`, a `ValueError` for a
      string that is not an integer. */
  function GdIdAnalyze(kind: Identity.Kind, data: string): (r: Result<Ref>)
    ensures r.Ok? <==> ParseInt(data).Some?
    ensures r.Ok? ==> r.value.kind == kind
  {
    match ParseInt(data)
    case Some(i) => Ok(Ref(kind, i))
    case None => Err(ValueError)
  }

  /** `GdIdSerializer.compile`: `str(value.get_value())`. */
  function GdIdCompile(r: Ref): string {
    IntToStr(r.value)
  }

  /** A handle written and read back as its category is the same handle. */
  lemma GdIdRoundTrip(r: Ref)
    ensures GdIdAnalyze(r.kind, GdIdCompile(r)) == Ok(r)
  {
    ParseIntToStr(r.value);
  }

  // ---- RotateDegreesSerializer ----

  /** `RotateDegreesSerializer.analyze((degrees, times_360))`. */
  function RotateAnalyze(degrees: int, times360: int): int {
    degrees + 360 * times360
  }

  /** `RotateDegreesSerializer.compile(value)`: `(value % 360, value // 360)`
      with Python's floored division, which for the positive divisor 360 is
      Dafny's Euclidean division. */
  function RotateCompile(value: int): (r: (int, int)) {
    (value % 360, value / 360)
  }

  /** Compiled degrees lie in [0, 360) and read back as the same angle; a
      pair reads back unchanged exactly when its degrees lie in [0, 360). */
  lemma RotateRoundTrip(value: int, degrees: int, times360: int)
    ensures 0 <= RotateCompile(value).0 < 360
    ensures RotateAnalyze(RotateCompile(value).0, RotateCompile(value).1) == value
    ensures RotateCompile(RotateAnalyze(degrees, times360)) == (degrees, times360) <==> 0 <= degrees < 360
  {
    var v := RotateAnalyze(degrees, times360);
    if 0 <= degrees < 360 {
      assert v == 360 * times360 + degrees;
      assert v / 360 == times360 && v % 360 == degrees;
    }
  }

  // ---- PickupOverrideSerializer ----

  /** `PickupMode`: Add = 0, Multiply = 1, Divide = 2, Override = 3. */
  datatype PickupMode = Add | Multiply | Divide | Override

  function PickupCode(m: PickupMode): int {
    match m
    case Add => 0
    case Multiply => 1
    case Divide => 2
    case Override => 3
  }

  /** `PickupMode(code)`: a `ValueError` for an integer that is no member. */
  function PickupOf(code: int): (r: Result<PickupMode>)
    ensures r.Ok? <==> 0 <= code <= 3
    ensures r.Ok? ==> PickupCode(r.value) == code
  {
    if code == 0 then Ok(Add)
    else if code == 1 then Ok(Multiply)
    else if code == 2 then Ok(Divide)
    else if code == 3 then Ok(Override)
    else Err(ValueError)
  }

  /** `PickupOverrideSerializer.analyze((mode, override))`. */
  function PickupAnalyze(mode: int, override: bool): Result<PickupMode> {
    if mode == 0 && override then Ok(Override) else PickupOf(mode)
  }

  /** `PickupOverrideSerializer.compile(value)`. */
  function PickupCompile(m: PickupMode): (int, bool) {
    if m == Override then (0, true) else (PickupCode(m), false)
  }

  /** Every mode reads back as itself; `(0, True)` is `Override`; a raw pair
      reads back unchanged exactly when it is `(0, True)` or a plain
      `(0..2, False)`, so the raw form `(3, _)` is normalised. */
  lemma PickupRoundTrip(m: PickupMode, mode: int, override: bool)
    ensures PickupAnalyze(PickupCompile(m).0, PickupCompile(m).1) == Ok(m)
    ensures PickupAnalyze(0, true) == Ok(Override)
    ensures PickupAnalyze(mode, override).Ok? <==> 0 <= mode <= 3
    ensures PickupAnalyze(mode, override).Ok? && PickupCompile(PickupAnalyze(mode, override).value) == (mode, override)
            <==> (mode == 0 && override) || (0 <= mode <= 2 && !override)
  {
  }

  // ---- CollisionPlayerSerializer ----

  /** `CollisionPlayer`: No, P1, P2, P (any player), PP (between players). */
  datatype CollisionPlayer = No | P1 | P2 | P | PP

  /** The raw flags (player_1, player_2, player_player). */
  datatype Flags3 = Flags3(p1: bool, p2: bool, pp: bool)

  /** `CollisionPlayerSerializer.compile`: the `dct` table. */
  function CollisionCompile(c: CollisionPlayer): Flags3 {
    match c
    case No => Flags3(false, false, false)
    case P1 => Flags3(true, false, false)
    case P2 => Flags3(false, true, false)
    case P => Flags3(true, true, false)
    case PP => Flags3(false, false, true)
  }

  /** `dct.inv[t]`: the member the table maps to `t`, if any. */
  function CollisionInverse(t: Flags3): (r: Option<CollisionPlayer>)
    ensures r.Some? <==> exists c :: CollisionCompile(c) == t
    ensures r.Some? ==> CollisionCompile(r.value) == t
  {
    if t == CollisionCompile(No) then Some(No)
    else if t == CollisionCompile(P1) then Some(P1)
    else if t == CollisionCompile(P2) then Some(P2)
    else if t == CollisionCompile(P) then Some(P)
    else if t == CollisionCompile(PP) then Some(PP)
    else None
  }

  /** `CollisionPlayerSerializer.analyze((p1, p2, pp))`: `pp` wins, otherwise
      the table is read backwards with `pp` cleared, which always succeeds. */
  function CollisionAnalyze(t: Flags3): CollisionPlayer {
    if t.pp then PP
    else match CollisionInverse(Flags3(t.p1, t.p2, false))
      case Some(c) => c
      case None => assert false; No
  }

  /** The table is a bijection, every member reads back as itself, any triple
      with `pp` set is `PP`, and a triple reads back unchanged exactly when
      it is in the table. */
  lemma CollisionRoundTrip(c: CollisionPlayer, t: Flags3)
    ensures forall d :: CollisionCompile(d) == CollisionCompile(c) ==> d == c
    ensures CollisionAnalyze(CollisionCompile(c)) == c
    ensures t.pp ==> CollisionAnalyze(t) == PP
    ensures CollisionCompile(CollisionAnalyze(t)) == t <==> !t.pp || t == Flags3(false, false, true)
  {
  }

  // ---- LockSerializer ----

  /** `Lock`: No = 0, Player = 1, Camera = 2. */
  datatype Lock = Unlocked | Player | Camera

  /** The lock attribute an object holds: a `Lock` member or anything else. */
  datatype LockValue = IsLock(lock: Lock) | NotALock

  /** `LockSerializer.analyze((player, camera, mod))`. The modifier is a float
      in the source; it is only compared with 0 here, so a `real` stands in. */
  function LockAnalyze(player: bool, camera: bool, mod: real): Lock {
    if (!player && !camera) || mod == 0.0 then Unlocked
    else if player && !camera then Player
    else if !player && camera then Camera
    else Unlocked
  }

  /** `LockSerializer.compile(value)`: the lock and modifier read from the
      object's values with defaults `Lock.No` and `1.`. */
  function LockCompile(lock: Option<LockValue>, mod: Option<real>): Result<(bool, bool, real)> {
    var l := lock.GetOr(IsLock(Unlocked));
    var m := mod.GetOr(1.0);
    if l == IsLock(Unlocked) || m == 0.0 then Ok((false, false, 1.0))
    else if l == IsLock(Player) then Ok((true, false, m))
    else if l == IsLock(Camera) then Ok((false, true, m))
    else Err(TypeError)
  }

  /** Compiling gives `(False, False, 1.)` for no lock or a zero modifier, a
      `TypeError` only for a non-lock with a non-zero modifier, and what it
      gives reads back as the lock, or as no lock when the modifier is 0. */
  lemma LockRoundTrip(lock: Option<LockValue>, mod: Option<real>)
    ensures lock.GetOr(IsLock(Unlocked)) == IsLock(Unlocked) || mod.GetOr(1.0) == 0.0 ==>
      LockCompile(lock, mod) == Ok((false, false, 1.0))
    ensures LockCompile(lock, mod).Err? <==> lock == Some(NotALock) && mod.GetOr(1.0) != 0.0
    ensures LockCompile(lock, mod).Ok? ==>
      var t := LockCompile(lock, mod).value;
      LockAnalyze(t.0, t.1, t.2) == (if mod.GetOr(1.0) == 0.0 then Unlocked else lock.GetOr(IsLock(Unlocked)).lock)
  {
    match lock
    case None =>
    case Some(v) =>
      match v
      case NotALock =>
      case IsLock(l) =>
        assert l == Unlocked || l == Player || l == Camera;
  }

  /** Raw triples with both flags clear, both flags set, or a zero modifier
      read as no lock. */
  lemma LockAnalyzeUnlocked(player: bool, camera: bool, mod: real)
    ensures player == camera || mod == 0.0 ==> LockAnalyze(player, camera, mod) == Unlocked
    ensures LockAnalyze(player, camera, mod) != Unlocked ==> player != camera && mod != 0.0
  {
  }

  // ---- ItemTypeSerializer and DecideItemTimer ----

  /** `ItemType`: the six members the serializer knows, and anything else. */
  datatype ItemType = NoItem | ItemKind | TimerKind | Points | MainTime | Attempts | Unrecognized

  /** The values of the constant handles `Item.Empty`, `Item.Points`,
      `Item.Attempts`, `Timer.Empty` and `Timer.MainTime`. They are declared
      with the handle classes, which are not part of this model. */
  datatype CounterConstants = CounterConstants(
    itemEmpty: int, itemPoints: int, itemAttempts: int, timerEmpty: int, timerMainTime: int)
  {
    /** The constants of one category have distinct values (they are the
        keys of that category's `constants` bidict). */
    predicate Distinct() {
      itemEmpty != itemPoints && itemEmpty != itemAttempts && itemPoints != itemAttempts &&
      timerEmpty != timerMainTime
    }
  }

  /** `ItemTypeSerializer.analyze((gd_id, type_))`. */
  function ItemTypeAnalyze(c: CounterConstants, gdId: int, t: ItemType): (r: Result<Ref>)
    ensures r.Err? <==> t == Unrecognized
    ensures r.Err? ==> r.error == TypeError
    ensures r.Ok? ==> r.value.kind == Identity.Item || r.value.kind == Identity.Timer
  {
    match t
    case NoItem => Ok(Ref(Identity.Item, c.itemEmpty))
    case ItemKind => Ok(Ref(Identity.Item, gdId))
    case TimerKind => Ok(Ref(Identity.Timer, gdId))
    case Points => Ok(Ref(Identity.Item, c.itemPoints))
    case MainTime => Ok(Ref(Identity.Timer, c.timerMainTime))
    case Attempts => Ok(Ref(Identity.Item, c.itemAttempts))
    case Unrecognized => Err(TypeError)
  }

  /** `ItemTypeSerializer.compile(value)`: the constants by identity first,
      then any other `Item` or `Timer` by its value; a handle of another
      category is a `TypeError`. */
  function ItemTypeCompile(c: CounterConstants, r: Ref): Result<(int, ItemType)> {
    if r == Ref(Identity.Item, c.itemEmpty) then Ok((0, NoItem))
    else if r == Ref(Identity.Item, c.itemPoints) then Ok((0, Points))
    else if r == Ref(Identity.Item, c.itemAttempts) then Ok((0, Attempts))
    else if r.kind == Identity.Item then Ok((r.value, ItemKind))
    else if r == Ref(Identity.Timer, c.timerEmpty) then Ok((0, NoItem))
    else if r == Ref(Identity.Timer, c.timerMainTime) then Ok((0, MainTime))
    else if r.kind == Identity.Timer then Ok((r.value, TimerKind))
    else Err(TypeError)
  }

  /** Items and timers read back as themselves, except `Timer.Empty`, which
      is written as `(0, No)` and so reads back as `Item.Empty`; the item
      constants and `Timer.MainTime` are written as `(0, kind)`. */
  lemma ItemTypeRoundTrip(c: CounterConstants, r: Ref)
    ensures ItemTypeCompile(c, r).Ok? <==> r.kind == Identity.Item || r.kind == Identity.Timer
    ensures ItemTypeCompile(c, r).Ok? ==>
      var t := ItemTypeCompile(c, r).value;
      ItemTypeAnalyze(c, t.0, t.1) ==
        Ok(if r == Ref(Identity.Timer, c.timerEmpty) then Ref(Identity.Item, c.itemEmpty) else r)
    ensures c.Distinct() ==>
      ItemTypeCompile(c, Ref(Identity.Item, c.itemPoints)) == Ok((0, Points)) &&
      ItemTypeCompile(c, Ref(Identity.Item, c.itemAttempts)) == Ok((0, Attempts)) &&
      ItemTypeCompile(c, Ref(Identity.Timer, c.timerMainTime)) == Ok((0, MainTime))
    ensures ItemTypeCompile(c, Ref(Identity.Item, c.itemEmpty)) == Ok((0, NoItem))
    ensures ItemTypeCompile(c, Ref(Identity.Timer, c.timerEmpty)) == Ok((0, NoItem))
  {
  }

  /** `DecideItemTimer.analyze((target_id, is_timer))`. */
  function DecideAnalyze(targetId: int, isTimer: bool): Ref {
    Ref(if isTimer then Identity.Timer else Identity.Item, targetId)
  }

  /** `DecideItemTimer.compile(value)`: `(value.get_value(), isinstance(value, Timer))`. */
  function DecideCompile(r: Ref): (int, bool) {
    (r.value, r.kind == Identity.Timer)
  }

  /** Items and timers read back as themselves, and every raw pair does too. */
  lemma DecideRoundTrip(r: Ref, targetId: int, isTimer: bool)
    ensures r.kind == Identity.Item || r.kind == Identity.Timer ==>
      DecideAnalyze(DecideCompile(r).0, DecideCompile(r).1) == r
    ensures DecideCompile(DecideAnalyze(targetId, isTimer)) == (targetId, isTimer)
  {
  }
}
