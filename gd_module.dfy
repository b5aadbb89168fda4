/** classes/gd_module.py: the identity registry. A `GdId` is a mutable identity
    cell; `GdIdRef` handles observe a cell and compare equal when they observe
    the same cell; a `GdIdContainer` binds cells of one category to integers,
    one-to-one, and hands out the smallest free integer on demand; `absorb`
    merges one cell into another. The weak-reference handle set of a cell is an
    explicit set of handle objects. The model holds one `GdModule`, which
    carries, as ghost state, the cells and handles it knows about so that its
    invariant can be stated; whether that module is the active one (the top of
    its context stack) is a parameter. */
module Identity {
  import opened Wrappers

  /** The reference categories, one per `GdIdRef` subclass. */
  datatype Kind = Group | Block | Item | Timer

  /** `fwd` and `bwd` are the two directions of one one-to-one map. */
  ghost predicate Agree<K, V>(fwd: map<K, V>, bwd: map<V, K>) {
    (forall k :: k in fwd ==> fwd[k] in bwd && bwd[fwd[k]] == k) &&
    (forall v :: v in bwd ==> bwd[v] in fwd && fwd[bwd[v]] == v)
  }

  lemma AgreeAdd<K, V>(fwd: map<K, V>, bwd: map<V, K>, k: K, v: V)
    requires Agree(fwd, bwd) && k !in fwd && v !in bwd
    ensures Agree(fwd[k := v], bwd[v := k])
  {
  }

  lemma AgreeRemove<K, V>(fwd: map<K, V>, bwd: map<V, K>, k: K)
    requires Agree(fwd, bwd) && k in fwd
    ensures Agree(fwd - {k}, bwd - {fwd[k]})
  {
  }

  /** Dropping a key and then setting it is setting it. */
  lemma RebindKey<K, V>(vals: map<K, V>, k: K, v: V)
    ensures (vals - {k})[k := v] == vals[k := v]
  {
  }

  /** A container's bindings after the cell `from` is merged into `to`:
      `from`'s binding is dropped, and its integer passes to `to` unless `to`
      already holds one. */
  function Merged(vals: map<GdId, int>, from: GdId, to: GdId): map<GdId, int>
    requires from in vals
  {
    if to in vals then vals - {from} else (vals - {from})[to := vals[from]]
  }

  /** `n` is the smallest integer from `cursor` on that is not in `bound`. */
  predicate IsFirstFree(bound: set<int>, cursor: int, n: int) {
    cursor <= n && n !in bound && forall u :: cursor <= u < n ==> u in bound
  }

  /** There is only one smallest free integer. */
  lemma FirstFreeUnique(bound: set<int>, cursor: int, n1: int, n2: int)
    requires IsFirstFree(bound, cursor, n1) && IsFirstFree(bound, cursor, n2)
    ensures n1 == n2
  {
  }

  /** With 1, 2 and 4 bound and a fresh cursor the first allocation takes 3;
      with the cursor then past 3, the next takes 5. */
  lemma FirstFreeExample()
    ensures IsFirstFree({1, 2, 4}, 1, 3) && IsFirstFree({1, 2, 3, 4}, 4, 5)
  {
  }

  /** `GdIdType`: a category and its reserved constant cells, keyed by their
      integer values (the `constants` bidict, kept as its two directions). */
  class GdIdType {
    const kind: Kind
    var constants: map<int, GdId>
    var inv: map<GdId, int>

    /** The two directions of the constant table agree. */
    ghost predicate Bijection()
      reads this
    {
      Agree(constants, inv)
    }

    /** `__attrs_post_init__`: one fresh cell per reserved value, in the order of
        the `constants_names` dict. */
    constructor (kind: Kind, names: seq<int>)
      requires forall i, j :: 0 <= i < j < |names| ==> names[i] != names[j]
      ensures this.kind == kind && Ready()
      ensures forall v :: v in constants <==> v in names
      ensures fresh(inv.Keys)
    {
      this.kind := kind;
      constants := map[];
      inv := map[];
      new;
      var i := 0;
      while i < |names|
        invariant 0 <= i <= |names|
        invariant Ready()
        invariant forall v :: v in constants <==> v in names[..i]
        invariant fresh(inv.Keys)
      {
        var g := new GdId(this);
        AgreeAdd(constants, inv, names[i], g);
        constants := constants[names[i] := g];
        inv := inv[g := names[i]];
        i := i + 1;
      }
      assert names[..i] == names;
    }

    /** The constant table is one-to-one, and its cells belong to this
        category and are neither bound nor observed. */
    ghost predicate Ready()
      reads this, inv.Keys
    {
      Bijection() &&
      forall g :: g in inv ==> g.category == this && g.handles == {} && g.containers == {}
    }

    /** `g in self.constants.inv`. */
    predicate IsConstant(g: GdId)
      reads this
    {
      g in inv
    }

    /** `create(value)`: `None` gives a handle of a fresh cell, a reserved value
        the constant's handle, and any other value the handle the active
        module's container gives for it (RuntimeError when no module is
        active). */
    method Create(m: GdModule, active: bool, value: Option<int>) returns (r: Result<GdIdRef>)
      requires m.Valid() && this == m.TypeOf(kind)
      modifies m, m.Cells, m.Ids(kind)
      ensures m.Valid()
      ensures r.Ok? ==> r.value in m.Handles && r.value.category == this
      ensures value.None? ==> r.Ok? && fresh(r.value.ref) && r.value.ref.containers == {}
      ensures value.Some? && value.value in constants ==> r.Ok? && r.value.ref == constants[value.value]
      ensures value.Some? && value.value !in constants && !active ==> r == Err(RuntimeError)
      ensures value.Some? && value.value !in constants && active ==> r.Ok? && m.Ids(kind).Binds(r.value.ref, value.value)
      ensures value.Some? && value.value !in constants && active && value.value in old(m.Ids(kind).inverse) ==>
        r.value.ref == old(m.Ids(kind).inverse)[value.value]
      ensures value.Some? && value.value !in constants && active && value.value !in old(m.Ids(kind).inverse) ==>
        fresh(r.value.ref) && r.value.ref.containers == {m.Ids(kind)} &&
        m.Ids(kind).values == old(m.Ids(kind).values)[r.value.ref := value.value]
      ensures value.None? || value.value in constants || !active || value.value in old(m.Ids(kind).inverse) ==>
        m.Ids(kind).values == old(m.Ids(kind).values)
    {
      if value.None? {
        var h := m.Ids(kind).NewCell(m, None);
        return Ok(h);
      }
      if value.value in constants {
        var h := constants[value.value].GetRef(m);
        return Ok(h);
      }
      if !active {
        return Err(RuntimeError);
      }
      var h := m.Ids(kind).Get(m, value);
      r := Ok(h);
    }
  }

  /** `GdId`: an identity cell of one category, with the handles observing it
      and the containers that bind it. */
  class GdId {
    const category: GdIdType
    var handles: set<GdIdRef>
    var containers: set<GdIdContainer>

    constructor (category: GdIdType)
      ensures this.category == category && handles == {} && containers == {}
    {
      this.category := category;
      handles := {};
      containers := {};
    }

    /** `get_ref`: an existing handle of this cell if there is one, otherwise a
        new handle registered with the cell. */
    method GetRef(m: GdModule) returns (h: GdIdRef)
      requires m.Valid() && this in m.Cells
      modifies this, m
      ensures m.Valid()
      ensures h.ref == this && h.category == category && h in handles && h in m.Handles
      ensures old(handles) != {} ==> h in old(handles) && handles == old(handles) && m.Handles == old(m.Handles)
      ensures old(handles) == {} ==> fresh(h) && handles == {h} && m.Handles == old(m.Handles) + {h}
      ensures containers == old(containers) && m.Cells == old(m.Cells)
    {
      if handles != {} {
        h :| h in handles;
      } else {
        h := new GdIdRef(this);
        m.Handles := m.Handles + {h};
        m.HandleAdded(h);
      }
    }

    /** The handle loop of `absorb`: every handle of `other` now observes this
        cell, which takes them all; `other` keeps none. */
    method MoveHandles(other: GdId)
      requires other != this
      modifies this, other, other.handles
      ensures forall h :: h in old(other.handles) ==> h.ref == this
      ensures handles == old(handles) + old(other.handles) && other.handles == {}
      ensures containers == old(containers) && other.containers == old(other.containers)
    {
      var moved := other.handles;
      var rest := moved;
      while rest != {}
        invariant rest <= moved && other.handles == moved
        invariant forall h :: h in moved - rest ==> h.ref == this
        invariant handles == old(handles) + (moved - rest)
        invariant containers == old(containers) && other.containers == old(other.containers)
        decreases rest
      {
        var h :| h in rest;
        h.ref := this;
        handles := handles + {h};
        rest := rest - {h};
      }
      other.handles := {};
    }

    /** The container loop of `absorb`: in every container binding `other`,
        the binding passes to this cell as `Merged` describes, and the
        container joins this cell's container set where this cell was unbound.
        `other`'s own container set is left as it was. */
    method MoveBindings(other: GdId)
      requires other != this
      requires forall c :: c in other.containers ==>
        other in c.values && c.Bijection() && (this in c.values <==> c in containers)
      modifies this, other.containers
      ensures handles == old(handles)
      ensures containers == old(containers) + old(other.containers)
      ensures forall c :: c in old(other.containers) ==>
        c.Bijection() && c.nextFree == old(c.nextFree) && c.values == Merged(old(c.values), other, this)
    {
      var todo := other.containers;
      var rest := todo;
      ghost var done: set<GdIdContainer> := {};
      var joined: set<GdIdContainer> := {};
      while rest != {}
        invariant done + rest == todo && done !! rest && other.containers == todo
        invariant unchanged(this)
        invariant joined <= todo && done <= old(containers) + joined
        invariant unchanged(rest)
        invariant forall c :: c in done ==>
          c.Bijection() && c.nextFree == old(c.nextFree) && c.values == Merged(old(c.values), other, this)
        decreases rest
      {
        var c :| c in rest;
        var took := c.Transfer(other, this);
        if took {
          joined := joined + {c};
        }
        done := done + {c};
        rest := rest - {c};
      }
      containers := containers + joined;
    }

    /** The merge step of `absorb`, for a distinct non-constant cell of the
        same category. */
    method Merge(m: GdModule, other: GdId)
      requires m.Valid() && this in m.Cells && other in m.Cells && other != this
      requires other.category == category && !category.IsConstant(other)
      modifies this, m, other, other.handles, m.Ids(category.kind)
      ensures m.Valid()
      ensures
        m.Cells == old(m.Cells) - {other} && m.Handles == old(m.Handles) &&
        handles == old(handles) + old(other.handles) && other.handles == {} &&
        (forall h :: h in old(other.handles) ==> h.ref == this) &&
        other.containers == old(other.containers) &&
        var c := m.Ids(category.kind);
        c.values == (if other in old(c.values) then Merged(old(c.values), other, this) else old(c.values))
    {
      MoveHandles(other);
      MoveBindings(other);
      m.Cells := m.Cells - {other};
      m.Absorbed((this, other));
    }

    /** `absorb(other)`: merges `other` into this cell. TypeError, with nothing
        changed, when `other` is not a cell (`null`), is of another category or
        is a constant. Otherwise every handle of `other` now observes this
        cell; `other` is unbound in every container, and this cell takes its
        integer wherever it had none of its own; `other` is dead and leaves the
        module, its own container set left as it was. Absorbing a cell into
        itself changes nothing. */
    method Absorb(m: GdModule, other: GdId?) returns (o: Outcome)
      requires m.Valid() && this in m.Cells && (other != null ==> other in m.Cells)
      modifies this, m, other, if other != null then other.handles else {}, m.Ids(category.kind)
      ensures m.Valid()
      ensures o.Fail? <==> other == null || other.category != category || category.IsConstant(other)
      ensures o.Fail? ==> o.error == TypeError
      ensures o.Fail? || other == this ==>
        unchanged(this, m, m.Ids(category.kind)) && (other != null ==> unchanged(other) && unchanged(other.handles))
      ensures o.Pass? && other != this ==>
        m.Cells == old(m.Cells) - {other} && m.Handles == old(m.Handles) &&
        handles == old(handles) + old(other.handles) && other.handles == {} &&
        (forall h :: h in old(other.handles) ==> h.ref == this) &&
        other.containers == old(other.containers) &&
        var c := m.Ids(category.kind);
        c.values == (if other in old(c.values) then Merged(old(c.values), other, this) else old(c.values))
    {
      if other == null || other.category != category || category.IsConstant(other) {
        return Fail(TypeError);
      }
      if other == this {
        return Pass;
      }
      Merge(m, other);
      o := Pass;
    }
  }

  /** `GdIdRef`: a handle of one category observing one cell. */
  class GdIdRef {
    const category: GdIdType
    var ref: GdId

    /** `__safe_init__`: the new handle observes `cell` and registers with it. */
    constructor (cell: GdId)
      modifies cell
      ensures category == cell.category && ref == cell
      ensures cell.handles == old(cell.handles) + {this}
      ensures cell.containers == old(cell.containers)
    {
      category := cell.category;
      ref := cell;
      new;
      cell.handles := cell.handles + {this};
    }

    /** `__eq__`: same category and the same current cell. */
    predicate Eq(other: GdIdRef)
      reads this, other
    {
      other.category == category && other.ref == ref
    }

    /** `is_constant`. */
    predicate IsConstant()
      reads this, category
    {
      category.IsConstant(ref)
    }

    /** `absorb(other)`: merges the cell `other` observes into the cell this
        handle observes (TypeError for another category or a constant). On
        success every handle of the absorbed cell, `other` among them, now
        observes this handle's cell, so the two handles compare equal. */
    method Absorb(m: GdModule, other: GdIdRef) returns (o: Outcome)
      requires m.Valid() && this in m.Handles && other in m.Handles
      modifies ref, m, other.ref, other.ref.handles, m.Ids(ref.category.kind)
      ensures m.Valid()
      ensures o.Fail? <==> old(other.ref).category != old(ref).category || category.IsConstant(old(other.ref))
      ensures o.Fail? ==> o.error == TypeError && unchanged(m) && other.ref == old(other.ref)
      ensures o.Pass? ==> ref == old(ref) && Eq(other) && forall h :: h in old(other.ref.handles) ==> h.ref == ref
    {
      o := ref.Absorb(m, other.ref);
    }

    /** `get_value(default)`: a constant's reserved integer; otherwise, with a
        default and no active module, the default; otherwise the value the
        active module's container of this category gives (RuntimeError when
        no module is active). */
    method GetValue(m: GdModule, active: bool, default: Option<int>) returns (r: Result<int>)
      requires m.Valid() && this in m.Handles
      modifies m.Ids(category.kind), ref
      ensures m.Valid()
      ensures IsConstant() ==> r.Ok? && r.value in category.constants && category.constants[r.value] == ref
      ensures !IsConstant() && !active ==> r == (if default.Some? then Ok(default.value) else Err(RuntimeError))
      ensures !IsConstant() && active && (ref in old(m.Ids(category.kind).values) || default.None?) ==>
        r.Ok? && m.Ids(category.kind).Binds(ref, r.value)
      ensures !IsConstant() && active && ref !in old(m.Ids(category.kind).values) && default.Some? ==>
        r == Ok(default.value)
      ensures !IsConstant() && active && ref in old(m.Ids(category.kind).values) ==>
        r == Ok(old(m.Ids(category.kind).values)[ref])
      ensures !IsConstant() && active && ref !in old(m.Ids(category.kind).values) && default.None? ==>
        r.Ok? && IsFirstFree(old(m.Ids(category.kind).inverse).Keys, old(m.Ids(category.kind).nextFree), r.value) &&
        m.Ids(category.kind).nextFree == r.value + 1 &&
        m.Ids(category.kind).values == old(m.Ids(category.kind).values)[ref := r.value]
      ensures IsConstant() || !active || ref in old(m.Ids(category.kind).values) || default.Some? ==>
        unchanged(m.Ids(category.kind), ref)
    {
      if IsConstant() {
        return Ok(category.inv[ref]);
      }
      if default.Some? && !active {
        return Ok(default.value);
      }
      if !active {
        return Err(RuntimeError);
      }
      var v := m.Ids(category.kind).GetValue(m, this, default);
      r := Ok(v);
    }
  }

  /** `GdIdContainer`: the integers of one category within one module, kept
      as the two directions of a one-to-one map (the `bidict`), and the cursor
      of lazy allocation. */
  class GdIdContainer {
    const category: GdIdType
    var values: map<GdId, int>
    var inverse: map<int, GdId>
    var nextFree: int

    constructor (category: GdIdType)
      ensures this.category == category && Empty()
    {
      this.category := category;
      values := map[];
      inverse := map[];
      nextFree := 1;
    }

    /** Nothing is bound and the cursor is at 1. */
    predicate Empty()
      reads this
    {
      values == map[] && inverse == map[] && nextFree == 1
    }

    /** The two directions agree, so `values` is one-to-one. */
    ghost predicate Bijection()
      reads this
    {
      Agree(values, inverse)
    }

    /** `g` holds the integer `v` here, or is the constant reserved for `v`. */
    ghost predicate Binds(g: GdId, v: int)
      reads this, category
    {
      (g in values && values[g] == v) || (v in category.constants && category.constants[v] == g)
    }

    /** One step of the container loop of `absorb`: pops the binding of
        `from` and, when `to` is unbound here, binds `to` to the popped
        integer; `took` says whether it did. */
    method Transfer(from: GdId, to: GdId) returns (took: bool)
      requires from != to && from in values && Bijection()
      modifies this
      ensures Bijection() && nextFree == old(nextFree)
      ensures took <==> to !in old(values)
      ensures values == Merged(old(values), from, to)
    {
      var v := values[from];
      AgreeRemove(values, inverse, from);
      values := values - {from};
      inverse := inverse - {v};
      took := to !in values;
      if took {
        AgreeAdd(values, inverse, to, v);
        values := values[to := v];
        inverse := inverse[v := to];
      }
    }

    /** `get(value)`: a fresh unbound cell for `None`; the constant's handle for
        a reserved value; the handle of the cell bound to `value`; otherwise a
        new cell bound to `value`. */
    method Get(m: GdModule, value: Option<int>) returns (h: GdIdRef)
      requires m.Valid() && this == m.Ids(category.kind)
      modifies this, m, m.Cells
      ensures m.Valid()
      ensures h in m.Handles && h.category == category && nextFree == old(nextFree)
      ensures fresh(m.Cells - old(m.Cells))
      ensures value.None? ==> fresh(h.ref) && h.ref.containers == {} && values == old(values)
      ensures value.Some? && value.value in category.constants ==>
        h.ref == category.constants[value.value] && values == old(values)
      ensures value.Some? && value.value !in category.constants && value.value in old(inverse) ==>
        h.ref == old(inverse)[value.value] && values == old(values)
      ensures value.Some? && value.value !in category.constants && value.value !in old(inverse) ==>
        fresh(h.ref) && h.ref.containers == {this} && values == old(values)[h.ref := value.value]
      ensures value.Some? ==> Binds(h.ref, value.value)
    {
      if value.None? {
        h := NewCell(m, None);
        return;
      }
      var v := value.value;
      if v in category.constants {
        h := category.constants[v].GetRef(m);
        return;
      }
      if v in inverse {
        h := inverse[v].GetRef(m);
        return;
      }
      h := NewCell(m, value);
    }

    /** `GdId(self.type).get_ref()`, after `values[gid] = value` when there is
        a value: a new cell of this category joins the module, bound here to
        the value if any, and its handle is returned. */
    method NewCell(m: GdModule, value: Option<int>) returns (h: GdIdRef)
      requires m.Valid() && this == m.Ids(category.kind)
      requires value.Some? ==> value.value !in inverse
      modifies this, m
      ensures m.Valid() && h in m.Handles && h.category == category && nextFree == old(nextFree)
      ensures fresh(h.ref) && m.Cells == old(m.Cells) + {h.ref}
      ensures value.None? ==> h.ref.containers == {} && values == old(values)
      ensures value.Some? ==> h.ref.containers == {this} && values == old(values)[h.ref := value.value]
    {
      var g := new GdId(category);
      m.AddCell(g);
      if value.Some? {
        m.Bind(this, g, value.value);
      }
      h := g.GetRef(m);
    }

    /** `set_value(gid, value)`: rebinds the handle's cell. Constants raise
        TypeError. A value already bound to another cell raises
        DuplicationError before anything changes. Otherwise the old binding is
        dropped and, for a value, the new one made: the container joins the
        cell's container set on the first binding and leaves it when `None`
        unbinds. */
    method SetValue(m: GdModule, h: GdIdRef, value: Option<int>) returns (o: Outcome)
      requires m.Valid() && this == m.Ids(category.kind) && h in m.Handles && h.category == category
      modifies this, h.ref
      ensures m.Valid()
      ensures o.Pass? <==> !h.IsConstant() && !(value.Some? && value.value in old(inverse) && old(inverse)[value.value] != h.ref)
      ensures h.IsConstant() ==> o == Fail(TypeError)
      ensures !h.IsConstant() && o.Fail? ==> o == Fail(DuplicationError)
      ensures o.Fail? ==> unchanged(this, h.ref)
      ensures o.Pass? && value.Some? ==>
        values == old(values)[h.ref := value.value] && h.ref.containers == old(h.ref.containers) + {this}
      ensures o.Pass? && value.None? ==>
        values == old(values) - {h.ref} && h.ref.containers == old(h.ref.containers) - {this}
      ensures nextFree == old(nextFree) && h.ref.handles == old(h.ref.handles)
    {
      if h.IsConstant() {
        return Fail(TypeError);
      }
      var g := h.ref;
      if value.Some? && value.value in inverse && inverse[value.value] != g {
        return Fail(DuplicationError);
      }
      m.Unbind(this, g);
      if value.Some? {
        m.Bind(this, g, value.value);
        RebindKey(old(values), g, value.value);
      }
      o := Pass;
    }

    /** The cursor loop of `get_value`: the first integer from the cursor on
        that is not bound. */
    method FirstFree() returns (n: int)
      ensures IsFirstFree(inverse.Keys, nextFree, n)
    {
      n := nextFree;
      while n in inverse
        invariant nextFree <= n
        invariant forall u :: nextFree <= u < n ==> u in inverse
        decreases |set u | u in inverse && u >= n|
      {
        ghost var above := set u | u in inverse && u >= n;
        assert above - {n} == set u | u in inverse && u >= n + 1;
        n := n + 1;
      }
    }

    /** `get_value(gid, default)`: a constant's reserved integer; the cell's
        integer if it is bound; the default if one is given; otherwise the
        cursor skips every bound integer, the first free one is bound to the
        cell for good, and the cursor moves past it. */
    method GetValue(m: GdModule, h: GdIdRef, default: Option<int>) returns (r: int)
      requires m.Valid() && this == m.Ids(category.kind) && h in m.Handles && h.category == category
      modifies this, h.ref
      ensures m.Valid()
      ensures h.IsConstant() ==> r in category.constants && category.constants[r] == h.ref
      ensures h.IsConstant() || h.ref in old(values) || default.Some? ==> unchanged(this, h.ref)
      ensures !h.IsConstant() && h.ref in old(values) ==> r == old(values)[h.ref]
      ensures !h.IsConstant() && h.ref !in old(values) && default.Some? ==> r == default.value
      ensures !h.IsConstant() && h.ref !in old(values) && default.None? ==>
        IsFirstFree(old(inverse).Keys, old(nextFree), r) && nextFree == r + 1 && values == old(values)[h.ref := r] &&
        h.ref.containers == old(h.ref.containers) + {this}
      ensures h.IsConstant() || h.ref in old(values) || default.None? ==> Binds(h.ref, r)
      ensures h.ref.handles == old(h.ref.handles)
    {
      if h.IsConstant() {
        return category.inv[h.ref];
      }
      if h.ref in values {
        return values[h.ref];
      }
      if default.Some? {
        return default.value;
      }
      r := FirstFree();
      var o := SetValue(m, h, Some(r));
      label Bound:
      nextFree := r + 1;
      m.CursorMoved@Bound(this);
    }
  }

  /** `GdIdType.ids_factory`: an empty container for each category. */
  method NewContainers(group: GdIdType, block: GdIdType, item: GdIdType, timer: GdIdType)
    returns (cg: GdIdContainer, cb: GdIdContainer, ci: GdIdContainer, ct: GdIdContainer)
    ensures fresh(cg) && fresh(cb) && fresh(ci) && fresh(ct)
    ensures cg.Empty() && cb.Empty() && ci.Empty() && ct.Empty()
    ensures cg.category == group && cb.category == block && ci.category == item && ct.category == timer
  {
    cg := new GdIdContainer(group);
    cb := new GdIdContainer(block);
    ci := new GdIdContainer(item);
    ct := new GdIdContainer(timer);
  }

  /** `GdModule`: one container per category. `Cells` and `Handles` are the
      cells and handles the module knows about; the categories are built with
      the module. */
  class GdModule {
    const groupType: GdIdType
    const blockType: GdIdType
    const itemType: GdIdType
    const timerType: GdIdType
    const groupIds: GdIdContainer
    const blockIds: GdIdContainer
    const itemIds: GdIdContainer
    const timerIds: GdIdContainer
    ghost const Types: set<GdIdType>
    ghost const Containers: set<GdIdContainer>
    ghost var Cells: set<GdId>
    ghost var Handles: set<GdIdRef>

    /** The category of a kind. */
    function TypeOf(k: Kind): GdIdType {
      match k
      case Group => groupType
      case Block => blockType
      case Item => itemType
      case Timer => timerType
    }

    /** `ids[kind]`: the container of a kind. */
    function Ids(k: Kind): GdIdContainer {
      match k
      case Group => groupIds
      case Block => blockIds
      case Item => itemIds
      case Timer => timerIds
    }

    /** One category and one container per kind. */
    ghost predicate TablesOk()
      reads this
    {
      (forall k: Kind ::
        TypeOf(k) in Types && Ids(k) in Containers && TypeOf(k).kind == k && Ids(k).category == TypeOf(k)) &&
      (forall t :: t in Types ==> TypeOf(t.kind) == t) &&
      (forall c :: c in Containers ==> Ids(c.category.kind) == c)
    }

    /** Each category's constant table is one-to-one and its cells are known. */
    ghost predicate ConstantsOk()
      reads this, Types
    {
      forall t :: t in Types ==>
        t.Bijection() &&
        forall g :: g in t.inv ==> g in Cells && g.category == t
    }

    /** Each container is one-to-one over known cells of its category, and its
        cursor is positive. */
    ghost predicate ContainersOk()
      reads this, Containers
    {
      forall c :: c in Containers ==>
        c.Bijection() && c.nextFree >= 1 &&
        forall g :: g in c.values ==> g in Cells && g.category == c.category
    }

    /** A cell lists exactly the containers that bind it (here at most the
        one container of its category), and its handles point back at it. */
    ghost predicate CellsOk()
      requires TablesOk()
      reads this, Cells, Containers, Handles
    {
      forall g :: g in Cells ==>
        g.category in Types &&
        g.containers == (if g in Ids(g.category.kind).values then {Ids(g.category.kind)} else {}) &&
        g.handles <= Handles &&
        forall h :: h in g.handles ==> h.ref == g
    }

    /** A handle is registered with the cell it observes. */
    ghost predicate HandlesOk()
      reads this, Handles, Cells
    {
      forall h :: h in Handles ==>
        h.ref in Cells && h in h.ref.handles && h.category == h.ref.category
    }

    ghost predicate Valid()
      reads this, Types, Containers, Cells, Handles
    {
      TablesOk() && ConstantsOk() && ContainersOk() && CellsOk() && HandlesOk()
    }

    /** `GdModule()`: an empty container for each of the categories, which
        are made beforehand and whose constants are not bound or observed
        yet. */
    constructor (group: GdIdType, block: GdIdType, item: GdIdType, timer: GdIdType)
      requires group.kind == Group && block.kind == Block && item.kind == Item && timer.kind == Timer
      requires group.Ready() && block.Ready() && item.Ready() && timer.Ready()
      ensures Valid() && Handles == {}
      ensures TypeOf(Group) == group && TypeOf(Block) == block && TypeOf(Item) == item && TypeOf(Timer) == timer
      ensures forall c :: c in Containers ==> c.Empty()
    {
      groupType, blockType, itemType, timerType := group, block, item, timer;
      var cg, cb, ci, ct := NewContainers(group, block, item, timer);
      assert group.Ready() && block.Ready() && item.Ready() && timer.Ready();
      groupIds, blockIds, itemIds, timerIds := cg, cb, ci, ct;
      Types := {group, block, item, timer};
      Containers := {cg, cb, ci, ct};
      Cells := group.inv.Keys + block.inv.Keys + item.inv.Keys + timer.inv.Keys;
      Handles := {};
      new;
      Initially();
    }

    /** The invariant of a module whose containers are all empty and whose
        cells are the constants of its ready categories. */
    lemma Initially()
      requires Types == {groupType, blockType, itemType, timerType}
      requires Containers == {groupIds, blockIds, itemIds, timerIds}
      requires groupType.kind == Group && blockType.kind == Block && itemType.kind == Item && timerType.kind == Timer
      requires groupIds.category == groupType && blockIds.category == blockType
      requires itemIds.category == itemType && timerIds.category == timerType
      requires groupType.Ready() && blockType.Ready() && itemType.Ready() && timerType.Ready()
      requires groupIds.Empty() && blockIds.Empty() && itemIds.Empty() && timerIds.Empty()
      requires Cells == groupType.inv.Keys + blockType.inv.Keys + itemType.inv.Keys + timerType.inv.Keys
      requires Handles == {}
      ensures Valid() && forall c :: c in Containers ==> c.Empty()
    {
      forall g | g in Cells
        ensures g.category in Types && g.handles == {} && g.containers == {}
      {
        var t := if g in groupType.inv then groupType else if g in blockType.inv then blockType
          else if g in itemType.inv then itemType else timerType;
        assert t in Types && t.Ready() && g in t.inv;
      }
    }

    /** The constant tables survive any step that leaves the module's own
        fields and the categories alone. */
    twostate lemma KeepConstants()
      requires old(ConstantsOk()) && unchanged(this) && unchanged(Types)
      ensures ConstantsOk()
    {
    }

    /** The constant tables survive the removal of a cell that is not a
        constant. */
    twostate lemma ConstantsWithout(other: GdId)
      requires old(ConstantsOk()) && Cells == old(Cells) - {other} && unchanged(Types)
      requires !other.category.IsConstant(other)
      ensures ConstantsOk()
    {
    }

    /** Handle registration survives any step that leaves the handles and the
        cells' handle sets alone. */
    twostate lemma KeepHandles()
      requires old(HandlesOk()) && unchanged(this) && unchanged(Handles)
      requires forall g :: g in Cells ==> g.handles == old(g.handles)
      ensures HandlesOk()
    {
    }

    /** Handle registration after the handles of `other` moved to live cells
        and `other` left the module. */
    twostate lemma HandlesMoved(other: GdId)
      requires old(HandlesOk()) && Handles == old(Handles) && Cells == old(Cells) - {other}
      requires forall g :: g in Cells ==> old(g.handles) <= g.handles
      requires forall h :: h in Handles && h !in old(other.handles) ==> h.ref == old(h.ref)
      requires forall h :: h in old(other.handles) ==> h.ref in Cells && h in h.ref.handles && h.category == h.ref.category
      ensures HandlesOk()
    {
    }

    /** The container invariant after a step that changed container `c` only
        and may have dropped cells no other container binds. */
    twostate lemma ContainerUpdated(c: GdIdContainer)
      requires old(ContainersOk()) && c in Containers
      requires forall d :: d in Containers && d != c ==>
        unchanged(d) && forall g :: g in d.values ==> g in Cells
      requires c.Bijection() && c.nextFree >= 1
      requires forall g :: g in c.values ==> g in Cells && g.category == c.category
      ensures ContainersOk()
    {
    }

    /** The cell invariant after a step that changed cell `g` and the
        container of its category only, where no other cell's membership in
        that container changed and `g` itself satisfies the invariant. */
    twostate lemma CellUpdated(g: GdId)
      requires old(TablesOk() && CellsOk())
      requires Cells <= old(Cells) && g in Cells && g.category in Types && Handles == old(Handles)
      requires forall d :: d in Containers && d != Ids(g.category.kind) ==> unchanged(d)
      requires forall x :: x in Cells && x != g ==>
        x.handles == old(x.handles) && x.containers == old(x.containers) &&
        (x in Ids(g.category.kind).values <==> x in old(Ids(g.category.kind).values)) &&
        forall h :: h in x.handles ==> h.ref == old(h.ref)
      requires g.handles <= Handles && forall h :: h in g.handles ==> h.ref == g
      requires g.containers == (if g in Ids(g.category.kind).values then {Ids(g.category.kind)} else {})
      ensures TablesOk() && CellsOk()
    {
    }

    /** The invariant after the cell `ab.1` was merged into the cell `ab.0`
        of the same category and left the module: its handles moved to
        `ab.0`, and the container of the category rebinds as `Merged` says. */
    twostate lemma Absorbed(ab: (GdId, GdId))
      requires old(Valid()) && old(ab.0 in Cells && ab.1 in Cells) && ab.0 != ab.1
      requires ab.0.category == ab.1.category && !ab.1.category.IsConstant(ab.1)
      requires unchanged(Types) && Cells == old(Cells) - {ab.1} && Handles == old(Handles)
      requires unchanged(Containers - {Ids(ab.0.category.kind)})
      requires var c := Ids(ab.0.category.kind);
        c.Bijection() && c.nextFree == old(c.nextFree) &&
        c.values == (if ab.1 in old(c.values) then Merged(old(c.values), ab.1, ab.0) else old(c.values))
      requires ab.0.handles == old(ab.0.handles) + old(ab.1.handles)
      requires ab.0.containers == old(ab.0.containers) + old(ab.1.containers)
      requires forall h :: h in old(ab.1.handles) ==> h.ref == ab.0
      requires unchanged(old(Handles) - old(ab.1.handles)) && unchanged(old(Cells) - {ab.0, ab.1})
      ensures Valid()
    {
      ConstantsWithout(ab.1);
      ContainerUpdated(Ids(ab.0.category.kind));
      CellUpdated(ab.0);
      HandlesMoved(ab.1);
    }

    /** The invariant after a step that moved the cursor of container `c`
        only. */
    twostate lemma CursorMoved(c: GdIdContainer)
      requires old(Valid()) && c in Containers && unchanged(this) && unchanged(Types)
      requires unchanged(Cells) && unchanged(Handles)
      requires forall d :: d in Containers && d != c ==> unchanged(d)
      requires c.values == old(c.values) && c.inverse == old(c.inverse) && c.nextFree >= 1
      ensures Valid()
    {
    }

    /** The invariant after a fresh handle was registered with a known
        cell. */
    twostate lemma HandleAdded(new h: GdIdRef)
      requires old(Valid()) && fresh(h) && h.ref in old(Cells) && h.category == h.ref.category
      requires unchanged(this`Cells) && Handles == old(Handles) + {h}
      requires unchanged(Types) && unchanged(Containers)
      requires var g := h.ref; g.handles == old(g.handles) + {h} && g.containers == old(g.containers)
      requires unchanged(old(Cells) - {h.ref}) && unchanged(old(Handles))
      ensures Valid()
    {
    }

    /** Ghost bookkeeping: a fresh unbound cell joins the module. */
    method AddCell(g: GdId)
      requires Valid() && g !in Cells && g.handles == {} && g.containers == {}
      requires g.category in Types
      requires forall c :: c in Containers ==> g !in c.values
      modifies this
      ensures Valid() && Cells == old(Cells) + {g} && Handles == old(Handles)
    {
      Cells := Cells + {g};
    }

    /** Binds the unbound cell `g` of the container's category to the free
        integer `v`. */
    method Bind(c: GdIdContainer, g: GdId, v: int)
      requires Valid() && c == Ids(c.category.kind) && g.category == c.category
      requires g in Cells && g !in c.values && v !in c.inverse
      modifies c, g
      ensures Valid()
      ensures c.values == old(c.values)[g := v] && c.inverse == old(c.inverse)[v := g]
      ensures g.containers == old(g.containers) + {c} && g.handles == old(g.handles)
      ensures c.nextFree == old(c.nextFree)
    {
      AgreeAdd(c.values, c.inverse, g, v);
      c.values := c.values[g := v];
      c.inverse := c.inverse[v := g];
      g.containers := g.containers + {c};
      KeepConstants();
      KeepHandles();
      ContainerUpdated(c);
      CellUpdated(g);
    }

    /** Drops the binding of `g` in `c`, if any. */
    method Unbind(c: GdIdContainer, g: GdId)
      requires Valid() && c == Ids(c.category.kind) && g.category == c.category && g in Cells
      modifies c, g
      ensures Valid()
      ensures c.values == old(c.values) - {g}
      ensures g in old(c.values) ==> c.inverse == old(c.inverse) - {old(c.values)[g]}
      ensures g !in old(c.values) ==> unchanged(c, g)
      ensures g.containers == old(g.containers) - {c} && g.handles == old(g.handles)
      ensures c.nextFree == old(c.nextFree)
    {
      if g in c.values {
        AgreeRemove(c.values, c.inverse, g);
        c.inverse := c.inverse - {c.values[g]};
        c.values := c.values - {g};
        g.containers := g.containers - {c};
        KeepConstants();
        KeepHandles();
        ContainerUpdated(c);
        CellUpdated(g);
      }
    }
  }

  /** Asking a container twice for the same integer gives handles that compare
      equal. */
  method GetTwice(m: GdModule, c: GdIdContainer, v: int) returns (h1: GdIdRef, h2: GdIdRef)
    requires m.Valid() && c == m.Ids(c.category.kind)
    modifies c, m, m.Cells
    ensures m.Valid() && h1.Eq(h2) && c.Binds(h1.ref, v)
  {
    h1 := c.Get(m, Some(v));
    h2 := c.Get(m, Some(v));
  }

  /** The handle sets `absorb` leaves as written, with `aliased` saying
      whether `other` is `self`: `self` gains `other`'s handles, then
      `other`'s set is cleared, and that is `self`'s own set when the two are
      the same cell. */
  function AbsorbHandlesAsWritten<H>(mine: set<H>, theirs: set<H>, aliased: bool): (r: (set<H>, set<H>))
    requires aliased ==> mine == theirs
    ensures r.1 == {}
    ensures !aliased ==> r.0 == mine + theirs
  {
    if aliased then ({}, {}) else (mine + theirs, {})
  }

  /** Absorbing a cell into itself, as written, unregisters every handle that
      observes it, though each still does. */
  lemma SelfAbsorbDropsHandles<H>(h: H)
    ensures h !in AbsorbHandlesAsWritten({h}, {h}, true).0
  {
  }

  /** `set_value` as written, on the container's bindings and on whether the
      cell lists the container: the old binding is popped and the container is
      listed before the bidict refuses a value bound to another cell, so a
      refused call still changes both. */
  function SetValueAsWritten<K>(values: map<K, int>, listed: bool, g: K, value: Option<int>): (r: (map<K, int>, bool, Outcome))
    ensures r.2.Pass? <==> !(value.Some? && value.value in (values - {g}).Values)
    ensures r.2.Pass? && value.Some? ==> r.0 == values[g := value.value] && (r.1 <==> g !in values || listed)
    ensures r.2.Pass? && value.None? ==> r.0 == values - {g} && (r.1 <==> g !in values && listed)
  {
    var popped := values - {g};
    match value
    case None => (popped, if g in values then false else listed, Pass)
    case Some(v) =>
      var listed' := if g !in values then true else listed;
      if v in popped.Values then (popped, listed', Fail(DuplicationError))
      else (popped[g := v], listed', Pass)
  }

  /** Rebinding cell 1 to the integer 20 that cell 2 holds fails, yet, as
      written, cell 1 has lost its integer 10 and still lists the container. */
  lemma SetValuePartialUpdate()
    ensures var r := SetValueAsWritten(map[1 := 10, 2 := 20], true, 1, Some(20));
      r.2 == Fail(DuplicationError) && r.0 == map[2 := 20] && r.1
  {
    var popped := map[1 := 10, 2 := 20] - {1};
    assert popped == map[2 := 20];
    assert 20 in popped.Values by { assert popped[2] == 20; }
  }
}
