/** classes/gd_id.py: the `Group`, `Block` and `Item` handle constructors. Each
    takes an integer or `None` to the category's `create`, takes a value that
    converts to its own category (a handle of that category, whose conversion
    method returns itself) to that handle, and refuses anything else. */
module GdIds {
  import opened Wrappers
  import opened Identity

  /** The argument of a handle constructor, by its Python type. */
  datatype Arg = IntArg(i: int) | NoneArg | HandleArg(h: GdIdRef) | OtherArg

  /** `Group(value)`, `Block(value)`, `Item(value)`: the `__new__` of the
      handle class of `kind`. `active` says whether a module is in context. */
  method New(m: GdModule, active: bool, kind: Kind, value: Arg) returns (r: Result<GdIdRef>)
    requires m.Valid() && (value.HandleArg? ==> value.h in m.Handles)
    modifies m, m.Cells, m.Ids(kind)
    ensures m.Valid()
    ensures value.NoneArg? ==> r.Ok? && fresh(r.value.ref) && r.value.ref.containers == {}
    ensures value.IntArg? && value.i in m.TypeOf(kind).constants ==>
      r.Ok? && r.value.ref == m.TypeOf(kind).constants[value.i]
    ensures value.IntArg? && value.i !in m.TypeOf(kind).constants ==>
      if active then r.Ok? && m.Ids(kind).Binds(r.value.ref, value.i) else r == Err(RuntimeError)
    ensures value.IntArg? && value.i !in m.TypeOf(kind).constants && active && value.i in old(m.Ids(kind).inverse) ==>
      r.value.ref == old(m.Ids(kind).inverse)[value.i] && m.Ids(kind).values == old(m.Ids(kind).values)
    ensures value.IntArg? && value.i !in m.TypeOf(kind).constants && active && value.i !in old(m.Ids(kind).inverse) ==>
      fresh(r.value.ref) && m.Ids(kind).values == old(m.Ids(kind).values)[r.value.ref := value.i]
    ensures value.IntArg? || value.NoneArg? ==> r.Ok? ==> r.value in m.Handles && r.value.category == m.TypeOf(kind)
    ensures value.HandleArg? ==>
      r == (if value.h.category.kind == kind then Ok(value.h) else Err(TypeError))
    ensures value.OtherArg? ==> r == Err(TypeError)
    ensures value.HandleArg? || value.OtherArg? ==> unchanged(m) && unchanged(m.Ids(kind))
  {
    match value {
      case IntArg(i) =>
        r := m.TypeOf(kind).Create(m, active, Some(i));
      case NoneArg =>
        r := m.TypeOf(kind).Create(m, active, None);
      case HandleArg(h) =>
        r := if h.category.kind == kind then Ok(h) else Err(TypeError);
      case OtherArg =>
        r := Err(TypeError);
    }
  }
}
