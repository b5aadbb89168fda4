/** maker.py: a `Maker` hands out one item per key, created on first use, and
    every item builds its class from keyword arguments layered over the
    maker's defaults and its own. Positional arguments are turned into
    keywords by signature introspection, which is not part of this model:
    every call here takes keyword arguments. */
module Makers {
  import opened Wrappers
  import Values

  type Kwargs = map<string, Values.Value>

  /** `maker.default_kwargs | item.default_kwargs | kwargs`: every key of the
      three, with the call's value first, then the item's default, then the
      maker's default. */
  function Merged(makerDefaults: Kwargs, itemDefaults: Kwargs, call: Kwargs): (r: Kwargs)
    ensures r.Keys == makerDefaults.Keys + itemDefaults.Keys + call.Keys
    ensures forall k :: k in r ==>
      r[k] == if k in call then call[k] else if k in itemDefaults then itemDefaults[k] else makerDefaults[k]
  {
    makerDefaults + itemDefaults + call
  }

  /** Merging is a left-to-right update: an argument given in the call
      cannot be overridden by a default, and a layer without keys changes
      nothing. */
  lemma MergedLayers(makerDefaults: Kwargs, itemDefaults: Kwargs, call: Kwargs, k: string)
    ensures k in call ==> Merged(makerDefaults, itemDefaults, call)[k] == call[k]
    ensures Merged(makerDefaults, map[], call) == Merged(map[], makerDefaults, call)
    ensures Merged(makerDefaults, itemDefaults, map[]) == Merged(map[], makerDefaults, itemDefaults)
  {
    assert Merged(makerDefaults, map[], call) == makerDefaults + call;
  }

  class Maker {
    var items: map<Values.Value, MakerItem>
    var defaults: Kwargs

    constructor()
      ensures items == map[] && defaults == map[]
    {
      items := map[];
      defaults := map[];
    }

    /** `setup(**kwargs)`: the maker's defaults are replaced, not merged. */
    method Setup(kwargs: Kwargs)
      modifies this
      ensures defaults == kwargs && items == old(items)
    {
      defaults := kwargs;
    }

    /** `maker(key)`: the item for `key`, created with empty defaults on the
        first call and the same item on every later call. */
    method Call(key: Values.Value) returns (item: MakerItem)
      modifies this
      ensures defaults == old(defaults)
      ensures key in old(items) ==> item == old(items)[key] && items == old(items)
      ensures key !in old(items) ==>
        fresh(item) && item.maker == this && item.defaults == map[] && items == old(items)[key := item]
    {
      if key !in items {
        var made := new MakerItem(this);
        items := items[key := made];
      }
      item := items[key];
    }

    /** `maker[key]`: the item made for `key`, a `KeyError` when `maker(key)`
        was never called. */
    method GetItem(key: Values.Value) returns (r: Result<MakerItem>)
      ensures r == if key in items then Ok(items[key]) else Err(KeyError)
    {
      if key in items {
        return Ok(items[key]);
      }
      return Err(KeyError);
    }
  }

  /** `_MakerWrapperItem`. */
  class MakerItem {
    const maker: Maker
    var defaults: Kwargs

    constructor(maker: Maker)
      ensures this.maker == maker && defaults == map[]
    {
      this.maker := maker;
      defaults := map[];
    }

    /** `item.setup(**kwargs)`: the item's defaults are replaced, not
        merged. */
    method Setup(kwargs: Kwargs)
      modifies this
      ensures defaults == kwargs
    {
      defaults := kwargs;
    }

    /** `item(**kwargs)`: the keyword arguments the maker's class is called
        with (the class itself is not modelled). */
    method Call(kwargs: Kwargs) returns (made: Kwargs)
      ensures made == Merged(maker.defaults, defaults, kwargs)
    {
      made := maker.defaults + defaults + kwargs;
    }
  }

  /** `maker[key]` finds the item after `maker(key)`, and a second
      `maker(key)` returns that same item. */
  method MakeThenLookUp(m: Maker, key: Values.Value) returns (first: MakerItem, second: MakerItem, found: Result<MakerItem>)
    modifies m
    ensures first == second && found == Ok(first)
  {
    first := m.Call(key);
    second := m.Call(key);
    found := m.GetItem(key);
  }

  /** The setup in classes/save_szr.py: `key.setup(optimize_key=None)`, then
      `key(int).setup(...)`; a call of `key[int]` sees both layers and its
      own keywords on top. */
  method LayeredSetup(kind: Values.Value, own: Kwargs, call: Kwargs) returns (made: Kwargs)
    ensures made == Merged(map["optimize_key" := Values.NoneV], own, call)
  {
    var maker := new Maker();
    maker.Setup(map["optimize_key" := Values.NoneV]);
    var item := maker.Call(kind);
    item.Setup(own);
    made := item.Call(call);
  }
}
