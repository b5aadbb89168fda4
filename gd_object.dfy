/** classes/gd_object.py: the two ways an object carries its id. A
    `SpecialId` subclass gets a class-level `__id__` when it is created,
    looked up by class name in the `special_ids` table unless it already
    inherits one; its `id` property reads that class attribute and cannot be
    assigned. `GdObjectAnyId` instead keeps `id` as an ordinary field of each
    instance. */
module GdObjects {
  import opened Wrappers

  /** `special_ids` is a `bidict` from object id to class name: ids and names
      are both distinct. The table is given as its items in order. */
  predicate NamesDistinct(special: seq<(int, string)>) {
    forall i, j :: 0 <= i < j < |special| ==> special[i].1 != special[j].1
  }

  /** `special_ids.inv[name]`: the id whose class name is `name`. */
  function IdForName(special: seq<(int, string)>, name: string): (r: Option<int>)
    ensures r.Some? ==> (r.value, name) in special
    ensures r.None? ==> forall i :: 0 <= i < |special| ==> special[i].1 != name
  {
    if |special| == 0 then None
    else if special[0].1 == name then Some(special[0].0)
    else
      var r := IdForName(special[1..], name);
      assert forall i :: 1 <= i < |special| ==> special[i] == special[1..][i - 1];
      r
  }

  /** In a bidict every name has exactly one id, and `inv` finds it. */
  lemma {:induction false} IdForNameUnique(special: seq<(int, string)>, name: string, id: int)
    requires NamesDistinct(special)
    ensures IdForName(special, name) == Some(id) <==> (id, name) in special
  {
    if |special| > 0 && special[0].1 != name {
      assert NamesDistinct(special[1..]) by {
        forall i, j | 0 <= i < j < |special[1..]|
          ensures special[1..][i].1 != special[1..][j].1
        {
          assert special[1..][i] == special[i + 1] && special[1..][j] == special[j + 1];
        }
      }
      IdForNameUnique(special[1..], name, id);
      if (id, name) in special {
        var k :| 0 <= k < |special| && special[k] == (id, name);
        assert k > 0 && special[1..][k - 1] == (id, name);
      }
    } else if |special| > 0 && (id, name) in special {
      var k :| 0 <= k < |special| && special[k] == (id, name);
      assert k == 0;
    }
  }

  /** What `getattr(cls, '__id__', None)` finds when the class body does not
      set `__id__`: the first class of the MRO (the class itself excluded)
      that defines it. `SpecialId` defines it as `None`; a class created as
      a `SpecialId` subclass defines it as its id; other classes do not
      define it. `ids` holds the classes created so far. */
  function InheritedId(ids: map<string, int>, mro: seq<string>): (r: Option<int>)
    ensures r.Some? ==> exists i :: 0 <= i < |mro| && mro[i] in ids && r.value == ids[mro[i]]
  {
    if |mro| == 0 || mro[0] == "SpecialId" then None
    else if mro[0] in ids then Some(ids[mro[0]])
    else
      var r := InheritedId(ids, mro[1..]);
      assert r.Some? ==> exists i :: 1 <= i < |mro| && mro[i] in ids && r.value == ids[mro[i]] by {
        if r.Some? {
          var i :| 0 <= i < |mro[1..]| && mro[1..][i] in ids && r.value == ids[mro[1..][i]];
          assert mro[i + 1] == mro[1..][i];
        }
      }
      r
  }

  /** `__init_subclass__`: the id a new `SpecialId` subclass ends up with. A
      class body's own `__id__`, or an inherited one, is kept; otherwise the
      class name is looked up in `special_ids`, and a missing name is the
      `KeyError` of `bidict.inv`. */
  function AssignedId(own: Option<int>, inherited: Option<int>, name: string, special: seq<(int, string)>)
    : (r: Result<int>)
    ensures own.Some? ==> r == Ok(own.value)
    ensures own.None? && inherited.Some? ==> r == Ok(inherited.value)
    ensures own.None? && inherited.None? && r.Ok? ==> (r.value, name) in special
    ensures own.None? && inherited.None? && r.Err? ==>
      r.error == KeyError && forall i :: 0 <= i < |special| ==> special[i].1 != name
  {
    if own.Some? then Ok(own.value)
    else if inherited.Some? then Ok(inherited.value)
    else match IdForName(special, name)
      case Some(id) => Ok(id)
      case None => Err(KeyError)
  }

  /** The `SpecialId` subclasses created so far and their class attribute
      `__id__`. */
  class SpecialClasses {
    var ids: map<string, int>
    const special: seq<(int, string)>

    /** No subclass yet: only `SpecialId` itself, whose `__id__` is `None`. */
    constructor(special: seq<(int, string)>)
      ensures this.special == special && ids == map[]
    {
      this.special := special;
      ids := map[];
    }

    /** Creating the class `name` whose MRO after itself is `mro`, with `own`
        the `__id__` its body sets, if any. On a `KeyError` the class is not
        created. */
    method InitSubclass(name: string, own: Option<int>, mro: seq<string>) returns (r: Outcome)
      modifies this
      ensures var a := AssignedId(own, InheritedId(old(ids), mro), name, special);
        (r == Pass <==> a.Ok?) &&
        (a.Ok? ==> ids == old(ids)[name := a.value]) &&
        (a.Err? ==> ids == old(ids) && r == Fail(KeyError))
    {
      var inherited := InheritedId(ids, mro);
      var outcome := AssignedId(own, inherited, name, special);
      match outcome
      case Ok(id) =>
        ids := ids[name := id];
        r := Pass;
      case Err(e) =>
        r := Fail(e);
    }

    /** The `id` property of an instance of class `name`: the class's
        `__id__`. */
    function Id(name: string): int
      reads this
      requires name in ids
    {
      ids[name]
    }

    /** Assigning `id` on a `SpecialId` instance always raises
        `AttributeError` and changes nothing. */
    method SetId(name: string, id: int) returns (r: Outcome)
      ensures r == Fail(AttributeError)
    {
      r := Fail(AttributeError);
    }
  }

  /** A subclass whose body does not set `__id__` and whose first MRO entry
      is an already created `SpecialId` subclass keeps that parent's id, even
      when its own name is in `special_ids` with another id. */
  lemma ChildKeepsParentId(ids: map<string, int>, parent: string, rest: seq<string>, name: string,
                           special: seq<(int, string)>)
    requires parent in ids && parent != "SpecialId"
    ensures AssignedId(None, InheritedId(ids, [parent] + rest), name, special) == Ok(ids[parent])
  {
  }

  /** A direct subclass of `SpecialId` gets the id `special_ids` gives its
      name, and creating it fails exactly when the name is absent. */
  lemma DirectSubclassId(ids: map<string, int>, rest: seq<string>, name: string, special: seq<(int, string)>, id: int)
    requires NamesDistinct(special)
    ensures AssignedId(None, InheritedId(ids, ["SpecialId"] + rest), name, special) == Ok(id) <==> (id, name) in special
    ensures AssignedId(None, InheritedId(ids, ["SpecialId"] + rest), name, special).Err? <==>
      forall i :: 0 <= i < |special| ==> special[i].1 != name
  {
    IdForNameUnique(special, name, id);
  }

  /** `GdObjectAnyId`: `id` is an ordinary field of each instance. */
  class AnyIdObject {
    var id: int

    constructor(id: int)
      ensures this.id == id
    {
      this.id := id;
    }

    /** Assigning `id` stores it on this instance only. */
    method SetId(id: int)
      modifies this
      ensures this.id == id
    {
      this.id := id;
    }
  }

  /** Two `GdObjectAnyId` instances carry independent ids, while every
      instance of a `SpecialId` subclass reads the one class attribute. */
  method IdsPerInstance(classes: SpecialClasses, name: string) returns (a: int, b: int, s: int, t: int)
    requires name in classes.ids
    ensures a == 1 && b == 2 && s == t == classes.ids[name]
  {
    var x := new AnyIdObject(1);
    var y := new AnyIdObject(1);
    y.SetId(2);
    a, b := x.id, y.id;
    var denied := classes.SetId(name, 5);
    s, t := classes.Id(name), classes.Id(name);
  }
}
