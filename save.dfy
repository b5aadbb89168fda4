/** classes/save.py: a save holds its levels in a deque, newest first. Levels
    are looked up by name, or by name and revision; adding a level bumps its
    revision in place until no other stored level has the same name and
    revision. */
module Saves {
  import opened Wrappers

  /** `LevelInfo`: the fields the save container reads and writes. */
  class LevelInfo {
    var name: string
    var data: string
    var revision: int
    var description: string

    constructor(name: string, data: string, revision: int, description: string)
      ensures this.name == name && this.data == data
      ensures this.revision == revision && this.description == description
    {
      this.name := name;
      this.data := data;
      this.revision := revision;
      this.description := description;
    }

    /** `LevelInfo.clone`: a deep copy, renamed when a new name is given. The
        original is left as it was. */
    method Clone(newName: Option<string>) returns (copy: LevelInfo)
      ensures fresh(copy)
      ensures copy.name == newName.GetOr(name) && copy.data == data
      ensures copy.revision == revision && copy.description == description
    {
      copy := new LevelInfo(name, data, revision, description);
      if newName.Some? {
        copy.name := newName.value;
      }
    }
  }

  /** The argument of `has` and `get`: a name, or a (name, revision) pair. */
  datatype LevelKey = Named(name: string) | Revised(name: string, revision: int)

  /** `_extract_name_revision`: a name comes with no revision, a pair is
      taken apart. */
  function ExtractNameRevision(k: LevelKey): (string, Option<int>) {
    match k
    case Named(name) => (name, None)
    case Revised(name, revision) => (name, Some(revision))
  }

  /** The argument that `ExtractNameRevision` takes apart into `name` and
      `revision`. */
  function KeyOf(name: string, revision: Option<int>): LevelKey {
    if revision.Some? then Revised(name, revision.value) else Named(name)
  }

  /** The two forms of the argument and the extracted pair correspond one to
      one: a string gives no revision, a pair gives its own. */
  lemma ExtractRoundTrip(k: LevelKey, name: string, revision: Option<int>)
    ensures KeyOf(ExtractNameRevision(k).0, ExtractNameRevision(k).1) == k
    ensures ExtractNameRevision(KeyOf(name, revision)) == (name, revision)
    ensures ExtractNameRevision(k).1.None? <==> k.Named?
  {
  }

  /** A stored level answers a query when the names agree and the query has
      no revision or the same revision. */
  predicate Matches(l: LevelInfo, q: (string, Option<int>))
    reads l
  {
    l.name == q.0 && (q.1.None? || l.revision == q.1.value)
  }

  /** The position of the first level, in deque order, that answers `q`. */
  function FirstMatch(levels: seq<LevelInfo>, q: (string, Option<int>)): (r: Option<nat>)
    reads set l | l in levels
    ensures r.Some? ==> r.value < |levels| && Matches(levels[r.value], q)
    ensures r.Some? ==> forall j :: 0 <= j < r.value ==> !Matches(levels[j], q)
    ensures r.None? ==> forall j :: 0 <= j < |levels| ==> !Matches(levels[j], q)
  {
    if |levels| == 0 then None
    else if Matches(levels[0], q) then Some(0)
    else
      assert forall j :: 1 <= j < |levels| ==> levels[j] == levels[1..][j - 1];
      match FirstMatch(levels[1..], q)
      case Some(i) => Some(i + 1)
      case None => None
  }

  /** The (name, revision) pairs of the stored levels, leaving out the level
      objects in `skip`. */
  function KeysExcept(levels: seq<LevelInfo>, skip: set<LevelInfo>): seq<(string, int)>
    reads set l | l in levels && l !in skip
  {
    if |levels| == 0 then []
    else (if levels[0] in skip then [] else [(levels[0].name, levels[0].revision)]) + KeysExcept(levels[1..], skip)
  }

  /** `KeysExcept` holds exactly the pairs of the levels not skipped. */
  lemma {:induction false} KeysExceptHolds(levels: seq<LevelInfo>, skip: set<LevelInfo>)
    ensures forall i :: 0 <= i < |levels| && levels[i] !in skip ==>
      (levels[i].name, levels[i].revision) in KeysExcept(levels, skip)
    ensures forall k :: k in KeysExcept(levels, skip) ==>
      exists i :: 0 <= i < |levels| && levels[i] !in skip && k == (levels[i].name, levels[i].revision)
  {
    if |levels| > 0 {
      KeysExceptHolds(levels[1..], skip);
      assert forall i :: 1 <= i < |levels| ==> levels[i] == levels[1..][i - 1];
      var head := if levels[0] in skip then [] else [(levels[0].name, levels[0].revision)];
      assert KeysExcept(levels, skip) == head + KeysExcept(levels[1..], skip);
      forall k | k in KeysExcept(levels, skip)
        ensures exists i :: 0 <= i < |levels| && levels[i] !in skip && k == (levels[i].name, levels[i].revision)
      {
        if k !in head {
          var i :| 0 <= i < |levels[1..]| && levels[1..][i] !in skip && k == (levels[1..][i].name, levels[1..][i].revision);
          assert levels[i + 1] == levels[1..][i];
        }
      }
    }
  }

  /** One more than the largest revision among `taken`: no pair in `taken`
      reaches it. */
  function Bound(taken: seq<(string, int)>): (b: int)
    ensures forall k :: k in taken ==> k.1 < b
  {
    if |taken| == 0 then 0
    else
      var b := Bound(taken[1..]);
      assert forall k :: k in taken ==> k == taken[0] || k in taken[1..];
      if taken[0].1 + 1 > b then taken[0].1 + 1 else b
  }

  /** The revision `add` settles on: the least revision from `revision`
      upwards that no pair in `taken` holds for `name`. */
  function NextFree(taken: seq<(string, int)>, name: string, revision: int): (r: int)
    ensures revision <= r && (name, r) !in taken
    ensures forall q :: revision <= q < r ==> (name, q) in taken
    decreases Bound(taken) - revision
  {
    if (name, revision) in taken then NextFree(taken, name, revision + 1) else revision
  }

  /** `Found`: the stored level `get` finds, or the caller's default. */
  datatype Found<T> = Stored(level: LevelInfo) | Fallback(value: T)

  /** `Save`: the levels deque, newest first. */
  class Save {
    var levels: seq<LevelInfo>

    constructor(levels: seq<LevelInfo>)
      ensures this.levels == levels
    {
      this.levels := levels;
    }

    /** `has`: whether some stored level answers the key. */
    method Has(key: LevelKey) returns (b: bool)
      ensures b <==> FirstMatch(levels, ExtractNameRevision(key)).Some?
    {
      var q := ExtractNameRevision(key);
      var i := 0;
      while i < |levels|
        invariant 0 <= i <= |levels|
        invariant forall j :: 0 <= j < i ==> !Matches(levels[j], q)
      {
        if levels[i].name == q.0 && (q.1.None? || levels[i].revision == q.1.value) {
          return true;
        }
        i := i + 1;
      }
      return false;
    }

    /** `get`: the first stored level in deque order that answers the key;
        without one, the default when given and `KeyError` otherwise. */
    method Get<T>(key: LevelKey, default: Option<T>) returns (r: Result<Found<T>>)
      ensures r == match FirstMatch(levels, ExtractNameRevision(key))
        case Some(i) => Ok(Stored(levels[i]))
        case None => if default.Some? then Ok(Fallback(default.value)) else Err(KeyError)
    {
      var q := ExtractNameRevision(key);
      var i := 0;
      while i < |levels|
        invariant 0 <= i <= |levels|
        invariant forall j :: 0 <= j < i ==> !Matches(levels[j], q)
      {
        if levels[i].name == q.0 && (q.1.None? || levels[i].revision == q.1.value) {
          return Ok(Stored(levels[i]));
        }
        i := i + 1;
      }
      if default.Some? {
        return Ok(Fallback(default.value));
      }
      return Err(KeyError);
    }

    /** `add`, corrected so that it always ends: a level that is already
        stored is left where it is, untouched. Any other level has its
        revision raised one at a time until no stored level has the same
        name and revision, and is then put in front. No other level
        changes. */
    method Add(level: LevelInfo)
      modifies this, level
      ensures level in old(levels) ==> levels == old(levels) && unchanged(level)
      ensures level !in old(levels) ==> levels == [level] + old(levels)
      ensures level.name == old(level.name) && level.data == old(level.data)
      ensures level.description == old(level.description)
      ensures level !in old(levels) ==>
        level.revision == NextFree(old(KeysExcept(levels, {})), level.name, old(level.revision))
    {
      if level in levels {
        return;
      }
      // The stored levels do not change while the revision goes up, so the
      // pairs they hold are read once.
      var taken := KeysExcept(levels, {});
      ghost var start := level.revision;
      while (level.name, level.revision) in taken
        invariant start <= level.revision <= NextFree(taken, level.name, start)
        invariant NextFree(taken, level.name, level.revision) == NextFree(taken, level.name, start)
        invariant levels == old(levels) && level.name == old(level.name)
        invariant level.data == old(level.data) && level.description == old(level.description)
        decreases NextFree(taken, level.name, start) - level.revision
      {
        level.revision := level.revision + 1;
      }
      levels := [level] + levels;
    }

    /** `clone`: the level `get` finds (a `KeyError` when there is none) is
        copied, renamed when a new name is given, and the copy is added. The
        level it was copied from is left as it was. */
    method Clone(key: LevelKey, newName: Option<string>) returns (r: Result<LevelInfo>)
      modifies this
      ensures old(FirstMatch(levels, ExtractNameRevision(key))).None? ==>
        r == Err(KeyError) && levels == old(levels)
      ensures old(FirstMatch(levels, ExtractNameRevision(key))).Some? ==>
        var src := old(levels)[old(FirstMatch(levels, ExtractNameRevision(key))).value];
        r.Ok? && fresh(r.value) && levels == [r.value] + old(levels) &&
        r.value.name == newName.GetOr(old(src.name)) && r.value.data == old(src.data) &&
        r.value.description == old(src.description) &&
        r.value.revision == NextFree(old(KeysExcept(levels, {})), r.value.name, old(src.revision)) &&
        unchanged(src)
    {
      ghost var keys := KeysExcept(levels, {});
      var at := FirstMatch(levels, ExtractNameRevision(key));
      if at.None? {
        return Err(KeyError);
      }
      var src := levels[at.value];
      var copy := src.Clone(newName);
      assert KeysExcept(levels, {}) == keys;
      KeysExceptFresh(levels, copy);
      Add(copy);
      return Ok(copy);
    }
  }

  /** Leaving out an object that is not stored leaves every key in place. */
  lemma {:induction false} KeysExceptFresh(levels: seq<LevelInfo>, level: LevelInfo)
    requires level !in levels
    ensures KeysExcept(levels, {level}) == KeysExcept(levels, {})
  {
    if |levels| > 0 {
      assert levels[0] != level;
      KeysExceptFresh(levels[1..], level);
    }
  }

  /** The guard `has((name, revision))` of `add` holds exactly when some
      stored level has that pair. */
  lemma HasPair(levels: seq<LevelInfo>, name: string, revision: int)
    ensures FirstMatch(levels, ExtractNameRevision(Revised(name, revision))).Some? <==>
      (name, revision) in KeysExcept(levels, {})
  {
    KeysExceptHolds(levels, {});
    if (name, revision) in KeysExcept(levels, {}) {
      var i :| 0 <= i < |levels| && (name, revision) == (levels[i].name, levels[i].revision);
      assert Matches(levels[i], (name, Some(revision)));
    }
  }

  /** For a level that is not stored yet, the source's loop guard asks
      exactly whether one of the OTHER stored levels holds the pair, so on
      such a level the corrected `add` does what the source does. */
  lemma AddGuardAgrees(levels: seq<LevelInfo>, level: LevelInfo, revision: int)
    requires level !in levels
    ensures FirstMatch(levels, ExtractNameRevision(Revised(level.name, revision))).Some? <==>
      (level.name, revision) in KeysExcept(levels, {level})
  {
    HasPair(levels, level.name, revision);
    KeysExceptFresh(levels, level);
  }

  /** As written, `add(level)` for a level that is already stored never
      leaves its loop: the level matches its own name and revision, whatever
      the revision has been bumped to. */
  lemma AddAsWrittenNeverExits(s: Save, level: LevelInfo)
    requires level in s.levels
    ensures FirstMatch(s.levels, ExtractNameRevision(Revised(level.name, level.revision))).Some?
  {
    var i :| 0 <= i < |s.levels| && s.levels[i] == level;
    assert Matches(s.levels[i], (level.name, Some(level.revision)));
  }

  /** After `add` the new level's revision is at least its old one, unique
      for its name among the other stored levels, and every revision it
      skipped was held by another level. */
  lemma AddedRevisionUnique(taken: seq<(string, int)>, name: string, revision: int)
    ensures revision <= NextFree(taken, name, revision)
    ensures (name, NextFree(taken, name, revision)) !in taken
    ensures forall q :: revision <= q < NextFree(taken, name, revision) ==> (name, q) in taken
    ensures (name, revision) !in taken ==> NextFree(taken, name, revision) == revision
  {
  }
}
