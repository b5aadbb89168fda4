/** tools/plist.py: the conversion between the property-list element tree of a
    save file and JSON-like values. The element tree is abstract: an element
    has a tag, an optional text and children; XML parsing and printing are
    not part of this model. A float is carried as its decimal text. */
module Plist {
  import opened Wrappers
  import opened Text
  import opened Funcs

  datatype Element = Element(tag: string, text: Option<string>, children: seq<Element>)

  /** A dict key is the text of a `<k>` element, absent (`None`) when the
      element has no text. */
  type Key = Option<string>

  datatype Json =
    | JBool(b: bool)
    | JStr(s: string)
    | JInt(i: int)
    | JFloat(repr: string)
    | JList(items: seq<Json>)
    | JDict(entries: Dict<Key, Json>)
    | JOther  // any value of another Python type

  /** `xml_elem(tag, text)`: a falsy text (absent or empty) is not set. */
  function Leaf(tag: string, text: Option<string>): (e: Element)
    ensures e.tag == tag && e.children == []
    ensures e.text.Some? <==> text.Some? && text.value != ""
    ensures e.text.Some? ==> e.text == text
  {
    Element(tag, if text.Some? && text.value != "" then text else None, [])
  }

  /** Python truthiness of a decoded value. A float is true when its text has
      a non-zero digit. */
  predicate Truthy(v: Json) {
    match v
    case JBool(b) => b
    case JStr(s) => s != ""
    case JInt(i) => i != 0
    case JFloat(r) => exists k :: 0 <= k < |r| && '1' <= r[k] <= '9'
    case JList(items) => items != []
    case JDict(entries) => entries != []
    case JOther => true
  }

  /** The key of the `i`-th list element, `f'k_{i}'`. */
  function KeyName(i: nat): string {
    "k_" + IntToStr(i)
  }

  /** `_xml_to_json(element)`. */
  function Decode(e: Element): Result<Json>
    decreases e
  {
    if e.tag == "t" || e.tag == "true" then Ok(JBool(true))
    else if e.tag == "f" || e.tag == "false" then Ok(JBool(false))
    else if e.tag == "s" then Ok(JStr(e.text.GetOr("")))
    else if e.tag == "i" then
      if e.text.None? then Err(TypeError)
      else
        match ParseInt(e.text.value)
        case None => Err(ValueError)
        case Some(i) => Ok(JInt(i))
    else if e.tag == "r" then
      if e.text.None? then Err(TypeError) else Ok(JFloat(e.text.value))
    else if e.tag != "d" && e.tag != "dict" then Err(ValueError)
    else DecodeDict(e.children)
  }

  /** The children of a `<d>` or `<dict>` element, read as a dict comprehension
      (a repeated key keeps its first position and takes the last value); a
      truthy `_isArr` entry turns the dict into the list of its `k_i` values. */
  function DecodeDict(ch: seq<Element>): Result<Json>
    decreases ch, 1
  {
    var pairs :- DecodeEntries(ch);
    var d := DictOf(pairs);
    var isArr := Lookup(d, Some("_isArr"));
    if isArr.None? || !Truthy(isArr.value) then Ok(JDict(d))
    else
      var items :- ArrayItems(d, 0, |d| - 1);
      Ok(JList(items))
  }

  /** The key/value pairs of a dict element, read as alternating children by
      a strict `zip` over one iterator: pairs are decoded in order, and a
      dangling last child raises ValueError once every pair before it has
      been decoded. */
  function DecodeEntries(ch: seq<Element>): Result<seq<(Key, Json)>>
    decreases ch, 0
  {
    if |ch| == 0 then Ok([])
    else if |ch| == 1 then Err(ValueError)
    else
      var v :- Decode(ch[1]);
      var rest :- DecodeEntries(ch[2..]);
      Ok([(ch[0].text, v)] + rest)
  }

  /** `[d[f'k_{i}'] for i in range(lo, hi)]`; a missing key raises KeyError. */
  function ArrayItems(d: Dict<Key, Json>, lo: int, hi: int): Result<seq<Json>>
    requires 0 <= lo
    decreases hi - lo
  {
    if lo >= hi then Ok([])
    else
      match Lookup(d, Some(KeyName(lo)))
      case None => Err(KeyError)
      case Some(v) =>
        var rest :- ArrayItems(d, lo + 1, hi);
        Ok([v] + rest)
  }

  /** The `<k>` element of a dict key. */
  function KeyElem(k: Key): Element {
    Leaf("k", k)
  }

  /** `_json_to_xml(value)`: a list is written as the dict
      `{'_isArr': True, 'k_0': v_0, ...}`; a value of another type raises
      TypeError. */
  function Encode(v: Json): Result<Element>
    decreases v, Width(v) + 1
  {
    match v
    case JBool(b) => Ok(Leaf(if b then "t" else "f", None))
    case JStr(s) => Ok(Leaf("s", Some(s)))
    case JInt(i) => Ok(Leaf("i", Some(IntToStr(i))))
    case JFloat(r) => Ok(Leaf("r", Some(r)))
    case JList(items) =>
      var ch :- EncodeItems(items, 0);
      Ok(Element("d", None, [KeyElem(Some("_isArr")), Leaf("t", None)] + ch))
    case JDict(entries) =>
      var ch :- EncodeEntries(v, 0);
      Ok(Element("d", None, ch))
    case JOther => Err(TypeError)
  }

  function Width(v: Json): nat {
    if v.JDict? then |v.entries| else 0
  }

  /** The children written for list elements `k_start, k_start+1, ...`. */
  function EncodeItems(items: seq<Json>, start: nat): Result<seq<Element>>
    decreases items
  {
    if |items| == 0 then Ok([])
    else
      var ev :- Encode(items[0]);
      var rest :- EncodeItems(items[1..], start + 1);
      Ok([KeyElem(Some(KeyName(start))), ev] + rest)
  }

  /** The children written for the entries of dict `v` from the `i`-th on: a
      key element, then the value. */
  function EncodeEntries(v: Json, i: nat): Result<seq<Element>>
    requires v.JDict? && i <= |v.entries|
    decreases v, |v.entries| - i
  {
    if i == |v.entries| then Ok([])
    else
      var ev :- Encode(v.entries[i].1);
      var rest :- EncodeEntries(v, i + 1);
      Ok([KeyElem(v.entries[i].0), ev] + rest)
  }

  /** The values that survive a round trip: no value of another type, float
      texts that are not empty, and dicts with distinct keys, none of them
      empty or `_isArr`. */
  predicate WellFormed(v: Json)
    decreases v
  {
    match v
    case JFloat(r) => r != ""
    case JList(items) => forall i :: 0 <= i < |items| ==> WellFormed(items[i])
    case JDict(entries) =>
      DistinctKeys(entries) &&
      forall i :: 0 <= i < |entries| ==>
        entries[i].0 != Some("") && entries[i].0 != Some("_isArr") && WellFormed(entries[i].1)
    case JOther => false
    case _ => true
  }

  /** The pairs a list decodes to before it becomes a list again. */
  function ArrPairs(items: seq<Json>, start: nat): (r: Dict<Key, Json>)
    ensures |r| == |items|
  {
    seq(|items|, i requires 0 <= i < |items| => (Some(KeyName(start + i)), items[i]))
  }

  lemma KeyNameFacts(i: nat, j: nat)
    ensures |KeyName(i)| > 2 && KeyName(i)[0] == 'k'
    ensures KeyName(i) != "" && KeyName(i) != "_isArr"
    ensures KeyName(i) == KeyName(j) ==> i == j
  {
    ParseIntToStr(i);
    ParseIntToStr(j);
    ParseNatToStr(i);
    assert KeyName(i)[2..] == IntToStr(i);
    assert KeyName(j)[2..] == IntToStr(j);
    assert KeyName(i)[0] == 'k';
  }

  /** Decoding one key/value pair of children, then the rest. */
  lemma DecodeEntriesStep(k: Element, ev: Element, rest: seq<Element>)
    ensures DecodeEntries([k, ev] + rest) ==
      if Decode(ev).Err? then Err(Decode(ev).error)
      else if DecodeEntries(rest).Err? then Err(DecodeEntries(rest).error)
      else Ok([(k.text, Decode(ev).value)] + DecodeEntries(rest).value)
  {
    assert ([k, ev] + rest)[2..] == rest;
  }

  lemma {:induction false} EncodeItemsRoundTrip(items: seq<Json>, start: nat)
    requires forall i :: 0 <= i < |items| ==> WellFormed(items[i])
    ensures EncodeItems(items, start).Ok?
    ensures DecodeEntries(EncodeItems(items, start).value) == Ok(ArrPairs(items, start))
    decreases items, 0
  {
    if |items| > 0 {
      RoundTrip(items[0]);
      EncodeItemsRoundTrip(items[1..], start + 1);
      KeyNameFacts(start, start);
      var ev := Encode(items[0]).value;
      var rest := EncodeItems(items[1..], start + 1).value;
      var k := KeyElem(Some(KeyName(start)));
      assert EncodeItems(items, start).value == [k, ev] + rest;
      DecodeEntriesStep(k, ev, rest);
      assert k.text == Some(KeyName(start));
      ArrPairsCons(items, start);
    }
  }

  lemma ArrPairsCons(items: seq<Json>, start: nat)
    requires |items| > 0
    ensures ArrPairs(items, start) == [(Some(KeyName(start)), items[0])] + ArrPairs(items[1..], start + 1)
  {
    var r := [(Some(KeyName(start)), items[0])] + ArrPairs(items[1..], start + 1);
    forall i | 0 <= i < |items|
      ensures ArrPairs(items, start)[i] == r[i]
    {
      if i > 0 {
        assert r[i] == ArrPairs(items[1..], start + 1)[i - 1];
      }
    }
  }

  lemma {:induction false} EncodeEntriesRoundTrip(v: Json, i: nat)
    requires v.JDict? && i <= |v.entries|
    requires forall j :: 0 <= j < |v.entries| ==> v.entries[j].0 != Some("") && WellFormed(v.entries[j].1)
    ensures EncodeEntries(v, i).Ok?
    ensures DecodeEntries(EncodeEntries(v, i).value) == Ok(v.entries[i..])
    decreases v, |v.entries| - i
  {
    if i < |v.entries| {
      RoundTrip(v.entries[i].1);
      EncodeEntriesRoundTrip(v, i + 1);
      var ev := Encode(v.entries[i].1).value;
      var rest := EncodeEntries(v, i + 1).value;
      var k := KeyElem(v.entries[i].0);
      assert EncodeEntries(v, i).value == [k, ev] + rest;
      DecodeEntriesStep(k, ev, rest);
      assert k.text == v.entries[i].0;
      assert v.entries[i..] == [(v.entries[i].0, v.entries[i].1)] + v.entries[i + 1..];
    } else {
      assert v.entries[i..] == [];
    }
  }

  lemma {:induction false} ArrayItemsLookup(d: Dict<Key, Json>, items: seq<Json>, lo: nat)
    requires d == [(Some("_isArr"), JBool(true))] + ArrPairs(items, 0)
    requires lo <= |items|
    requires DistinctKeys(d)
    ensures ArrayItems(d, lo, |items|) == Ok(items[lo..])
    decreases |items| - lo
  {
    if lo < |items| {
      LookupSome(d, Some(KeyName(lo)));
      assert d[lo + 1].0 == Some(KeyName(lo));
      assert Lookup(d, Some(KeyName(lo))) == Some(items[lo]);
      ArrayItemsLookup(d, items, lo + 1);
      assert items[lo..] == [items[lo]] + items[lo + 1..];
    }
  }

  lemma ListPairsDistinct(items: seq<Json>)
    ensures DistinctKeys([(Some("_isArr"), JBool(true))] + ArrPairs(items, 0))
  {
    var pairs := [(Some("_isArr"), JBool(true))] + ArrPairs(items, 0);
    forall i, j | 0 <= i < j < |pairs|
      ensures pairs[i].0 != pairs[j].0
    {
      KeyNameFacts(j - 1, if i == 0 then 0 else i - 1);
    }
  }

  /** The list form of a decoded dict whose `_isArr` entry is true and whose
      `k_i` entries hold the items. */
  lemma ListPairsDecode(items: seq<Json>, ch: seq<Element>)
    requires DecodeEntries(ch) == Ok([(Some("_isArr"), JBool(true))] + ArrPairs(items, 0))
    ensures DecodeDict(ch) == Ok(JList(items))
  {
    var pairs := [(Some("_isArr"), JBool(true))] + ArrPairs(items, 0);
    ListPairsDistinct(items);
    DictOfDistinct(pairs);
    assert pairs[0] == (Some("_isArr"), JBool(true));
    LookupSome(pairs, Some("_isArr"));
    ArrayItemsLookup(pairs, items, 0);
    assert items[0..] == items;
  }

  lemma {:induction false} ListRoundTrip(items: seq<Json>)
    requires forall i :: 0 <= i < |items| ==> WellFormed(items[i])
    ensures Encode(JList(items)).Ok?
    ensures Decode(Encode(JList(items)).value) == Ok(JList(items))
    decreases items, 1
  {
    EncodeItemsRoundTrip(items, 0);
    var rest := EncodeItems(items, 0).value;
    var t := Leaf("t", None);
    var k := KeyElem(Some("_isArr"));
    var ch := [k, t] + rest;
    assert Encode(JList(items)) == Ok(Element("d", None, ch));
    assert Decode(Element("d", None, ch)) == DecodeDict(ch);
    assert Decode(t) == Ok(JBool(true));
    DecodeEntriesStep(k, t, rest);
    ListPairsDecode(items, ch);
  }

  lemma {:induction false} DictRoundTrip(v: Json)
    requires v.JDict? && WellFormed(v)
    ensures Encode(v).Ok? && Decode(Encode(v).value) == Ok(v)
    decreases v, |v.entries| + 1
  {
    EncodeEntriesRoundTrip(v, 0);
    assert v.entries[0..] == v.entries;
    DictOfDistinct(v.entries);
    LookupSome(v.entries, Some("_isArr"));
  }

  /** Decoding the encoding of a well-formed value gives the value back. */
  lemma {:induction false} RoundTrip(v: Json)
    requires WellFormed(v)
    ensures Encode(v).Ok? && Decode(Encode(v).value) == Ok(v)
    decreases v, Width(v) + 2
  {
    match v
    case JBool(b) =>
    case JStr(s) =>
    case JInt(i) =>
      ParseIntToStr(i);
      ParseNatToStr(if i < 0 then -i else i);
    case JFloat(r) =>
    case JList(items) =>
      ListRoundTrip(items);
    case JDict(entries) =>
      DictRoundTrip(v);
  }

  /** An empty dict key is written as a `<k>` element without text and reads
      back as an absent key. */
  lemma EmptyKeyReadsAsNone()
    ensures Encode(JDict([(Some(""), JInt(0))])).Ok?
    ensures Decode(Encode(JDict([(Some(""), JInt(0))])).value) == Ok(JDict([(None, JInt(0))]))
  {
    var v := JDict([(Some(""), JInt(0))]);
    ParseIntToStr(0);
    ParseNatToStr(0);
    var ev := Encode(JInt(0)).value;
    assert Decode(ev) == Ok(JInt(0));
    DecodeEntriesStep(KeyElem(Some("")), ev, []);
  }

  /** An odd number of children in a dict element always fails; when every
      value decodes, the failure is the ValueError of the strict `zip`. */
  lemma {:induction false} OddChildrenFail(ch: seq<Element>)
    requires |ch| % 2 == 1
    ensures DecodeEntries(ch).Err?
    ensures (forall i :: 0 <= i < |ch| / 2 ==> Decode(ch[2 * i + 1]).Ok?) ==> DecodeEntries(ch) == Err(ValueError)
    decreases ch
  {
    if |ch| > 1 {
      OddChildrenFail(ch[2..]);
      if forall i :: 0 <= i < |ch| / 2 ==> Decode(ch[2 * i + 1]).Ok? {
        assert Decode(ch[2 * 0 + 1]).Ok?;
        forall i | 0 <= i < |ch[2..]| / 2
          ensures Decode(ch[2..][2 * i + 1]).Ok?
        {
          assert ch[2..][2 * i + 1] == ch[2 * (i + 1) + 1];
        }
      }
    }
  }
}
