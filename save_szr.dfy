/** classes/save_szr.py: the level string and the small key codecs of the
    save format. Once decompressed, a level is its settings record, then one
    record per object, then an empty segment, joined with `;`; the settings
    record is flat `key,value,...` pairs. The gzip and base64 layers around
    it, and the level-data serializer (a `MultiField` followed by
    `ToClass`), are not part of this model; the object codec is a parameter
    (it is `GdObjectSerialzier`). */
module SaveSzr {
  import opened Wrappers
  import opened Text
  import opened Funcs
  import Plist
  import GdObjectSzr

  /** The framing of `LevelSerializer.compile`: the settings record, the
      object records in order, and a trailing empty segment, joined with
      `;`. */
  function FrameCompile(settings: string, objects: seq<string>): string {
    Join([settings] + objects + [""], ';')
  }

  /** The framing of `LevelSerializer.analyze`: `settings, *objects, _ =
      data.split(';')`. The first segment is the settings record, the last
      is discarded, the ones between are the objects in order; fewer than two
      segments is the `ValueError` of the unpacking. */
  function FrameAnalyze(data: string): Result<(string, seq<string>)> {
    var parts := Split(data, ';');
    if |parts| < 2 then Err(ValueError)
    else Ok((parts[0], parts[1..|parts| - 1]))
  }

  /** The framing fails exactly when the string holds no `;`. */
  lemma FrameTooShort(data: string)
    ensures FrameAnalyze(data).Err? <==> ';' !in data
  {
    JoinSplit(data, ';');
    if ';' !in data {
      SplitNoSeparator(data, ';');
    }
  }

  /** When no record holds `;`, splitting the compiled string recovers
      exactly the settings and object records that were joined. */
  lemma FrameRoundTrip(settings: string, objects: seq<string>)
    requires ';' !in settings
    requires forall i :: 0 <= i < |objects| ==> ';' !in objects[i]
    ensures FrameAnalyze(FrameCompile(settings, objects)) == Ok((settings, objects))
  {
    var parts := [settings] + objects + [""];
    assert forall i :: 0 <= i < |parts| ==> ';' !in parts[i] by {
      forall i | 0 <= i < |parts|
        ensures ';' !in parts[i]
      {
        if 0 < i < |parts| - 1 {
          assert parts[i] == objects[i - 1];
        }
      }
    }
    SplitJoin(parts, ';');
    assert parts[1..|parts| - 1] == objects;
  }

  /** Compiling what the framing decoded gives the string back exactly when
      its last segment, the one analyze discards, is empty. */
  lemma FrameAnalyzeCompile(data: string)
    requires FrameAnalyze(data).Ok?
    ensures var f := FrameAnalyze(data).value;
      FrameCompile(f.0, f.1) == data <==> Split(data, ';')[|Split(data, ';')| - 1] == ""
  {
    var parts := Split(data, ';');
    var f := FrameAnalyze(data).value;
    JoinSplit(data, ';');
    assert [f.0] + f.1 + [parts[|parts| - 1]] == parts;
    var rebuilt := [f.0] + f.1 + [""];
    if parts[|parts| - 1] == "" {
      assert rebuilt == parts;
    } else {
      assert forall i :: 0 <= i < |rebuilt| ==> ';' !in rebuilt[i] by {
        forall i | 0 <= i < |rebuilt|
          ensures ';' !in rebuilt[i]
        {
          if i < |rebuilt| - 1 {
            assert rebuilt[i] == parts[i];
          }
        }
      }
      SplitJoin(rebuilt, ';');
      assert Split(FrameCompile(f.0, f.1), ';') != parts by {
        assert Split(FrameCompile(f.0, f.1), ';')[|parts| - 1] == "";
      }
    }
  }

  /** `[f(x) for x in xs]` for a codec `f` that may raise: the results in
      order, or the first failure. */
  function MapAll<A, B>(xs: seq<A>, f: A -> Result<B>): (r: Result<seq<B>>)
    ensures r.Ok? <==> forall i :: 0 <= i < |xs| ==> f(xs[i]).Ok?
    ensures r.Ok? ==> |r.value| == |xs| && forall i :: 0 <= i < |xs| ==> r.value[i] == f(xs[i]).value
  {
    if |xs| == 0 then Ok([])
    else
      match f(xs[0])
      case Err(e) => Err(e)
      case Ok(y) =>
        var rest := MapAll(xs[1..], f);
        assert forall i :: 1 <= i < |xs| ==> xs[i] == xs[1..][i - 1];
        match rest
        case Err(e) => Err(e)
        case Ok(ys) => Ok([y] + ys)
  }

  /** The part of a level this serializer frames: its settings record (as
      string pairs) and its objects. */
  datatype LevelData<O> = LevelData(settings: Dict<string, string>, objects: seq<O>)

  /** `LevelSerializer.analyze` on the decompressed string: frame it, read
      the settings with `pairs_to_dict(settings.split(','))`, and decode the
      object records in order. */
  function LevelAnalyze<O>(data: string, decode: string -> Result<O>): Result<LevelData<O>> {
    match FrameAnalyze(data)
    case Err(e) => Err(e)
    case Ok(f) =>
      match MapAll(f.1, decode)
      case Err(e) => Err(e)
      case Ok(objects) => Ok(LevelData(Pairs2Dict(Split(f.0, ',')), objects))
  }

  /** `LevelSerializer.compile` before compression: the objects are encoded
      in order, the settings become `','.join(dict_to_pairs(settings))`, and
      everything is framed. */
  function LevelCompile<O>(level: LevelData<O>, encode: O -> Result<string>): Result<string> {
    match MapAll(level.objects, encode)
    case Err(e) => Err(e)
    case Ok(records) => Ok(FrameCompile(Join(Dict2Pairs(level.settings), ','), records))
  }

  /** No settings key or value holds the record separator `;`. */
  predicate SettingsFit(settings: Dict<string, string>) {
    DistinctKeys(settings) && GdObjectSzr.NoCommas(settings) &&
    forall i :: 0 <= i < |settings| ==> ';' !in settings[i].0 && ';' !in settings[i].1
  }

  /** The joined settings record holds no `;` when no key or value does. */
  lemma {:induction false} SettingsRecordFits(settings: Dict<string, string>)
    requires forall i :: 0 <= i < |settings| ==> ';' !in settings[i].0 && ';' !in settings[i].1
    ensures ';' !in Join(Dict2Pairs(settings), ',')
  {
    var pairs := Dict2Pairs(settings);
    Dict2PairsAt(settings);
    assert forall i :: 0 <= i < |pairs| ==> ';' !in pairs[i] by {
      forall i | 0 <= i < |pairs|
        ensures ';' !in pairs[i]
      {
        var j := i / 2;
        if i % 2 == 0 {
          assert pairs[2 * j] == settings[j].0;
        } else {
          assert pairs[2 * j + 1] == settings[j].1;
        }
      }
    }
    JoinFree(pairs, ',', ';');
  }

  /** A join holds the character `x` only if a part does (the separator is
      another character). */
  lemma {:induction false} JoinFree(parts: seq<string>, c: char, x: char)
    requires c != x
    requires forall i :: 0 <= i < |parts| ==> x !in parts[i]
    ensures x !in Join(parts, c)
    decreases |parts|
  {
    if |parts| > 1 {
      JoinFree(parts[1..], c, x);
      assert forall i :: 1 <= i < |parts| ==> parts[i] == parts[1..][i - 1];
    }
  }

  /** A level whose object codec round-trips and whose records hold no `;`
      is recovered by analyze from what compile produced. */
  lemma LevelRoundTrip<O>(level: LevelData<O>, encode: O -> Result<string>, decode: string -> Result<O>)
    requires SettingsFit(level.settings)
    requires forall i :: 0 <= i < |level.objects| ==> encode(level.objects[i]).Ok?
    requires forall i :: 0 <= i < |level.objects| ==>
      ';' !in encode(level.objects[i]).value && decode(encode(level.objects[i]).value) == Ok(level.objects[i])
    ensures LevelCompile(level, encode).Ok?
    ensures LevelAnalyze(LevelCompile(level, encode).value, decode) == Ok(level)
  {
    var records := MapAll(level.objects, encode).value;
    var settings := Join(Dict2Pairs(level.settings), ',');
    SettingsRecordFits(level.settings);
    FrameRoundTrip(settings, records);
    GdObjectSzr.RecordRoundTrip(level.settings);
    var decoded := MapAll(records, decode);
    assert decoded.Ok?;
    assert decoded.value == level.objects;
  }

  /** `key(int)`'s serializer `Func(int, str)`: `int` of the text, a
      `ValueError` for text `int` refuses. */
  function IntKeyAnalyze(s: string): (r: Result<int>)
    ensures r.Err? ==> r.error == ValueError
  {
    match ParseInt(s)
    case Some(i) => Ok(i)
    case None => Err(ValueError)
  }

  /** `str` of the integer. */
  function IntKeyCompile(i: int): string {
    IntToStr(i)
  }

  /** Every integer survives compile then analyze, and analyze fails exactly
      on the text `int` refuses. */
  lemma IntKeyRoundTrip(i: int, s: string)
    ensures IntKeyAnalyze(IntKeyCompile(i)) == Ok(i)
    ensures IntKeyAnalyze(s).Ok? <==> ParseInt(s).Some?
  {
    ParseIntToStr(i);
  }

  /** `check_llm_03`: nothing for an empty list, and otherwise the value it
      reports (printing is left out). It never raises. */
  function CheckLlm03(data: Plist.Json): (report: Option<Plist.Json>)
    ensures report.None? <==> data == Plist.JList([])
    ensures report.Some? ==> report.value == data
  {
    match data
    case JList(items) => if |items| == 0 then None else Some(data)
    case _ => Some(data)
  }
}
