/** Layer metadata and card-display settings (src/pynspd/schemas/layer_configs.py):
    the geometry-type and key-type code maps, the key-value prefix handling of
    card and title fields, and the title unpacking of a card payload. */
module LayerConfigs {
  import opened Wrappers
  import opened Seqs

  /** `Literal["Polygon", "LineString", "Point", "GeometryCollection"]`. */
  datatype GeometryType = Polygon | LineString | Point | GeometryCollection

  /** Why validating a layer-config record fails. A failed lookup in one of the
      alias dicts is a `KeyError` that escapes pydantic; a failed `assert` becomes
      a collected validation error; calling a string method on None is an
      `AttributeError`. */
  datatype ConfigError =
    | UnknownGeometryCode(code: string)
    | UnknownKeyTypeCode(code: string)
    | KeyValueWithoutPrefix(keyValue: string)
    | KeyValueIsNone

  /** `_geometry_type_validator`: the server's upper-case codes. */
  function GeometryTypeFromCode(v: string): (r: Result<GeometryType, ConfigError>)
    ensures r.Ok? <==> v in {"POLYGON", "LINESTRING", "POINT", "MULTITYPE"}
    ensures r.Err? ==> r.error == UnknownGeometryCode(v)
  {
    if v == "POLYGON" then Ok(Polygon)
    else if v == "LINESTRING" then Ok(LineString)
    else if v == "POINT" then Ok(Point)
    else if v == "MULTITYPE" then Ok(GeometryCollection)
    else Err(UnknownGeometryCode(v))
  }

  /** `_geometry_type_serializer`: back to the server's code. */
  function GeometryTypeToCode(g: GeometryType): (code: string)
    ensures code in {"POLYGON", "LINESTRING", "POINT", "MULTITYPE"}
  {
    match g
    case Polygon => "POLYGON"
    case LineString => "LINESTRING"
    case Point => "POINT"
    case GeometryCollection => "MULTITYPE"
  }

  /** Serializing a validated code gives the code back. */
  lemma CodeRoundTrip(v: string)
    requires GeometryTypeFromCode(v).Ok?
    ensures GeometryTypeToCode(GeometryTypeFromCode(v).value) == v
  {
  }

  /** Validating a serialized type gives the type back. */
  lemma TypeRoundTrip(g: GeometryType)
    ensures GeometryTypeFromCode(GeometryTypeToCode(g)) == Ok(g)
  {
  }

  /** `LayerNode`: the metadata every generated layer class carries. */
  datatype LayerNode = LayerNode(
    title: string,
    layerTreeId: int,
    layerId: int,
    geometryType: GeometryType,
    layerName: string,
    layerVisibleByDefault: bool,
    categoryId: int)

  /** The Python type a card field is generated with; `StrOrFloat` is the
      `"Union[str, float]"` that `_update_mistyped_data` writes. */
  datatype KeyType = Str | Float | Datetime | StrOrFloat

  /** `_key_type_validator`: text and href are strings, number a float, date a datetime. */
  function KeyTypeFromCode(v: string): (r: Result<KeyType, ConfigError>)
    ensures r == Ok(Str) <==> v in {"text", "href"}
    ensures r == Ok(Float) <==> v == "number"
    ensures r == Ok(Datetime) <==> v == "date"
    ensures r.Err? <==> v !in {"text", "href", "number", "date"}
    ensures r != Ok(StrOrFloat)
  {
    if v == "text" || v == "href" then Ok(Str)
    else if v == "number" then Ok(Float)
    else if v == "date" then Ok(Datetime)
    else Err(UnknownKeyTypeCode(v))
  }

  /** The prefix every card key path on the server carries. */
  const OptionsPrefix: string := "properties.options."

  /** Unicode White_Space, the set `str_strip_whitespace` trims. */
  predicate IsSpace(c: char)
  {
    || c in {' ', '\t', '\n', '\U{B}', '\U{C}', '\r', '\U{85}', '\U{A0}', '\U{1680}',
             '\U{2028}', '\U{2029}', '\U{202F}', '\U{205F}', '\U{3000}'}
    || ('\U{2000}' <= c <= '\U{200A}')
  }

  function TrimStart(s: string): (r: string)
    ensures |r| <= |s| && r == s[|s| - |r|..]
    ensures r == [] || !IsSpace(r[0])
    ensures forall k :: 0 <= k < |s| - |r| ==> IsSpace(s[k])
  {
    if s != [] && IsSpace(s[0]) then TrimStart(s[1..]) else s
  }

  function TrimEnd(s: string): (r: string)
    ensures |r| <= |s| && r == s[..|r|]
    ensures r == [] || !IsSpace(r[|r| - 1])
    ensures forall k :: |r| <= k < |s| ==> IsSpace(s[k])
  {
    if s != [] && IsSpace(s[|s| - 1]) then TrimEnd(s[..|s| - 1]) else s
  }

  /** `str_strip_whitespace`: pydantic-core's trim of Unicode White_Space from
      both ends. The result is the infix of `s` left once only whitespace has
      been removed on each side. */
  function Strip(s: string): (r: string)
    ensures r == [] || (!IsSpace(r[0]) && !IsSpace(r[|r| - 1]))
    ensures var i := |s| - |TrimStart(s)|;
      i + |r| <= |s| && r == s[i..i + |r|]
      && (forall k :: 0 <= k < i ==> IsSpace(s[k]))
      && (forall k :: i + |r| <= k < |s| ==> IsSpace(s[k]))
  {
    TrimEnd(TrimStart(s))
  }

  /** `s.replace(pat, "")`: every non-overlapping occurrence, scanning left to
      right, is deleted; the text left behind is not scanned again. */
  function RemoveAll(s: string, pat: string): (r: string)
    requires pat != []
    ensures |r| <= |s|
    decreases |s|
  {
    if |s| < |pat| then s
    else if pat <= s then RemoveAll(s[|pat|..], pat)
    else [s[0]] + RemoveAll(s[1..], pat)
  }

  /** Text without an occurrence of the pattern is left as it is. */
  lemma {:induction false} RemoveAllAbsent(s: string, pat: string)
    requires pat != [] && !Contains(s, pat)
    ensures RemoveAll(s, pat) == s
    decreases |s|
  {
    if |s| >= |pat| {
      assert !(pat <= s);
      RemoveAllAbsent(s[1..], pat);
    }
  }

  /** For a key of the usual shape, the prefix followed by a path that does not
      repeat it, the validator leaves exactly the path. */
  lemma StripOptionsPrefix(rest: string)
    requires !Contains(rest, OptionsPrefix)
    ensures RemoveAll(OptionsPrefix + rest, OptionsPrefix) == rest
  {
    var s := OptionsPrefix + rest;
    assert OptionsPrefix <= s;
    assert s[|OptionsPrefix|..] == rest;
    RemoveAllAbsent(rest, OptionsPrefix);
  }

  /** Deleting the pattern never creates text that was not there: the result
      is a subsequence of the input. */
  lemma {:induction false} RemoveAllIsSubsequence(s: string, pat: string)
    requires pat != []
    ensures IsSubsequence(RemoveAll(s, pat), s)
    decreases |s|
  {
    if |s| < |pat| {
      var mask := seq(|s|, _ => true);
      PickAll(s, mask);
    } else if pat <= s {
      RemoveAllIsSubsequence(s[|pat|..], pat);
      var m :| |m| == |s[|pat|..]| && RemoveAll(s[|pat|..], pat) == Pick(s[|pat|..], m);
      var mask := seq(|pat|, _ => false) + m;
      PickSkip(s, |pat|, m);
    } else {
      RemoveAllIsSubsequence(s[1..], pat);
      var m :| |m| == |s[1..]| && RemoveAll(s[1..], pat) == Pick(s[1..], m);
      assert Pick(s, [true] + m) == [s[0]] + Pick(s[1..], m) by {
        assert ([true] + m)[1..] == m;
      }
    }
  }

  /** `TitleField`: the key a card title is read from. */
  datatype TitleField = TitleField(prefix: string, keyValue: Option<string>, defaultValue: string)

  /** `TitleField` validation: a key outside the options becomes None. An
      explicit null reaches the validator as None, whose `startswith` fails;
      an absent key, which has no default, is rejected as missing before the
      validator runs. Both end validation with an error, `KeyValueIsNone`. */
  function ValidateTitleField(prefix: string, keyValue: Option<string>, defaultValue: string): (r: Result<TitleField, ConfigError>)
    ensures keyValue.None? <==> r == Err(KeyValueIsNone)
    ensures r.Ok? ==> r.value.prefix == prefix && r.value.defaultValue == defaultValue
    ensures r.Ok? ==> (r.value.keyValue.None? <==> !(OptionsPrefix <= keyValue.value))
    ensures r.Ok? && r.value.keyValue.Some? ==> r.value.keyValue.value == RemoveAll(keyValue.value, OptionsPrefix)
  {
    match keyValue
    case None => Err(KeyValueIsNone)
    case Some(v) =>
      if !(OptionsPrefix <= v) then Ok(TitleField(prefix, None, defaultValue))
      else Ok(TitleField(prefix, Some(RemoveAll(v, OptionsPrefix)), defaultValue))
  }

  /** A card field as the server sends it, before validation. */
  datatype RawCardField = RawCardField(
    keyName: string, keyValue: string, keyType: string, padding: bool,
    defaultValue: string, showEmpty: bool, prefix: Option<string>, postfix: Option<string>)

  /** `CardField`: one displayed property of a layer's card. */
  datatype CardField = CardField(
    keyName: string, keyValue: string, keyType: KeyType, padding: bool,
    defaultValue: string, showEmpty: bool, prefix: Option<string>, postfix: Option<string>)

  function StripOpt(s: Option<string>): Option<string>
  {
    if s.Some? then Some(Strip(s.value)) else None
  }

  /** The "_area" marker that makes a text field numeric in practice. */
  const AreaMarker: string := "_area"

  /** `CardField` validation: strings are stripped; the key type code is looked
      up (an unknown code is a `KeyError` that escapes, whatever else fails);
      the key must start with the options prefix, which is then deleted; finally
      `_update_mistyped_data` widens a text field whose key mentions "_area". */
  function ValidateCardField(raw: RawCardField): (r: Result<CardField, ConfigError>)
    ensures KeyTypeFromCode(raw.keyType).Err? ==> r == Err(UnknownKeyTypeCode(raw.keyType))
    ensures KeyTypeFromCode(raw.keyType).Ok? && !(OptionsPrefix <= Strip(raw.keyValue)) ==>
      r == Err(KeyValueWithoutPrefix(Strip(raw.keyValue)))
    ensures r.Ok? ==> OptionsPrefix <= Strip(raw.keyValue)
    ensures r.Ok? ==> r.value.keyValue == RemoveAll(Strip(raw.keyValue), OptionsPrefix)
    ensures r.Ok? ==> (r.value.keyName == Strip(raw.keyName) && r.value.defaultValue == Strip(raw.defaultValue)
                       && r.value.prefix == StripOpt(raw.prefix) && r.value.postfix == StripOpt(raw.postfix)
                       && r.value.padding == raw.padding && r.value.showEmpty == raw.showEmpty)
    ensures r.Ok? ==> (r.value.keyType == StrOrFloat <==>
      KeyTypeFromCode(raw.keyType) == Ok(Str) && Contains(r.value.keyValue, AreaMarker))
    ensures r.Ok? && r.value.keyType != StrOrFloat ==> Ok(r.value.keyType) == KeyTypeFromCode(raw.keyType)
  {
    var keyValue := Strip(raw.keyValue);
    match KeyTypeFromCode(raw.keyType)
    case Err(e) => Err(e)
    case Ok(kt) =>
      if !(OptionsPrefix <= keyValue) then Err(KeyValueWithoutPrefix(keyValue))
      else
        var path := RemoveAll(keyValue, OptionsPrefix);
        var keyType := if kt == Str && Contains(path, AreaMarker) then StrOrFloat else kt;
        Ok(CardField(Strip(raw.keyName), path, keyType, raw.padding, Strip(raw.defaultValue),
                     raw.showEmpty, StripOpt(raw.prefix), StripOpt(raw.postfix)))
  }

  /** A JSON value as `r.json()` decodes it. */
  datatype Json =
    | JObject(entries: map<string, Json>)
    | JArray(items: seq<Json>)
    | JString(s: string)
    | JNumber(n: int)
    | JBool(b: bool)
    | JNull

  /** Why `_unpack_title` fails: the key is absent (`KeyError`), the value has no
      `len` (`TypeError`), the length is not one (the assertion, a validation
      error), or a one-entry object cannot be indexed by 0 (`KeyError`). */
  datatype UnpackError = MissingTitle | TitleWithoutLength | TitleNotSingle(length: nat) | TitleNotIndexable

  /** What `_unpack_title` puts under "title": the only element of a one-element
      list (or the only character of a one-character string). */
  function UnpackedTitle(data: map<string, Json>): (r: Result<Json, UnpackError>)
    ensures "title" !in data ==> r == Err(MissingTitle)
    ensures r.Ok? ==> ("title" in data &&
                       (|| (data["title"].JArray? && data["title"].items == [r.value])
                        || (data["title"].JString? && |data["title"].s| == 1 && r.value == JString(data["title"].s))))
    ensures "title" in data && data["title"].JArray? ==> (r.Ok? <==> |data["title"].items| == 1)
  {
    if "title" !in data then Err(MissingTitle)
    else match data["title"]
      case JArray(items) => if |items| == 1 then Ok(items[0]) else Err(TitleNotSingle(|items|))
      case JString(s) => if |s| == 1 then Ok(JString([s[0]])) else Err(TitleNotSingle(|s|))
      case JObject(entries) => if |entries| == 1 then Err(TitleNotIndexable) else Err(TitleNotSingle(|entries|))
      case JNumber(_) => Err(TitleWithoutLength)
      case JBool(_) => Err(TitleWithoutLength)
      case JNull => Err(TitleWithoutLength)
  }

  /** The raw card payload that `Card`'s before-validator receives and rewrites. */
  class CardPayload {
    var data: map<string, Json>

    constructor (data: map<string, Json>)
      ensures this.data == data
    {
      this.data := data;
    }

    /** `Card._unpack_title`: replaces the one-element "title" list in place by
        its element; on failure the payload is left as it was. */
    method UnpackTitle() returns (err: Option<UnpackError>)
      modifies this
      ensures UnpackedTitle(old(data)).Ok? ==> err.None? && data == old(data)["title" := UnpackedTitle(old(data)).value]
      ensures UnpackedTitle(old(data)).Err? ==> err == Some(UnpackedTitle(old(data)).error) && data == old(data)
    {
      if "title" !in data {
        return Some(MissingTitle);
      }
      var title := data["title"];
      var n: nat;
      match title {
        case JArray(items) => n := |items|;
        case JString(s) => n := |s|;
        case JObject(entries) => n := |entries|;
        case JNumber(_) => return Some(TitleWithoutLength);
        case JBool(_) => return Some(TitleWithoutLength);
        case JNull => return Some(TitleWithoutLength);
      }
      if n != 1 {
        return Some(TitleNotSingle(n));
      }
      match title {
        case JArray(items) => data := data["title" := items[0]];
        case JString(s) => data := data["title" := JString([s[0]])];
        case JObject(_) => return Some(TitleNotIndexable);
      }
      err := None;
    }
  }
}
