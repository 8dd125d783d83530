/** Feature property records (src/pynspd/schemas/properties.py): the layer-specific
    option bag with its human-readable dump, and the top-level property record. */
module Properties {
  import opened Wrappers

  /** A JSON-like property value as Python's `model_dump()` produces it. Only
      strings can ever equal a search query; nested models dump to dicts. */
  datatype Value = Str(s: string) | Int(i: int) | Bool(b: bool) | Null | Nested

  /** A declared pydantic field of an options model: its Python name, the key it
      is read from (its alias, or its own name), its description, its default. */
  datatype FieldDecl = FieldDecl(name: string, alias: string, description: Option<string>, default: Value)

  /** `no_coords: Annotated[bool, Field(alias="geocoderObject", default=False)]`:
      no description, so it never reaches the human-readable dump. */
  const NoCoordsField: FieldDecl := FieldDecl("no_coords", "geocoderObject", None, Bool(false))

  /** An options object: the declared fields with their values (same order), and
      the extra, undeclared keys that `extra="allow"` keeps, in input order. */
  datatype OptionProperties = OptionProperties(fields: seq<FieldDecl>, values: seq<Value>, extra: seq<(string, Value)>)

  predicate IsDeclaredName(fields: seq<FieldDecl>, k: string)
  {
    exists i :: 0 <= i < |fields| && fields[i].name == k
  }

  predicate IsAlias(fields: seq<FieldDecl>, k: string)
  {
    exists i :: 0 <= i < |fields| && fields[i].alias == k
  }

  /** What a model class and its validation guarantee: distinct field names (a
      class namespace), one value per declared field, and extra keys that are
      distinct (they come from a dict) and are not the name of a declared field. */
  predicate WellFormed(p: OptionProperties)
  {
    && NamesUnique(p.fields)
    && |p.values| == |p.fields|
    && (forall j :: 0 <= j < |p.extra| ==> !IsDeclaredName(p.fields, p.extra[j].0))
    && (forall a, b :: 0 <= a < b < |p.extra| ==> p.extra[a].0 != p.extra[b].0)
  }

  /** The value a declared field takes from a JSON object: the entry under its
      alias if there is one, else its default. */
  function FieldValue(f: FieldDecl, input: map<string, Value>): (v: Value)
    ensures f.alias !in input ==> v == f.default
    ensures f.alias in input ==> v == input[f.alias]
  {
    if f.alias in input then input[f.alias] else f.default
  }

  function FieldValues(fields: seq<FieldDecl>, input: map<string, Value>): (vs: seq<Value>)
    ensures |vs| == |fields|
    ensures forall i :: 0 <= i < |fields| ==> vs[i] == FieldValue(fields[i], input)
  {
    if fields == [] then [] else [FieldValue(fields[0], input)] + FieldValues(fields[1..], input)
  }

  /** The dict `json.loads` builds from a JSON object's entries: a later
      duplicate key overwrites the value of an earlier one. */
  function ToMap(input: seq<(string, Value)>): map<string, Value>
  {
    if input == [] then map[] else ToMap(input[..|input| - 1])[input[|input| - 1].0 := input[|input| - 1].1]
  }

  /** The keys `extra="allow"` keeps: those of the loaded dict that are neither a
      declared name nor an alias, each once, at the position of its first
      occurrence (a dict keeps a key where it was first inserted). */
  function ExtraKeys(fields: seq<FieldDecl>, input: seq<(string, Value)>): (ks: seq<string>)
    ensures forall a, b :: 0 <= a < b < |ks| ==> ks[a] != ks[b]
    ensures forall k :: k in ks <==> (k in ToMap(input) && !IsDeclaredName(fields, k) && !IsAlias(fields, k))
    decreases |input|
  {
    if input == [] then []
    else
      var ks := ExtraKeys(fields, input[..|input| - 1]);
      var k := input[|input| - 1].0;
      if k in ks || IsDeclaredName(fields, k) || IsAlias(fields, k) then ks else ks + [k]
  }

  /** The extras of a validated options object: each extra key with its value
      in the loaded dict, that is, the last value the input gives it. */
  function ExtraEntries(fields: seq<FieldDecl>, input: seq<(string, Value)>): (e: seq<(string, Value)>)
    ensures forall j :: 0 <= j < |e| ==> !IsDeclaredName(fields, e[j].0) && !IsAlias(fields, e[j].0)
    ensures forall j :: 0 <= j < |e| ==> e[j].0 in ToMap(input) && e[j].1 == ToMap(input)[e[j].0]
    ensures forall a, b :: 0 <= a < b < |e| ==> e[a].0 != e[b].0
    ensures forall k :: k in ToMap(input) && !IsDeclaredName(fields, k) && !IsAlias(fields, k) ==>
      exists j :: 0 <= j < |e| && e[j].0 == k
  {
    var ks := ExtraKeys(fields, input);
    var m := ToMap(input);
    var e := seq(|ks|, j requires 0 <= j < |ks| => (ks[j], m[ks[j]]));
    assert forall j :: 0 <= j < |ks| ==> e[j].0 == ks[j];
    assert forall k :: k in ks ==> exists j :: 0 <= j < |ks| && ks[j] == k;
    e
  }

  /** Validation of an options object from a JSON object given as its entries
      in order: declared fields read the loaded dict, and the remaining keys
      are kept as extras with their last value. */
  function ParseOptions(fields: seq<FieldDecl>, input: seq<(string, Value)>): (p: OptionProperties)
    requires NamesUnique(fields)
    ensures WellFormed(p)
    ensures p.fields == fields
    ensures forall i :: 0 <= i < |fields| ==> p.values[i] == FieldValue(fields[i], ToMap(input))
    ensures forall j :: 0 <= j < |p.extra| ==> p.extra[j].0 in ToMap(input) && p.extra[j].1 == ToMap(input)[p.extra[j].0]
    ensures forall k :: k in ToMap(input) && !IsDeclaredName(fields, k) && !IsAlias(fields, k) ==>
      exists j :: 0 <= j < |p.extra| && p.extra[j].0 == k
  {
    OptionProperties(fields, FieldValues(fields, ToMap(input)), ExtraEntries(fields, input))
  }

  /** A key repeated in the input is one extra, with its last value. */
  lemma {:induction false} RepeatedKeyOneExtra(fields: seq<FieldDecl>, input: seq<(string, Value)>, k: string, v: Value)
    requires NamesUnique(fields)
    requires !IsDeclaredName(fields, k) && !IsAlias(fields, k)
    ensures exists j :: (0 <= j < |ParseOptions(fields, input + [(k, v)]).extra|
      && ParseOptions(fields, input + [(k, v)]).extra[j] == (k, v))
    ensures forall a :: (0 <= a < |ParseOptions(fields, input + [(k, v)]).extra|
      && ParseOptions(fields, input + [(k, v)]).extra[a].0 == k) ==> ParseOptions(fields, input + [(k, v)]).extra[a].1 == v
  {
    var input' := input + [(k, v)];
    assert input'[..|input'| - 1] == input;
    assert ToMap(input')[k] == v;
    var p := ParseOptions(fields, input');
    var j :| 0 <= j < |p.extra| && p.extra[j].0 == k;
    assert p.extra[j] == (k, v);
  }

  /** Python attribute access on a validated model: a declared field's value
      by its name, else the extra under that key, else `AttributeError`
      (None). The dump lists the declared fields before the extras. */
  function Attr(p: OptionProperties, name: string): (r: Option<Value>)
    requires |p.values| == |p.fields|
  {
    Lookup(Dump(p), name)
  }

  /** The value of the first entry under `k`, if any. */
  function Lookup(pairs: seq<(string, Value)>, k: string): (r: Option<Value>)
    ensures r.None? <==> forall j :: 0 <= j < |pairs| ==> pairs[j].0 != k
    ensures r.Some? ==> exists j :: (0 <= j < |pairs| && pairs[j] == (k, r.value)
      && forall i :: 0 <= i < j ==> pairs[i].0 != k)
  {
    if pairs == [] then None
    else if pairs[0].0 == k then Some(pairs[0].1)
    else
      assert forall j :: 0 <= j < |pairs| - 1 ==> pairs[1..][j] == pairs[j + 1];
      Lookup(pairs[1..], k)
  }

  /** The first entry under `k` gives the lookup's value. */
  lemma LookupFirst(pairs: seq<(string, Value)>, i: nat, k: string)
    requires i < |pairs| && pairs[i].0 == k
    requires forall i' :: 0 <= i' < i ==> pairs[i'].0 != k
    ensures Lookup(pairs, k) == Some(pairs[i].1)
  {
    var r := Lookup(pairs, k);
    var j :| 0 <= j < |pairs| && pairs[j] == (k, r.value) && forall i' :: 0 <= i' < j ==> pairs[i'].0 != k;
    assert j == i;
  }

  /** A declared name reads that field's value. */
  lemma AttrOfDeclared(fields: seq<FieldDecl>, input: seq<(string, Value)>, i: nat)
    requires NamesUnique(fields) && i < |fields|
    ensures Attr(ParseOptions(fields, input), fields[i].name) == Some(FieldValue(fields[i], ToMap(input)))
  {
    var p := ParseOptions(fields, input);
    var d := Dump(p);
    assert d[i] == (fields[i].name, p.values[i]);
    LookupFirst(d, i, fields[i].name);
  }

  /** An extra is read by its key: no declared field and no other extra
      shares it. */
  lemma AttrOfExtraEntry(p: OptionProperties, j: nat)
    requires WellFormed(p) && j < |p.extra|
    ensures Attr(p, p.extra[j].0) == Some(p.extra[j].1)
  {
    var d := Dump(p);
    var n := |p.fields|;
    var name := p.extra[j].0;
    assert d == DeclaredPairs(p.fields, p.values) + p.extra;
    assert d[n + j] == p.extra[j];
    forall i' | 0 <= i' < n + j ensures d[i'].0 != name {
      if i' < n {
        assert d[i'].0 == p.fields[i'].name;
      } else {
        assert d[i'] == p.extra[i' - n];
      }
    }
    LookupFirst(d, n + j, name);
  }

  /** A name that is neither declared nor an extra key raises `AttributeError`. */
  lemma AttrOfAbsent(p: OptionProperties, name: string)
    requires WellFormed(p) && !IsDeclaredName(p.fields, name)
    requires forall j :: 0 <= j < |p.extra| ==> p.extra[j].0 != name
    ensures Attr(p, name).None?
  {
    var d := Dump(p);
    var n := |p.fields|;
    assert d == DeclaredPairs(p.fields, p.values) + p.extra;
    forall i' | 0 <= i' < |d| ensures d[i'].0 != name {
      if i' < n {
        assert d[i'].0 == p.fields[i'].name;
      } else {
        assert d[i'] == p.extra[i' - n];
      }
    }
  }

  /** Attribute access on an options object validated from a JSON object: an
      undeclared name reads the loaded dict, and raises `AttributeError` when
      the key is absent or is only an alias. */
  lemma AttrOfParsed(fields: seq<FieldDecl>, input: seq<(string, Value)>, name: string)
    requires NamesUnique(fields) && !IsDeclaredName(fields, name)
    ensures !IsAlias(fields, name) && name in ToMap(input) ==>
      Attr(ParseOptions(fields, input), name) == Some(ToMap(input)[name])
    ensures IsAlias(fields, name) || name !in ToMap(input) ==>
      Attr(ParseOptions(fields, input), name).None?
  {
    var p := ParseOptions(fields, input);
    if !IsAlias(fields, name) && name in ToMap(input) {
      var j :| 0 <= j < |p.extra| && p.extra[j].0 == name;
      AttrOfExtraEntry(p, j);
    } else {
      AttrOfAbsent(p, name);
    }
  }

  /** `no_coords` is read from `geocoderObject` and is False when that key is absent. */
  lemma NoCoordsDefault(fields: seq<FieldDecl>, input: seq<(string, Value)>, i: nat)
    requires NamesUnique(fields)
    requires i < |fields| && fields[i] == NoCoordsField
    ensures "geocoderObject" !in ToMap(input) ==> ParseOptions(fields, input).values[i] == Bool(false)
    ensures "geocoderObject" in ToMap(input) ==> ParseOptions(fields, input).values[i] == ToMap(input)["geocoderObject"]
  {
  }

  /** `model_dump()`: declared fields in declaration order, then the extras. */
  function Dump(p: OptionProperties): (d: seq<(string, Value)>)
    requires |p.values| == |p.fields|
    ensures |d| == |p.fields| + |p.extra|
  {
    DeclaredPairs(p.fields, p.values) + p.extra
  }

  function DeclaredPairs(fields: seq<FieldDecl>, values: seq<Value>): (d: seq<(string, Value)>)
    requires |values| == |fields|
    ensures |d| == |fields|
    ensures forall i :: 0 <= i < |d| ==> d[i] == (fields[i].name, values[i])
  {
    if fields == [] then [] else [(fields[0].name, values[0])] + DeclaredPairs(fields[1..], values[1..])
  }

  /** A description is "truthy" in Python when it is present and non-empty. */
  predicate Described(f: FieldDecl)
  {
    f.description.Some? && f.description.value != ""
  }

  /** `{k: v.description for k, v in model_fields.items() if v.description}`. */
  function AliasMap(fields: seq<FieldDecl>): (m: map<string, string>)
    ensures forall k :: k in m <==> exists i :: 0 <= i < |fields| && fields[i].name == k && Described(fields[i])
    decreases |fields|
  {
    if fields == [] then map[]
    else
      var last := fields[|fields| - 1];
      var m := AliasMap(fields[..|fields| - 1]);
      assert forall i :: 0 <= i < |fields| - 1 ==> fields[..|fields| - 1][i] == fields[i];
      if Described(last) then m[last.name := last.description.value] else m
  }

  /** `{alias[k]: v for k, v in data.items() if k in alias}`: later entries
      overwrite earlier ones with the same key. */
  function Aliased<K>(pairs: seq<(string, Value)>, alias: map<string, K>): map<K, Value>
    decreases |pairs|
  {
    if pairs == [] then map[]
    else
      var last := pairs[|pairs| - 1];
      var m := Aliased(pairs[..|pairs| - 1], alias);
      if last.0 in alias then m[alias[last.0] := last.1] else m
  }

  /** `OptionProperties.model_dump_human_readable` (properties.py): every key
      is the non-empty description of a declared field, never an option key. */
  function HumanReadable(p: OptionProperties): (r: map<string, Value>)
    requires |p.values| == |p.fields|
    ensures forall d :: d in r ==>
      exists i :: 0 <= i < |p.fields| && Described(p.fields[i]) && p.fields[i].description.value == d
  {
    AliasedDescribed(Dump(p), p.fields);
    Aliased(Dump(p), AliasMap(p.fields))
  }

  /** A key of the aliased map comes from some aliased entry of the data. */
  lemma AliasedOrigin<K>(pairs: seq<(string, Value)>, alias: map<string, K>, d: K)
    requires d in Aliased(pairs, alias)
    ensures exists j :: 0 <= j < |pairs| && pairs[j].0 in alias && alias[pairs[j].0] == d
  {
    AliasedKeys(pairs, alias);
  }

  /** Whatever the data, aliasing through the description map only produces
      descriptions of described fields. */
  lemma {:induction false} AliasedDescribed(pairs: seq<(string, Value)>, fields: seq<FieldDecl>)
    ensures forall d :: d in Aliased(pairs, AliasMap(fields)) ==>
      exists i :: 0 <= i < |fields| && Described(fields[i]) && fields[i].description.value == d
  {
    var alias := AliasMap(fields);
    AliasedKeys(pairs, alias);
    forall d | d in Aliased(pairs, alias)
      ensures exists i :: 0 <= i < |fields| && Described(fields[i]) && fields[i].description.value == d
    {
      var j :| 0 <= j < |pairs| && pairs[j].0 in alias && alias[pairs[j].0] == d;
      AliasMapValue(fields, pairs[j].0);
    }
  }

  /** Aliasing only ever produces keys that are values of the alias map, and
      every aliased key of the data produces one. */
  lemma {:induction false} AliasedKeys<K>(pairs: seq<(string, Value)>, alias: map<string, K>)
    ensures forall d: K :: d in Aliased(pairs, alias) <==>
      exists j :: 0 <= j < |pairs| && pairs[j].0 in alias && alias[pairs[j].0] == d
    decreases |pairs|
  {
    if pairs != [] {
      var init := pairs[..|pairs| - 1];
      AliasedKeys(init, alias);
      assert forall j :: 0 <= j < |init| ==> init[j] == pairs[j];
    }
  }

  /** Entries whose key is not aliased can be dropped without changing the result. */
  lemma {:induction false} AliasedIgnoresUnaliased<K>(pairs: seq<(string, Value)>, rest: seq<(string, Value)>, alias: map<string, K>)
    requires forall j :: 0 <= j < |rest| ==> rest[j].0 !in alias
    ensures Aliased(pairs + rest, alias) == Aliased(pairs, alias)
    decreases |rest|
  {
    if rest != [] {
      var init := rest[..|rest| - 1];
      assert (pairs + rest)[..|pairs + rest| - 1] == pairs + init;
      AliasedIgnoresUnaliased(pairs, init, alias);
    } else {
      assert pairs + rest == pairs;
    }
  }

  /** Extra, undeclared option keys never reach the human-readable dump: the
      result is the same as for the object without extras. */
  lemma ExtrasIgnored(p: OptionProperties)
    requires WellFormed(p)
    ensures HumanReadable(p) == HumanReadable(p.(extra := []))
  {
    var alias := AliasMap(p.fields);
    forall j | 0 <= j < |p.extra| ensures p.extra[j].0 !in alias {
      assert !IsDeclaredName(p.fields, p.extra[j].0);
    }
    var pairs := DeclaredPairs(p.fields, p.values);
    AliasedIgnoresUnaliased(pairs, p.extra, alias);
    AliasedIgnoresUnaliased(pairs, [], alias);
    assert Dump(p) == pairs + p.extra;
    assert Dump(p.(extra := [])) == pairs + [];
  }

  /** The human-readable keys are exactly the descriptions of the declared
      fields that have a non-empty description. */
  lemma HumanReadableKeys(p: OptionProperties)
    requires WellFormed(p)
    ensures forall d :: d in HumanReadable(p) <==>
      exists i :: 0 <= i < |p.fields| && Described(p.fields[i]) && p.fields[i].description.value == d
  {
    HumanReadableKeysComplete(p);
  }

  lemma HumanReadableKeysComplete(p: OptionProperties)
    requires WellFormed(p)
    ensures forall i :: 0 <= i < |p.fields| && Described(p.fields[i]) ==>
      p.fields[i].description.value in HumanReadable(p)
  {
    ExtrasIgnored(p);
    var q := p.(extra := []);
    var pairs := DeclaredPairs(p.fields, p.values);
    assert Dump(q) == pairs;
    AliasedKeys(pairs, AliasMap(p.fields));
    forall i | 0 <= i < |p.fields| && Described(p.fields[i])
      ensures p.fields[i].description.value in HumanReadable(p)
    {
      AliasMapOfUnique(p.fields, i);
      assert pairs[i].0 == p.fields[i].name;
    }
  }

  predicate NamesUnique(fields: seq<FieldDecl>)
  {
    forall i, j :: 0 <= i < j < |fields| ==> fields[i].name != fields[j].name
  }

  /** Every value of the alias map is the description of a declared field of that name. */
  lemma {:induction false} AliasMapValue(fields: seq<FieldDecl>, k: string)
    requires k in AliasMap(fields)
    ensures exists i :: (0 <= i < |fields| && fields[i].name == k && Described(fields[i])
                         && fields[i].description.value == AliasMap(fields)[k])
    decreases |fields|
  {
    var last := fields[|fields| - 1];
    var init := fields[..|fields| - 1];
    if Described(last) && k == last.name {
      assert fields[|fields| - 1] == last;
    } else {
      AliasMapValue(init, k);
      var i :| 0 <= i < |init| && init[i].name == k && Described(init[i]) && init[i].description.value == AliasMap(init)[k];
      assert fields[i] == init[i];
    }
  }

  lemma {:induction false} AliasMapOfUnique(fields: seq<FieldDecl>, i: nat)
    requires NamesUnique(fields)
    requires i < |fields| && Described(fields[i])
    ensures fields[i].name in AliasMap(fields)
    ensures AliasMap(fields)[fields[i].name] == fields[i].description.value
    decreases |fields|
  {
    var init := fields[..|fields| - 1];
    if i < |fields| - 1 {
      assert init[i] == fields[i];
      AliasMapOfUnique(init, i);
    }
  }

  /** The aliased value of `d` is that of the last entry aliased to `d`. */
  lemma {:induction false} AliasedLast<K>(pairs: seq<(string, Value)>, alias: map<string, K>, j: nat)
    requires j < |pairs| && pairs[j].0 in alias
    requires forall k :: j < k < |pairs| ==> !(pairs[k].0 in alias && alias[pairs[k].0] == alias[pairs[j].0])
    ensures alias[pairs[j].0] in Aliased(pairs, alias)
    ensures Aliased(pairs, alias)[alias[pairs[j].0]] == pairs[j].1
    decreases |pairs|
  {
    var init := pairs[..|pairs| - 1];
    if j < |pairs| - 1 {
      assert init[j] == pairs[j];
      forall k | j < k < |init| ensures !(init[k].0 in alias && alias[init[k].0] == alias[init[j].0]) {
        assert init[k] == pairs[k];
      }
      AliasedLast(init, alias, j);
    }
  }

  /** Changing an entry whose key is not aliased changes nothing. */
  lemma {:induction false} AliasedIgnoresEntry<K>(pairs: seq<(string, Value)>, alias: map<string, K>, i: nat, v: Value)
    requires i < |pairs| && pairs[i].0 !in alias
    ensures Aliased(pairs[i := (pairs[i].0, v)], alias) == Aliased(pairs, alias)
    decreases |pairs|
  {
    var pairs' := pairs[i := (pairs[i].0, v)];
    if i < |pairs| - 1 {
      assert pairs'[..|pairs'| - 1] == pairs[..|pairs| - 1][i := (pairs[i].0, v)];
      AliasedIgnoresEntry(pairs[..|pairs| - 1], alias, i, v);
    } else {
      assert pairs'[..|pairs'| - 1] == pairs[..|pairs| - 1];
    }
  }

  /** Each human-readable value is the dumped value of the field carrying that
      description (the last one, when several fields share a description, as the
      dict comprehension overwrites). */
  lemma HumanReadableValue(p: OptionProperties, i: nat)
    requires WellFormed(p)
    requires i < |p.fields| && Described(p.fields[i])
    requires forall k :: i < k < |p.fields| && Described(p.fields[k]) ==>
      p.fields[k].description.value != p.fields[i].description.value
    ensures p.fields[i].description.value in HumanReadable(p)
    ensures HumanReadable(p)[p.fields[i].description.value] == p.values[i]
  {
    ExtrasIgnored(p);
    var pairs := DeclaredPairs(p.fields, p.values);
    var alias := AliasMap(p.fields);
    assert Dump(p.(extra := [])) == pairs + [];
    assert pairs + [] == pairs;
    AliasMapOfUnique(p.fields, i);
    forall k | i < k < |pairs| ensures !(pairs[k].0 in alias && alias[pairs[k].0] == alias[pairs[i].0]) {
      if pairs[k].0 in alias {
        AliasMapValue(p.fields, pairs[k].0);
        var k' :| 0 <= k' < |p.fields| && p.fields[k'].name == pairs[k].0 && Described(p.fields[k'])
          && p.fields[k'].description.value == alias[pairs[k].0];
        assert k' == k;
      }
    }
    AliasedLast(pairs, alias, i);
  }

  /** A declared field without a description (such as `no_coords`) never shows
      in the human-readable dump: its value does not affect the result. */
  lemma UndescribedInvisible(p: OptionProperties, i: nat, v: Value)
    requires WellFormed(p)
    requires i < |p.fields| && !Described(p.fields[i])
    ensures HumanReadable(p.(values := p.values[i := v])) == HumanReadable(p)
  {
    var alias := AliasMap(p.fields);
    var q := p.(values := p.values[i := v]);
    assert p.fields[i].name !in alias by {
      forall k | 0 <= k < |p.fields| && p.fields[k].name == p.fields[i].name ensures !Described(p.fields[k]) {
        assert k == i;
      }
    }
    assert Dump(q) == Dump(p)[i := (p.fields[i].name, v)];
    AliasedIgnoresEntry(Dump(p), alias, i, v);
  }

  /** The system metadata block of a feature's properties (timestamps kept as text). */
  datatype SystemInfo = SystemInfo(inserted: string, insertedBy: string, updated: string, updatedBy: string)

  /** `Properties` (properties.py): the top-level property record of a feature. */
  datatype NspdProperties = NspdProperties(
    category: int,
    categoryName: string,
    options: OptionProperties,
    systemInfo: Option<SystemInfo>,
    cadastralDistrictsCode: Option<int>,
    descr: Option<string>,
    externalKey: Option<string>,
    interactionId: Option<int>,
    labelText: Option<string>,
    subcategory: Option<int>)

  /** A record validated from input that gives only the required keys: every
      optional top-level property takes its default. */
  function WithDefaults(category: int, categoryName: string, options: OptionProperties): (p: NspdProperties)
    ensures p.category == category && p.categoryName == categoryName && p.options == options
    ensures p.systemInfo.None? && p.cadastralDistrictsCode.None? && p.descr.None? && p.externalKey.None?
    ensures p.interactionId.None? && p.labelText.None? && p.subcategory.None?
  {
    NspdProperties(category, categoryName, options, None, None, None, None, None, None, None)
  }

  function IntOrNull(x: Option<int>): Value { if x.Some? then Int(x.value) else Null }
  function StrOrNull(x: Option<string>): Value { if x.Some? then Str(x.value) else Null }

  /** `model_dump()` of the record with `options` popped: the top-level entries,
      by field name, in declaration order. */
  function TopLevelDump(p: NspdProperties): (d: seq<(string, Value)>)
    ensures |d| == 9
    ensures forall j :: 0 <= j < |d| ==> d[j].0 != "options"
  {
    [ ("category", Int(p.category)),
      ("category_name", Str(p.categoryName)),
      ("systemInfo", if p.systemInfo.Some? then Nested else Null),
      ("cadastral_districts_code", IntOrNull(p.cadastralDistrictsCode)),
      ("descr", StrOrNull(p.descr)),
      ("external_key", StrOrNull(p.externalKey)),
      ("interaction_id", IntOrNull(p.interactionId)),
      ("label", StrOrNull(p.labelText)),
      ("subcategory", IntOrNull(p.subcategory)) ]
  }

  /** With the defaults, the only top-level entries that can equal a text query
      are the category name: every optional entry dumps as None. */
  lemma DefaultsDumpNull(category: int, categoryName: string, options: OptionProperties)
    ensures forall j :: 2 <= j < 9 ==> TopLevelDump(WithDefaults(category, categoryName, options))[j].1 == Null
    ensures forall q: string, j :: 0 <= j < 9 && TopLevelDump(WithDefaults(category, categoryName, options))[j].1 == Str(q) ==> q == categoryName
  {
  }
}
