/** `BaseNspdClient` (client.py): the normalisers of search responses and the
    exact-match filter over the features a search returns. */
module Client {
  import opened Wrappers
  import opened Seqs
  import opened Properties
  import opened Feature

  /** `_cast_features_to_layer_defs`: nothing stays nothing; otherwise every
      feature is cast to the given layer, one for one and in order. */
  function CastFeatures(defs: seq<LayerDef>, raw: Option<seq<NspdFeature>>, layerDef: LayerDef): (r: Option<seq<TypedFeature>>)
    ensures r.None? <==> raw.None?
    ensures r.Some? ==> |r.value| == |raw.value|
    ensures r.Some? ==> forall i :: 0 <= i < |raw.value| ==>
      Cast(defs, raw.value[i], Some(layerDef)) == Ok(r.value[i])
  {
    match raw
    case None => None
    case Some(fs) =>
      Some(seq(|fs|, i requires 0 <= i < |fs| => TypedFeature(Layer(layerDef), fs[i])))
  }

  /** Every feature of a cast list is typed with the requested layer and carries
      the original feature unchanged. */
  lemma CastFeaturesKeepsFeatures(defs: seq<LayerDef>, raw: seq<NspdFeature>, layerDef: LayerDef, i: nat)
    requires i < |raw|
    ensures CastFeatures(defs, Some(raw), layerDef).value[i] == TypedFeature(Layer(layerDef), raw[i])
  {
    var r := CastFeatures(defs, Some(raw), layerDef);
    assert Cast(defs, raw[i], Some(layerDef)) == Ok(r.value[i]);
  }

  /** `_validate_feature_collection_response`: an empty feature list means
      "nothing found". */
  function ValidateFeatureCollection(features: seq<NspdFeature>): (r: Option<seq<NspdFeature>>)
    ensures r.None? <==> |features| == 0
    ensures r.Some? ==> r.value == features
  {
    if |features| == 0 then None else Some(features)
  }

  /** `"parent" in k`. */
  predicate IsParentKey(k: string)
  {
    Contains(k, "parent")
  }

  /** `in_upper_props`: does some top-level property equal the query? */
  method InUpperProps(query: string, props: seq<(string, Value)>) returns (found: bool)
    ensures found <==> exists j :: 0 <= j < |props| && props[j].1 == Str(query)
  {
    var j := 0;
    while j < |props|
      invariant 0 <= j <= |props|
      invariant forall m :: 0 <= m < j ==> props[m].1 != Str(query)
    {
      if props[j].1 == Str(query) {
        return true;
      }
      j := j + 1;
    }
    return false;
  }

  /** `in_option_props`: does some option whose key does not mention "parent"
      equal the query? */
  method InOptionProps(query: string, opts: seq<(string, Value)>) returns (found: bool)
    ensures found <==> exists j :: 0 <= j < |opts| && opts[j].1 == Str(query) && !IsParentKey(opts[j].0)
  {
    var j := 0;
    while j < |opts|
      invariant 0 <= j <= |opts|
      invariant forall m :: 0 <= m < j ==> !(opts[m].1 == Str(query) && !IsParentKey(opts[m].0))
    {
      if opts[j].1 == Str(query) && !IsParentKey(opts[j].0) {
        return true;
      }
      j := j + 1;
    }
    return false;
  }

  /** Whether the loop of `filter_features_by_query` keeps a feature: its
      serialised properties mention the query, some top-level property or some
      non-"parent" option equals it, and its category is known (`cast()`
      without a layer succeeds). `dumpJson` stands for `model_dump_json`. */
  predicate Keeps(defs: seq<LayerDef>, dumpJson: NspdProperties -> string, query: string, f: NspdFeature)
    requires |f.properties.options.values| == |f.properties.options.fields|
  {
    Contains(dumpJson(f.properties), query)
    && ((exists j :: 0 <= j < 9 && TopLevelDump(f.properties)[j].1 == Str(query))
        || (exists j :: 0 <= j < |Dump(f.properties.options)| &&
              Dump(f.properties.options)[j].1 == Str(query) && !IsParentKey(Dump(f.properties.options)[j].0)))
    && Cast(defs, f, None).Ok?
  }

  /** Features whose option values line up with their declared fields, as
      validation guarantees. */
  predicate Validated(features: seq<NspdFeature>)
  {
    forall i :: 0 <= i < |features| ==>
      |features[i].properties.options.values| == |features[i].properties.options.fields|
  }

  /** The features the filter keeps, in input order. */
  function Kept(defs: seq<LayerDef>, dumpJson: NspdProperties -> string, query: string, features: seq<NspdFeature>): seq<NspdFeature>
    requires Validated(features)
  {
    Filter(features, KeepsFilter(defs, dumpJson, query))
  }

  /** `Keeps` as a test on any feature, false on one that is not validated. */
  function KeepsFilter(defs: seq<LayerDef>, dumpJson: NspdProperties -> string, query: string): NspdFeature -> bool
  {
    (f: NspdFeature) =>
      |f.properties.options.values| == |f.properties.options.fields| && Keeps(defs, dumpJson, query, f)
  }

  /** One more feature is appended to the kept ones exactly when it is kept. */
  lemma KeptStep(defs: seq<LayerDef>, dumpJson: NspdProperties -> string, query: string, features: seq<NspdFeature>, i: nat)
    requires Validated(features) && i < |features|
    ensures Validated(features[..i]) && Validated(features[..i + 1])
    ensures Kept(defs, dumpJson, query, features[..i + 1]) ==
      Kept(defs, dumpJson, query, features[..i]) + (if Keeps(defs, dumpJson, query, features[i]) then [features[i]] else [])
  {
    var xs := features[..i + 1];
    assert xs[..i] == features[..i];
    assert xs[i] == features[i];
    assert |xs| - 1 == i;
  }

  /** The body of the filter loop for one feature: the substring test first,
      then the top-level values, then the options, then the category. */
  method KeepsFeature(defs: seq<LayerDef>, dumpJson: NspdProperties -> string, query: string, f: NspdFeature)
    returns (keep: bool)
    requires |f.properties.options.values| == |f.properties.options.fields|
    ensures keep == Keeps(defs, dumpJson, query, f)
  {
    keep := false;
    if Contains(dumpJson(f.properties), query) {
      var props := TopLevelDump(f.properties);
      var opts := Dump(f.properties.options);
      var matched := InUpperProps(query, props);
      if !matched {
        matched := InOptionProps(query, opts);
      }
      keep := matched && Cast(defs, f, None).Ok?;
    }
  }

  /** `filter_features_by_query`. */
  method FilterFeaturesByQuery(defs: seq<LayerDef>, dumpJson: NspdProperties -> string, query: string, features: seq<NspdFeature>)
    returns (filtered: seq<NspdFeature>)
    requires Validated(features)
    ensures filtered == Kept(defs, dumpJson, query, features)
  {
    filtered := [];
    var i := 0;
    while i < |features|
      invariant 0 <= i <= |features|
      invariant Validated(features[..i])
      invariant filtered == Kept(defs, dumpJson, query, features[..i])
    {
      KeptStep(defs, dumpJson, query, features, i);
      var keep := KeepsFeature(defs, dumpJson, query, features[i]);
      if keep {
        filtered := filtered + [features[i]];
      }
      i := i + 1;
    }
    assert features[..i] == features;
  }

  /** The filter returns an order-preserving subsequence of its input. */
  lemma KeptIsSubsequence(defs: seq<LayerDef>, dumpJson: NspdProperties -> string, query: string, features: seq<NspdFeature>)
    requires Validated(features)
    ensures IsSubsequence(Kept(defs, dumpJson, query, features), features)
  {
    FilterSubsequence(features, KeepsFilter(defs, dumpJson, query));
  }

  /** A feature is kept exactly when its serialised properties mention the
      query, some top-level property or non-"parent" option equals the query,
      and its category is known. */
  lemma KeptIff(defs: seq<LayerDef>, dumpJson: NspdProperties -> string, query: string, features: seq<NspdFeature>, i: nat)
    requires Validated(features)
    requires i < |features|
    ensures features[i] in Kept(defs, dumpJson, query, features) <==>
      (Contains(dumpJson(features[i].properties), query)
       && ((exists j :: 0 <= j < 9 && TopLevelDump(features[i].properties)[j].1 == Str(query))
           || (exists j :: (0 <= j < |Dump(features[i].properties.options)|
                 && Dump(features[i].properties.options)[j].1 == Str(query)
                 && !IsParentKey(Dump(features[i].properties.options)[j].0))))
       && exists d :: d in defs && (d.meta.title == features[i].properties.categoryName
                                    || d.meta.categoryId == features[i].properties.category))
  {
    CastKnownIff(defs, features[i]);
    var kept := Kept(defs, dumpJson, query, features);
    if features[i] in kept {
      var k :| 0 <= k < |kept| && kept[k] == features[i];
    }
  }

  /** A kept feature's serialised properties always contain the query. */
  lemma KeptMentionsQuery(defs: seq<LayerDef>, dumpJson: NspdProperties -> string, query: string, features: seq<NspdFeature>)
    requires Validated(features)
    ensures forall f :: f in Kept(defs, dumpJson, query, features) ==> Contains(dumpJson(f.properties), query)
  {
    var kept := Kept(defs, dumpJson, query, features);
    forall f | f in kept ensures Contains(dumpJson(f.properties), query) {
      var k :| 0 <= k < |kept| && kept[k] == f;
    }
  }

  /** A "parent" option never makes a match: a feature whose only matching
      property is a "parent" option is dropped. */
  lemma ParentOptionNeverMatches(defs: seq<LayerDef>, dumpJson: NspdProperties -> string, query: string, features: seq<NspdFeature>, i: nat)
    requires Validated(features)
    requires i < |features|
    requires forall j :: 0 <= j < 9 ==> TopLevelDump(features[i].properties)[j].1 != Str(query)
    requires forall j :: (0 <= j < |Dump(features[i].properties.options)| &&
                          Dump(features[i].properties.options)[j].1 == Str(query)) ==>
      IsParentKey(Dump(features[i].properties.options)[j].0)
    ensures features[i] !in Kept(defs, dumpJson, query, features)
  {
    KeptIff(defs, dumpJson, query, features, i);
  }
}
