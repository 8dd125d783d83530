/** `schemas/base_feature.py`: the root feature class's own title lookup, which
    reads `layer_meta` directly, and the older human-readable option dump that
    keys every declared field by its description. */
module BaseFeature {
  import opened Wrappers
  import opened Seqs
  import opened LayerConfigs
  import opened Properties
  import opened Feature

  /** How the nested title lookup fails: `KeyError` when no class matches, or
      `AttributeError` on reaching a class without `layer_meta` before a match. */
  datatype LookupError = KeyError | MissingLayerMeta(className: string)

  /** The search stops at the first class that either lacks `layer_meta` (the
      attribute access raises) or carries the title. */
  predicate StopsSearch(c: ClassDecl, title: string)
  {
    c.layerMeta.None? || c.layerMeta.value.title == title
  }

  /** `NspdFeature.by_title`: the generic specialisations in order, and within
      each its subclasses in order, returning the first whose title matches. */
  function ByTitle(tree: ClassTree, title: string): (r: Result<LayerDef, LookupError>)
    ensures r.Ok? ==> exists k :: (0 <= k < |Flatten(tree)|
      && Flatten(tree)[k] == ClassDecl(r.value.name, Some(r.value.meta))
      && r.value.meta.title == title
      && forall j :: 0 <= j < k ==> !StopsSearch(Flatten(tree)[j], title))
    ensures r == Err(KeyError) <==> forall c :: c in Flatten(tree) ==> !StopsSearch(c, title)
    ensures r.Err? && r.error.MissingLayerMeta? ==> exists k :: (0 <= k < |Flatten(tree)|
      && Flatten(tree)[k] == ClassDecl(r.error.className, None)
      && forall j :: 0 <= j < k ==> !StopsSearch(Flatten(tree)[j], title))
  {
    var flat := Flatten(tree);
    var k := FirstMatch(flat, (c: ClassDecl) => StopsSearch(c, title));
    if k == |flat| then Err(KeyError)
    else match flat[k].layerMeta
      case None => Err(MissingLayerMeta(flat[k].name))
      case Some(meta) => Ok(LayerDef(flat[k].name, meta))
  }

  /** When every class carries `layer_meta`, this lookup finds the same layer as
      the registry's `by_title`, and fails exactly when that one does. */
  lemma ByTitleAgreesWithRegistry(tree: ClassTree, title: string)
    requires forall c :: c in Flatten(tree) ==> c.layerMeta.Some?
    ensures ByTitle(tree, title).Ok? <==> Feature.ByTitle(IterLayerDefs(tree), title).Ok?
    ensures ByTitle(tree, title).Ok? ==> ByTitle(tree, title).value == Feature.ByTitle(IterLayerDefs(tree), title).value
    ensures ByTitle(tree, title).Err? ==> ByTitle(tree, title).error == KeyError
  {
    var flat := Flatten(tree);
    var defs := IterLayerDefs(tree);
    DefsOfAllMeta(flat);
    var k := FirstMatch(flat, (c: ClassDecl) => StopsSearch(c, title));
    FirstMatchAt(defs, (d: LayerDef) => d.meta.title == title, k);
  }

  /** `{k: v.description for k, v in model_fields.items()}`: every declared
      field, described or not, keyed by name (a later field wins). */
  function AllDescriptions(fields: seq<FieldDecl>): (m: map<string, Option<string>>)
    ensures forall k :: k in m <==> IsDeclaredName(fields, k)
    decreases |fields|
  {
    if fields == [] then map[]
    else
      var last := fields[|fields| - 1];
      var init := fields[..|fields| - 1];
      assert forall i :: 0 <= i < |init| ==> init[i] == fields[i];
      AllDescriptions(init)[last.name := last.description]
  }

  /** The dumped entries whose key is not an extra key. */
  function WithoutExtra(pairs: seq<(string, Value)>, extraKeys: set<string>): (r: seq<(string, Value)>)
    ensures forall j :: 0 <= j < |r| ==> r[j].0 !in extraKeys && r[j] in pairs
  {
    if pairs == [] then []
    else (if pairs[0].0 in extraKeys then [] else [pairs[0]]) + WithoutExtra(pairs[1..], extraKeys)
  }

  function ExtraKeys(p: OptionProperties): set<string>
  {
    set j | 0 <= j < |p.extra| :: p.extra[j].0
  }

  /** `OptionProperties.model_dump_human_readable` (base_feature.py): each
      declared field's value keyed by its description, which may be None. */
  function HumanReadable(p: OptionProperties): (r: map<Option<string>, Value>)
    requires |p.values| == |p.fields|
    ensures forall d :: d in r ==> exists i :: 0 <= i < |p.fields| && p.fields[i].description == d
  {
    DescribedKeys(WithoutExtra(Dump(p), ExtraKeys(p)), p.fields);
    Aliased(WithoutExtra(Dump(p), ExtraKeys(p)), AllDescriptions(p.fields))
  }

  /** Whatever the data, keying by the description map only produces
      descriptions of declared fields. */
  lemma {:induction false} DescribedKeys(pairs: seq<(string, Value)>, fields: seq<FieldDecl>)
    ensures forall d :: d in Aliased(pairs, AllDescriptions(fields)) ==>
      exists i :: 0 <= i < |fields| && fields[i].description == d
  {
    var alias := AllDescriptions(fields);
    forall d | d in Aliased(pairs, alias)
      ensures exists i :: 0 <= i < |fields| && fields[i].description == d
    {
      AliasedOrigin(pairs, alias, d);
      var j :| 0 <= j < |pairs| && pairs[j].0 in alias && alias[pairs[j].0] == d;
      AllDescriptionsValue(fields, pairs[j].0);
    }
  }

  /** Dropping the extra keys from a well-formed dump leaves exactly the
      declared fields. */
  lemma {:induction false} WithoutExtraKeepsDeclared(fields: seq<FieldDecl>, values: seq<Value>, extra: seq<(string, Value)>, extraKeys: set<string>)
    requires |values| == |fields|
    requires forall k :: k in extraKeys ==> !IsDeclaredName(fields, k)
    requires forall j :: 0 <= j < |extra| ==> extra[j].0 in extraKeys
    ensures WithoutExtra(DeclaredPairs(fields, values) + extra, extraKeys) == DeclaredPairs(fields, values)
    decreases |fields| + |extra|
  {
    var pairs := DeclaredPairs(fields, values);
    if fields == [] {
      assert pairs + extra == extra;
      WithoutExtraDropsAll(extra, extraKeys);
    } else {
      assert (pairs + extra)[0] == (fields[0].name, values[0]);
      assert IsDeclaredName(fields, fields[0].name);
      assert (pairs + extra)[1..] == DeclaredPairs(fields[1..], values[1..]) + extra;
      WithoutExtraKeepsDeclared(fields[1..], values[1..], extra, extraKeys);
    }
  }

  lemma {:induction false} WithoutExtraDropsAll(extra: seq<(string, Value)>, extraKeys: set<string>)
    requires forall j :: 0 <= j < |extra| ==> extra[j].0 in extraKeys
    ensures WithoutExtra(extra, extraKeys) == []
  {
    if extra != [] {
      WithoutExtraDropsAll(extra[1..], extraKeys);
    }
  }

  /** Keys listed among the extras never reach the output: the dump is that of
      the declared fields alone. */
  lemma ExtrasExcluded(p: OptionProperties)
    requires WellFormed(p)
    ensures HumanReadable(p) == Aliased(DeclaredPairs(p.fields, p.values), AllDescriptions(p.fields))
  {
    forall k | k in ExtraKeys(p) ensures !IsDeclaredName(p.fields, k) {
      var j :| 0 <= j < |p.extra| && p.extra[j].0 == k;
    }
    WithoutExtraKeepsDeclared(p.fields, p.values, p.extra, ExtraKeys(p));
  }

  /** Every value of the description map is the description of a declared
      field of that name. */
  lemma {:induction false} AllDescriptionsValue(fields: seq<FieldDecl>, k: string)
    requires k in AllDescriptions(fields)
    ensures exists i :: 0 <= i < |fields| && fields[i].name == k && fields[i].description == AllDescriptions(fields)[k]
    decreases |fields|
  {
    var last := fields[|fields| - 1];
    var init := fields[..|fields| - 1];
    if k != last.name {
      AllDescriptionsValue(init, k);
      var i :| 0 <= i < |init| && init[i].name == k && init[i].description == AllDescriptions(init)[k];
      assert fields[i] == init[i];
    }
  }

  lemma {:induction false} AllDescriptionsOfUnique(fields: seq<FieldDecl>, i: nat)
    requires NamesUnique(fields)
    requires i < |fields|
    ensures AllDescriptions(fields)[fields[i].name] == fields[i].description
    decreases |fields|
  {
    var init := fields[..|fields| - 1];
    if i < |fields| - 1 {
      assert init[i] == fields[i];
      AllDescriptionsOfUnique(init, i);
    }
  }

  /** The output keys are exactly the descriptions of the declared fields, None
      included for fields that have none. */
  lemma HumanReadableKeys(p: OptionProperties)
    requires WellFormed(p)
    ensures forall d :: d in HumanReadable(p) <==>
      exists i :: 0 <= i < |p.fields| && p.fields[i].description == d
  {
    HumanReadableKeysComplete(p);
  }

  lemma HumanReadableKeysComplete(p: OptionProperties)
    requires WellFormed(p)
    ensures forall i :: 0 <= i < |p.fields| ==> p.fields[i].description in HumanReadable(p)
  {
    ExtrasExcluded(p);
    var pairs := DeclaredPairs(p.fields, p.values);
    var alias := AllDescriptions(p.fields);
    var h := Aliased(pairs, alias);
    AliasedKeys(pairs, alias);
    forall i | 0 <= i < |p.fields|
      ensures p.fields[i].description in h
    {
      AllDescriptionsOfUnique(p.fields, i);
      assert pairs[i].0 == p.fields[i].name;
    }
  }

  /** Each declared field's value appears under its description, unless a later
      field has the same description and overwrites it. */
  lemma HumanReadableValue(p: OptionProperties, i: nat)
    requires WellFormed(p)
    requires i < |p.fields|
    requires forall k :: i < k < |p.fields| ==> p.fields[k].description != p.fields[i].description
    ensures p.fields[i].description in HumanReadable(p)
    ensures HumanReadable(p)[p.fields[i].description] == p.values[i]
  {
    ExtrasExcluded(p);
    var pairs := DeclaredPairs(p.fields, p.values);
    var alias := AllDescriptions(p.fields);
    AllDescriptionsOfUnique(p.fields, i);
    forall k | i < k < |pairs| ensures !(pairs[k].0 in alias && alias[pairs[k].0] == alias[pairs[i].0]) {
      AllDescriptionsOfUnique(p.fields, k);
    }
    AliasedLast(pairs, alias, i);
  }
}
