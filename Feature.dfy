/** The layer registry of `schemas/feature.py`: the generated layer classes
    found by reflection become an explicit sequence of class declarations,
    lookups become first-match searches, and `cast` picks the layer a
    feature is validated against. */
module Feature {
  import opened Wrappers
  import opened Seqs
  import opened LayerConfigs
  import opened Properties

  /** A class of the schema hierarchy, e.g. `Layer37578Feature`, with the
      `layer_meta` class attribute it may or may not carry. */
  datatype ClassDecl = ClassDecl(name: string, layerMeta: Option<LayerNode>)

  /** The subclasses of the root feature class: for each generic
      specialisation, its own subclasses, both in definition order. */
  type ClassTree = seq<seq<ClassDecl>>

  /** A registered layer definition: a class that carries `layer_meta`. */
  datatype LayerDef = LayerDef(name: string, meta: LayerNode)

  /** `UnknownLayer`, raised with the title or the category that was looked up. */
  datatype UnknownLayer = UnknownTitle(title: string) | UnknownCategory(categoryId: int)

  /** The geometry of a feature, kept as its GeoJSON text: nothing in the
      registry interprets it. */
  datatype Geometry = Geometry(geoJson: string)

  /** A feature as validated from a search response. */
  datatype NspdFeature = NspdFeature(id: Option<int>, geometry: Geometry, properties: NspdProperties)

  /** The class a feature is validated against by `cast`: a registered layer, or,
      for a hidden layer, the generic feature class specialised with the
      properties type of a registered layer of the same category. */
  datatype FeatureClass = Layer(def: LayerDef) | HiddenLayer(similar: LayerDef)

  /** A feature after `cast`. */
  datatype TypedFeature = TypedFeature(cls: FeatureClass, feature: NspdFeature)

  /** The registry entries contributed by a run of class declarations. */
  function DefsOf(decls: seq<ClassDecl>): (r: seq<LayerDef>)
    ensures |r| <= |decls|
    ensures forall d :: d in r <==> ClassDecl(d.name, Some(d.meta)) in decls
  {
    if decls == [] then []
    else
      var rest := DefsOf(decls[1..]);
      assert forall c :: c in decls <==> c == decls[0] || c in decls[1..];
      match decls[0].layerMeta
      case Some(meta) => [LayerDef(decls[0].name, meta)] + rest
      case None => rest
  }

  /** `_iter_layer_defs`: every grandchild of the root class that carries
      `layer_meta`, in definition order. */
  function IterLayerDefs(tree: ClassTree): (r: seq<LayerDef>)
    ensures forall d :: d in r <==>
      exists i :: 0 <= i < |tree| && ClassDecl(d.name, Some(d.meta)) in tree[i]
  {
    var r := DefsOf(Flatten(tree));
    assert forall d :: d in r <==> ClassDecl(d.name, Some(d.meta)) in Flatten(tree);
    forall d: LayerDef ensures ClassDecl(d.name, Some(d.meta)) in Flatten(tree) <==>
      exists i :: 0 <= i < |tree| && ClassDecl(d.name, Some(d.meta)) in tree[i]
    {
      FlattenMember(tree, ClassDecl(d.name, Some(d.meta)));
    }
    r
  }

  /** Collecting the definitions respects the order of the declarations: those
      of an earlier run come before those of a later one. */
  lemma {:induction false} DefsOfAppend(a: seq<ClassDecl>, b: seq<ClassDecl>)
    ensures DefsOf(a + b) == DefsOf(a) + DefsOf(b)
    decreases |a|
  {
    if a != [] {
      assert (a + b)[1..] == a[1..] + b;
      DefsOfAppend(a[1..], b);
    } else {
      assert a + b == b;
    }
  }

  /** The registry lists the layers of the generic specialisations one after
      the other, in their order. */
  lemma {:induction false} IterLayerDefsInOrder(tree: ClassTree)
    requires tree != []
    ensures IterLayerDefs(tree) == DefsOf(tree[0]) + IterLayerDefs(tree[1..])
  {
    DefsOfAppend(tree[0], Flatten(tree[1..]));
  }

  /** When every class carries `layer_meta`, the registry has one entry per
      class, at the same position. */
  lemma {:induction false} DefsOfAllMeta(decls: seq<ClassDecl>)
    requires forall k :: 0 <= k < |decls| ==> decls[k].layerMeta.Some?
    ensures |DefsOf(decls)| == |decls|
    ensures forall k :: 0 <= k < |decls| ==>
      DefsOf(decls)[k] == LayerDef(decls[k].name, decls[k].layerMeta.value)
  {
    if decls != [] {
      DefsOfAllMeta(decls[1..]);
    }
  }

  /** `by_category_id`: the first registered layer of the category, or
      `UnknownLayer` when there is none. */
  function ByCategoryId(defs: seq<LayerDef>, categoryId: int): (r: Result<LayerDef, UnknownLayer>)
    ensures r.Ok? <==> exists k :: 0 <= k < |defs| && defs[k].meta.categoryId == categoryId
    ensures r.Ok? ==> exists k :: (0 <= k < |defs| && defs[k] == r.value
      && r.value.meta.categoryId == categoryId
      && forall j :: 0 <= j < k ==> defs[j].meta.categoryId != categoryId)
    ensures r.Err? ==> r.error == UnknownCategory(categoryId)
  {
    var k := FirstMatch(defs, (d: LayerDef) => d.meta.categoryId == categoryId);
    if k < |defs| then Ok(defs[k]) else Err(UnknownCategory(categoryId))
  }

  /** `by_title`: the first registered layer whose title is exactly `title`, or
      `UnknownLayer` when there is none. */
  function ByTitle(defs: seq<LayerDef>, title: string): (r: Result<LayerDef, UnknownLayer>)
    ensures r.Ok? <==> exists k :: 0 <= k < |defs| && defs[k].meta.title == title
    ensures r.Ok? ==> exists k :: (0 <= k < |defs| && defs[k] == r.value
      && r.value.meta.title == title
      && forall j :: 0 <= j < k ==> defs[j].meta.title != title)
    ensures r.Err? ==> r.error == UnknownTitle(title)
  {
    var k := FirstMatch(defs, (d: LayerDef) => d.meta.title == title);
    if k < |defs| then Ok(defs[k]) else Err(UnknownTitle(title))
  }

  /** In a registry whose categories are distinct, looking up a layer's own
      category finds that layer. */
  lemma ByCategoryIdOfUnique(defs: seq<LayerDef>, i: nat)
    requires forall j, k :: 0 <= j < k < |defs| ==> defs[j].meta.categoryId != defs[k].meta.categoryId
    requires i < |defs|
    ensures ByCategoryId(defs, defs[i].meta.categoryId) == Ok(defs[i])
  {
    var r := ByCategoryId(defs, defs[i].meta.categoryId);
    var k :| 0 <= k < |defs| && defs[k] == r.value && r.value.meta.categoryId == defs[i].meta.categoryId
      && forall j :: 0 <= j < k ==> defs[j].meta.categoryId != defs[i].meta.categoryId;
  }

  /** In a registry whose titles are distinct, looking up a layer's own title
      finds that layer. */
  lemma ByTitleOfUnique(defs: seq<LayerDef>, i: nat)
    requires forall j, k :: 0 <= j < k < |defs| ==> defs[j].meta.title != defs[k].meta.title
    requires i < |defs|
    ensures ByTitle(defs, defs[i].meta.title) == Ok(defs[i])
  {
    var r := ByTitle(defs, defs[i].meta.title);
    var k :| 0 <= k < |defs| && defs[k] == r.value && r.value.meta.title == defs[i].meta.title
      && forall j :: 0 <= j < k ==> defs[j].meta.title != defs[i].meta.title;
  }

  /** `NspdFeature.cast`: with an explicit layer definition the feature is
      validated against it and nothing is looked up; without one the title
      lookup is tried first, and only when it fails does the category lookup
      run, whose `UnknownLayer` then escapes. */
  function Cast(defs: seq<LayerDef>, f: NspdFeature, layerDef: Option<LayerDef>): (r: Result<TypedFeature, UnknownLayer>)
    ensures layerDef.Some? ==> r == Ok(TypedFeature(Layer(layerDef.value), f))
    ensures r.Ok? ==> r.value.feature == f
    ensures layerDef.None? && r.Ok? && r.value.cls.Layer? ==>
      r.value.cls.def in defs && r.value.cls.def.meta.title == f.properties.categoryName
    ensures layerDef.None? && r.Ok? && r.value.cls.HiddenLayer? ==>
      (r.value.cls.similar in defs && r.value.cls.similar.meta.categoryId == f.properties.category
       && forall d :: d in defs ==> d.meta.title != f.properties.categoryName)
    ensures r.Err? ==> r.error == UnknownCategory(f.properties.category)
  {
    match layerDef
    case Some(def) => Ok(TypedFeature(Layer(def), f))
    case None =>
      match ByTitle(defs, f.properties.categoryName)
      case Ok(def) => Ok(TypedFeature(Layer(def), f))
      case Err(_) =>
        match ByCategoryId(defs, f.properties.category)
        case Ok(similar) => Ok(TypedFeature(HiddenLayer(similar), f))
        case Err(e) => Err(e)
  }

  /** A feature is of a known category (its cast without a definition
      succeeds) exactly when some registered layer has its category name as
      title or has its category. */
  lemma CastKnownIff(defs: seq<LayerDef>, f: NspdFeature)
    ensures Cast(defs, f, None).Ok? <==>
      exists d :: d in defs && (d.meta.title == f.properties.categoryName || d.meta.categoryId == f.properties.category)
  {
    var t := ByTitle(defs, f.properties.categoryName);
    var c := ByCategoryId(defs, f.properties.category);
    if exists d :: d in defs && (d.meta.title == f.properties.categoryName || d.meta.categoryId == f.properties.category) {
      var d :| d in defs && (d.meta.title == f.properties.categoryName || d.meta.categoryId == f.properties.category);
      var k :| 0 <= k < |defs| && defs[k] == d;
      assert t.Ok? || c.Ok?;
    }
  }

  /** The titles of the `by_title` overloads and the layer id of the class each
      resolves to (class `Layer<layer_id>Feature`), in declaration order. */
  const TitleOverloads: seq<(string, int)> := [
    ("Кадастровые округа", 36945),
    ("Территории объектов культурного наследия", 36316),
    ("Кадастровые районы ", 36070),
    ("Кадастровые кварталы", 36071),
    ("Государственная граница Российской Федерации", 37313),
    ("Субъекты Российской Федерации (линии)", 37314),
    ("Субъекты Российской Федерации (полигоны)", 37315),
    ("Муниципальные образования (полигональный)", 36278),
    ("Муниципальные образования (линейный)", 36279),
    ("Населённые пункты (полигоны)", 36281),
    ("Населённые пункты (линии)", 37316),
    ("Земельные участки из ЕГРН", 36048),
    ("Земельные участки, образуемые по схеме расположения земельного участка", 37294),
    ("Земельные участки, выставленные на аукцион ", 37299),
    ("Земельные участки, свободные от прав третьих лиц", 37298),
    ("Земля для стройки ПКК", 849407),
    ("Земля для туризма ПКК", 849453),
    ("Земельные участки, образуемые по проекту межевания территории", 36473),
    ("Здания", 36049),
    ("Сооружения", 36328),
    ("Объекты незавершенного строительства", 36329),
    ("Единые недвижимые комплексы", 37433),
    ("Предприятие как имущественный комплекс", 37434),
    ("ЗОУИТ объектов культурного наследия", 37577),
    ("ЗОУИТ объектов энергетики, связи, транспорта", 37578),
    ("ЗОУИТ природных территорий", 37580),
    ("ЗОУИТ охраняемых объектов и безопасности", 37579),
    ("Иные ЗОУИТ", 37581),
    ("Территориальные зоны", 36315),
    ("Красные линии ", 37293),
    ("Особо охраняемые природные территории ", 36317),
    ("Охотничьи угодья ", 36311),
    ("Лесничества", 36314),
    ("Береговые линии (границы водных объектов) (полигональный)", 36469),
    ("Береговые линии (границы водных объектов)(линейный)", 36470),
    ("Особые экономические зоны", 36303),
    ("Территории опережающего развития", 36312),
    ("Игорные зоны", 36471),
    ("Территории выполнения комплексных кадастровых работ", 37430),
    ("Территория проведения мероприятий по ликвидации накопленного вреда окружающей среде, образовавшегося в результате производства химической продукции в г. Усолье-Сибирское Иркутской области", 37295),
    ("Негативные процессы", 37296),
    ("Объекты туристского интереса", 849601),
    ("Кадастровая стоимость объекта", 37236),
    ("Удельный показатель кадастровой стоимости", 37758)
  ]

  /** The generated registry agrees with the overloads: a registered layer
      whose title is listed has the listed layer id. */
  ghost predicate AgreesWithOverloads(defs: seq<LayerDef>)
  {
    forall d, k :: d in defs && 0 <= k < |TitleOverloads| && d.meta.title == TitleOverloads[k].0 ==>
      d.meta.layerId == TitleOverloads[k].1
  }

  /** The titles of the overload rows `lo` to `hi - 1` differ from every later title. */
  ghost predicate TitlesFreshFrom(lo: int, hi: int)
  {
    forall i, j :: lo <= i < hi && 0 <= i < j < |TitleOverloads| ==> TitleOverloads[i].0 != TitleOverloads[j].0
  }

  lemma OverloadTitlesFresh0()
    ensures TitlesFreshFrom(0, 1)
  {
    var t := TitleOverloads;
    assert forall i, j :: 0 <= i < 1 && i < j < |t| ==> t[i].0 != t[j].0;
  }

  lemma OverloadTitlesFresh1()
    ensures TitlesFreshFrom(1, 2)
  {
    var t := TitleOverloads;
    assert forall i, j :: 1 <= i < 2 && i < j < |t| ==> t[i].0 != t[j].0;
  }

  lemma OverloadTitlesFresh2()
    ensures TitlesFreshFrom(2, 3)
  {
    var t := TitleOverloads;
    assert forall i, j :: 2 <= i < 3 && i < j < |t| ==> t[i].0 != t[j].0;
  }

  lemma OverloadTitlesFresh3()
    ensures TitlesFreshFrom(3, 4)
  {
    var t := TitleOverloads;
    assert forall i, j :: 3 <= i < 4 && i < j < |t| ==> t[i].0 != t[j].0;
  }

  lemma OverloadTitlesFresh4()
    ensures TitlesFreshFrom(4, 5)
  {
    var t := TitleOverloads;
    assert forall i, j :: 4 <= i < 5 && i < j < |t| ==> t[i].0 != t[j].0;
  }

  lemma OverloadTitlesFresh5()
    ensures TitlesFreshFrom(5, 6)
  {
    var t := TitleOverloads;
    assert forall i, j :: 5 <= i < 6 && i < j < |t| ==> t[i].0 != t[j].0;
  }

  lemma OverloadTitlesFresh6()
    ensures TitlesFreshFrom(6, 7)
  {
    var t := TitleOverloads;
    assert forall i, j :: 6 <= i < 7 && i < j < |t| ==> t[i].0 != t[j].0;
  }

  lemma OverloadTitlesFresh7()
    ensures TitlesFreshFrom(7, 8)
  {
    var t := TitleOverloads;
    assert forall i, j :: 7 <= i < 8 && i < j < |t| ==> t[i].0 != t[j].0;
  }

  lemma OverloadTitlesFresh8()
    ensures TitlesFreshFrom(8, 10)
  {
    var t := TitleOverloads;
    assert forall i, j :: 8 <= i < 10 && i < j < |t| ==> t[i].0 != t[j].0;
  }

  lemma OverloadTitlesFresh10()
    ensures TitlesFreshFrom(10, 12)
  {
    var t := TitleOverloads;
    assert forall i, j :: 10 <= i < 12 && i < j < |t| ==> t[i].0 != t[j].0;
  }

  lemma OverloadTitlesFresh12()
    ensures TitlesFreshFrom(12, 16)
  {
    var t := TitleOverloads;
    assert forall i, j :: 12 <= i < 16 && i < j < |t| ==> t[i].0 != t[j].0;
  }

  lemma OverloadTitlesFresh16()
    ensures TitlesFreshFrom(16, 20)
  {
    var t := TitleOverloads;
    assert forall i, j :: 16 <= i < 20 && i < j < |t| ==> t[i].0 != t[j].0;
  }

  lemma OverloadTitlesFresh20()
    ensures TitlesFreshFrom(20, 24)
  {
    var t := TitleOverloads;
    assert forall i, j :: 20 <= i < 24 && i < j < |t| ==> t[i].0 != t[j].0;
  }

  lemma OverloadTitlesFresh24()
    ensures TitlesFreshFrom(24, 32)
  {
    var t := TitleOverloads;
    assert forall i, j :: 24 <= i < 32 && i < j < |t| ==> t[i].0 != t[j].0;
  }

  lemma OverloadTitlesFresh32()
    ensures TitlesFreshFrom(32, 38)
  {
    var t := TitleOverloads;
    assert forall i, j :: 32 <= i < 38 && i < j < |t| ==> t[i].0 != t[j].0;
  }

  lemma OverloadTitlesFresh38()
    ensures TitlesFreshFrom(38, 44)
  {
    var t := TitleOverloads;
    assert forall i, j :: 38 <= i < 44 && i < j < |t| ==> t[i].0 != t[j].0;
  }

  /** The overload table is a function of the title: no title is listed twice,
      so a registry can agree with every entry at once. */
  lemma OverloadTitlesDistinct()
    ensures forall i, j :: 0 <= i < j < |TitleOverloads| ==> TitleOverloads[i].0 != TitleOverloads[j].0
  {
    OverloadTitlesFresh0();
    OverloadTitlesFresh1();
    OverloadTitlesFresh2();
    OverloadTitlesFresh3();
    OverloadTitlesFresh4();
    OverloadTitlesFresh5();
    OverloadTitlesFresh6();
    OverloadTitlesFresh7();
    OverloadTitlesFresh8();
    OverloadTitlesFresh10();
    OverloadTitlesFresh12();
    OverloadTitlesFresh16();
    OverloadTitlesFresh20();
    OverloadTitlesFresh24();
    OverloadTitlesFresh32();
    OverloadTitlesFresh38();
  }

  /** In a registry that agrees with the overloads, each listed title that is
      registered resolves to the class of its listed layer id. */
  lemma OverloadResolves(defs: seq<LayerDef>, k: nat)
    requires AgreesWithOverloads(defs) && k < |TitleOverloads|
    requires exists d :: d in defs && d.meta.title == TitleOverloads[k].0
    ensures ByTitle(defs, TitleOverloads[k].0).Ok?
    ensures ByTitle(defs, TitleOverloads[k].0).value.meta.layerId == TitleOverloads[k].1
  {
    var d :| d in defs && d.meta.title == TitleOverloads[k].0;
    var i :| 0 <= i < |defs| && defs[i] == d;
    var r := ByTitle(defs, TitleOverloads[k].0);
    assert r.value in defs;
  }

  /** In a registry that agrees with the overloads and registers it, the
      energy, communications and transport protection-zone layer resolves, by
      its title, to the class of layer 37578. */
  lemma EnergyZoneByTitle(defs: seq<LayerDef>)
    requires AgreesWithOverloads(defs)
    requires exists d :: d in defs && d.meta.title == "ЗОУИТ объектов энергетики, связи, транспорта"
    ensures ByTitle(defs, "ЗОУИТ объектов энергетики, связи, транспорта").Ok?
    ensures ByTitle(defs, "ЗОУИТ объектов энергетики, связи, транспорта").value.meta.layerId == 37578
  {
    assert TitleOverloads[24] == ("ЗОУИТ объектов энергетики, связи, транспорта", 37578);
    OverloadResolves(defs, 24);
  }
}
