/** The part of the code generator that gathers, for every layer category, the
    card fields that become attributes of the generated options class. */
module Autogen {
  import opened Seqs
  import opened LayerConfigs

  /** Every character of `s` is in the ASCII range (`str.isascii`). */
  predicate IsAscii(s: string)
  {
    forall i :: 0 <= i < |s| ==> (s[i] as int) < 128
  }

  /** A card field becomes a generated attribute when its key is a usable
      identifier: not "-", not empty, ASCII only and without a space. */
  predicate KeepField(f: CardField)
  {
    f.keyValue != "-" && f.keyValue != "" && IsAscii(f.keyValue) && ' ' !in f.keyValue
  }

  /** The inner loop of `get_layers_fields`: the fields of one card that are
      kept, in card order. */
  method FilterCardFields(card: seq<CardField>) returns (fields: seq<CardField>)
    ensures fields == Filter(card, KeepField)
    ensures IsSubsequence(fields, card)
    ensures forall k :: 0 <= k < |fields| ==> KeepField(fields[k])
    ensures forall k :: 0 <= k < |card| && KeepField(card[k]) ==> card[k] in fields
  {
    fields := [];
    var i := 0;
    while i < |card|
      invariant 0 <= i <= |card|
      invariant fields == Filter(card[..i], KeepField)
    {
      var field := card[i];
      assert card[..i + 1][..i] == card[..i];
      assert card[..i + 1][i] == field;
      if field.keyValue == "-" {
      } else if field.keyValue == "" {
      } else if !IsAscii(field.keyValue) {
      } else if ' ' in field.keyValue {
      } else {
        fields := fields + [field];
      }
      i := i + 1;
    }
    assert card[..i] == card;
    FilterSubsequence(card, KeepField);
  }

  /** The categories of a run of layers. */
  function Categories(layers: seq<LayerNode>): set<int>
  {
    set i | 0 <= i < |layers| :: layers[i].categoryId
  }

  /** The categories of a run of layers, each once, in the order they first
      appear: the order in which the generator fetches their cards. */
  function DistinctCategories(layers: seq<LayerNode>): seq<int>
    decreases |layers|
  {
    if layers == [] then []
    else
      var init := layers[..|layers| - 1];
      var c := layers[|layers| - 1].categoryId;
      DistinctCategories(init) + (if c in Categories(init) then [] else [c])
  }

  /** One more layer adds its category, and fetches it unless already seen. */
  lemma CategoriesStep(layers: seq<LayerNode>, i: nat)
    requires i < |layers|
    ensures Categories(layers[..i + 1]) == Categories(layers[..i]) + {layers[i].categoryId}
    ensures DistinctCategories(layers[..i + 1]) ==
      DistinctCategories(layers[..i]) + (if layers[i].categoryId in Categories(layers[..i]) then [] else [layers[i].categoryId])
  {
    var pre := layers[..i];
    var ls := layers[..i + 1];
    assert ls[..i] == pre;
    assert ls[i] == layers[i];
    forall c | c in Categories(ls) ensures c in Categories(pre) + {layers[i].categoryId} {
      var k :| 0 <= k < |ls| && ls[k].categoryId == c;
      if k < i {
        assert ls[k] == pre[k];
      }
    }
    forall c | c in Categories(pre) ensures c in Categories(ls) {
      var k :| 0 <= k < |pre| && pre[k].categoryId == c;
      assert ls[k] == pre[k];
    }
  }

  /** A category is fetched exactly when some layer has it. */
  lemma {:induction false} DistinctCategoriesCover(layers: seq<LayerNode>)
    ensures forall c :: c in DistinctCategories(layers) <==> c in Categories(layers)
    decreases |layers|
  {
    if layers != [] {
      var i := |layers| - 1;
      DistinctCategoriesCover(layers[..i]);
      CategoriesStep(layers, i);
      assert layers[..i + 1] == layers;
    }
  }

  /** No category is fetched twice. */
  lemma {:induction false} DistinctCategoriesUnique(layers: seq<LayerNode>)
    ensures forall j, k :: 0 <= j < k < |DistinctCategories(layers)| ==>
      DistinctCategories(layers)[j] != DistinctCategories(layers)[k]
    decreases |layers|
  {
    if layers != [] {
      var i := |layers| - 1;
      DistinctCategoriesUnique(layers[..i]);
      DistinctCategoriesCover(layers[..i]);
      CategoriesStep(layers, i);
      assert layers[..i + 1] == layers;
      var d := DistinctCategories(layers[..i]);
      var r := DistinctCategories(layers);
      forall j, k | 0 <= j < k < |r| ensures r[j] != r[k] {
        assert r[j] == d[j];
        if k < |d| {
          assert r[k] == d[k];
        } else {
          assert d[j] in d;
        }
      }
    }
  }

  /** `get_layers_fields`: one card fetch per category, the first time a layer
      of that category is met; the result maps every category of the layers
      to the kept fields of its card. `fetchCard` is the card the server
      returns for a category. */
  method GetLayersFields(layers: seq<LayerNode>, fetchCard: int -> seq<CardField>)
    returns (fields: map<int, seq<CardField>>, fetched: seq<int>)
    ensures fetched == DistinctCategories(layers)
    ensures fields.Keys == Categories(layers)
    ensures forall c :: c in fields ==> fields[c] == Filter(fetchCard(c), KeepField)
  {
    fields := map[];
    fetched := [];
    var i := 0;
    while i < |layers|
      invariant 0 <= i <= |layers|
      invariant fields.Keys == Categories(layers[..i])
      invariant fetched == DistinctCategories(layers[..i])
      invariant forall c :: c in fields ==> fields[c] == Filter(fetchCard(c), KeepField)
    {
      var layer := layers[i];
      CategoriesStep(layers, i);
      if layer.categoryId !in fields {
        fetched := fetched + [layer.categoryId];
        var card := fetchCard(layer.categoryId);
        var kept := FilterCardFields(card);
        fields := fields[layer.categoryId := kept];
      }
      i := i + 1;
    }
    assert layers[..i] == layers;
  }
}
