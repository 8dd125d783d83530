/** `schemas/responses.py`: the tab responses and the normaliser of a tab value. */
module Responses {
  import opened Wrappers

  /** The `value` of a tab as it arrives: a JSON list of strings, or null. */
  type RawTabValue = Option<seq<string>>

  /** The `BeforeValidator` on `NspdTabResponse.value`: the one-element list
      holding the empty string means "no value"; everything else is kept. */
  function NormaliseTabValue(x: RawTabValue): (r: Option<seq<string>>)
    ensures r.None? <==> (x.None? || x == Some([""]))
    ensures r.Some? ==> r == x
    ensures r != Some([""])
  {
    if x.Some? && |x.value| == 1 && x.value[0] == "" then
      assert x.value == [""];
      None
    else x
  }

  /** The normaliser is idempotent: a normalised value is left alone. */
  lemma NormaliseIdempotent(x: RawTabValue)
    ensures NormaliseTabValue(NormaliseTabValue(x)) == NormaliseTabValue(x)
  {
  }

  /** `NspdTabResponse`: a titled tab whose value has been normalised. */
  datatype TabResponse = TabResponse(title: string, value: Option<seq<string>>)

  /** The tab JSON as the server sends it. */
  datatype RawTab = RawTab(title: string, value: RawTabValue)

  /** `NspdTabResponse.model_validate`. */
  function ParseTab(raw: RawTab): (r: TabResponse)
    ensures r.title == raw.title
    ensures r.value.None? <==> (raw.value.None? || raw.value == Some([""]))
    ensures r.value.Some? ==> r.value == raw.value
  {
    TabResponse(raw.title, NormaliseTabValue(raw.value))
  }

  /** `NspdTabGroupResponse`: a titled list of tabs. */
  datatype TabGroupResponse = TabGroupResponse(title: string, objects: seq<TabResponse>)

  /** The group JSON as the server sends it. */
  datatype RawTabGroup = RawTabGroup(title: string, objects: seq<RawTab>)

  /** `NspdTabGroupResponse.model_validate`: every tab of the group is validated
      by the same rule, in order. */
  function ParseTabGroup(raw: RawTabGroup): (r: TabGroupResponse)
    ensures r.title == raw.title
    ensures |r.objects| == |raw.objects|
    ensures forall i :: 0 <= i < |raw.objects| ==> r.objects[i] == ParseTab(raw.objects[i])
  {
    TabGroupResponse(raw.title, seq(|raw.objects|, i requires 0 <= i < |raw.objects| => ParseTab(raw.objects[i])))
  }

  /** No tab of a validated group keeps the `[""]` placeholder. */
  lemma GroupHasNoPlaceholder(raw: RawTabGroup)
    ensures forall t :: t in ParseTabGroup(raw).objects ==> t.value != Some([""])
  {
  }
}
