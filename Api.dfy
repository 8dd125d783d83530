/** The request layer of the synchronous client (`_sync/api.py`): the retry
    decorator, the bodies of the wrapped requests and the tab requests. The
    network is a finite script of outcomes, one per request. */
module Api {
  import opened Wrappers
  import opened Properties
  import opened Feature
  import opened Client
  import opened Responses

  /** What one request does. `Status` is an error status raised by
      `raise_for_status`; `bodyCode` is the `code` of its JSON body when the
      body has one. `Disconnect` is the server dropping the connection. */
  datatype Outcome<R> = Response(body: R) | Timeout | Status(code: int, bodyCode: Option<int>) | Disconnect

  /** The exceptions a request can end with. */
  datatype Exc =
    | TimeoutError                // httpx.TimeoutException
    | HttpStatusError(code: int)  // httpx.HTTPStatusError
    | RemoteProtocolError         // httpx.RemoteProtocolError
    | TooBigContour               // too many objects in the contour
    | BadErrorBody                // the error body has no usable "code"
    | AttributeError(name: string) // an options attribute the feature lacks

  /** What one call of a wrapped method does with one outcome. */
  datatype Attempt<T> = Return(value: T) | Raise(exc: Exc)

  /** How a wrapped call ends. `FellThrough`: the loop ran zero times and the
      wrapper returned None. `Exhausted`: the script ran out while the source
      would issue another request. */
  datatype Call<T> = Returned(value: T) | Raised(exc: Exc) | FellThrough | Exhausted

  /** A wrapped call's end and the number of requests it made. */
  datatype Run<T> = Run(call: Call<T>, requests: nat)

  /** Errors the decorator retries, using up an attempt: timeouts, 429 and
      every status from 500 up. */
  predicate Retryable(e: Exc)
  {
    e.TimeoutError? || (e.HttpStatusError? && (e.code == 429 || e.code >= 500))
  }

  /** The decorator's behaviour from attempt `attempt` on, as a recursion over
      the remaining outcomes. */
  function Retry<R, T>(retries: int, attempt: nat, script: seq<Outcome<R>>, body: Outcome<R> -> Attempt<T>): (r: Run<T>)
    ensures r.requests <= |script|
    ensures r.call.FellThrough? ==> r.requests == 0 && attempt > retries
    decreases |script|
  {
    if attempt > retries then Run(FellThrough, 0)
    else if script == [] then Run(Exhausted, 0)
    else
      var next :=
        match body(script[0])
        case Return(v) => Run(Returned(v), 1)
        case Raise(e) =>
          if Retryable(e) then
            if attempt + 1 > retries then Run(Raised(e), 1)
            else var r := Retry(retries, attempt + 1, script[1..], body); Run(r.call, r.requests + 1)
          else if e.RemoteProtocolError? then
            var r := Retry(retries, attempt, script[1..], body); Run(r.call, r.requests + 1)
          else Run(Raised(e), 1);
      next
  }

  /** `retry_on_http_error`: the wrapper's loop, with `sleep(1)` as a no-op. */
  method RetryOnHttpError<R, T>(retries: int, script: seq<Outcome<R>>, body: Outcome<R> -> Attempt<T>)
    returns (call: Call<T>, requests: nat)
    ensures Run(call, requests) == Retry(retries, 0, script, body)
  {
    var attempt: nat := 0;
    requests := 0;
    while attempt <= retries
      invariant requests <= |script|
      invariant var rest := Retry(retries, attempt, script[requests..], body);
        Retry(retries, 0, script, body) == Run(rest.call, rest.requests + requests)
      decreases |script| - requests
    {
      if requests == |script| {
        return Exhausted, requests;
      }
      var outcome := script[requests];
      assert script[requests..][1..] == script[requests + 1..];
      requests := requests + 1;
      match body(outcome)
      case Return(v) =>
        return Returned(v), requests;
      case Raise(e) =>
        if e.TimeoutError? || e.HttpStatusError? {
          if e.HttpStatusError? {
            if e.code == 429 {
            } else if e.code < 500 {
              return Raised(e), requests;
            }
          }
          attempt := attempt + 1;
          if attempt > retries {
            return Raised(e), requests;
          }
        } else if e.RemoteProtocolError? {
        } else {
          return Raised(e), requests;
        }
    }
    return FellThrough, requests;
  }

  /** With `retries = r >= 0` and every request failing with a retried error,
      exactly r + 1 requests are made and the last error is raised. */
  lemma {:induction false} AlwaysFailing<R, T>(retries: int, attempt: nat, script: seq<Outcome<R>>, body: Outcome<R> -> Attempt<T>)
    requires attempt <= retries
    requires |script| >= retries - attempt + 1
    requires forall i :: 0 <= i < |script| ==> body(script[i]).Raise? && Retryable(body(script[i]).exc)
    ensures Retry(retries, attempt, script, body) ==
      Run(Raised(body(script[retries - attempt]).exc), retries - attempt + 1)
    decreases |script|
  {
    if attempt + 1 <= retries {
      AlwaysFailing(retries, attempt + 1, script[1..], body);
      assert script[1..][retries - (attempt + 1)] == script[retries - attempt];
    }
  }

  /** A status below 500 other than 429 is raised after a single request. */
  lemma ClientErrorNotRetried<R, T>(retries: int, script: seq<Outcome<R>>, body: Outcome<R> -> Attempt<T>, code: int)
    requires retries >= 0 && script != []
    requires body(script[0]) == Raise(HttpStatusError(code)) && code < 500 && code != 429
    ensures Retry(retries, 0, script, body) == Run(Raised(HttpStatusError(code)), 1)
  {
  }

  /** A disconnect costs a request but not an attempt: the run continues as
      if it had not happened. */
  lemma DisconnectNotCounted<R, T>(retries: int, attempt: nat, d: Outcome<R>, script: seq<Outcome<R>>, body: Outcome<R> -> Attempt<T>)
    requires attempt <= retries
    requires body(d) == Raise(RemoteProtocolError)
    ensures Retry(retries, attempt, [d] + script, body) ==
      Run(Retry(retries, attempt, script, body).call, Retry(retries, attempt, script, body).requests + 1)
  {
    assert ([d] + script)[1..] == script;
  }

  /** Counted attempts: the outcomes of a script that are not disconnects. */
  function Counted<R, T>(script: seq<Outcome<R>>, body: Outcome<R> -> Attempt<T>): nat
  {
    if script == [] then 0
    else (if body(script[0]) == Raise(RemoteProtocolError) then 0 else 1) + Counted(script[1..], body)
  }

  /** However the script goes, at most `retries + 1` of the requests made are
      counted attempts; only disconnects come on top. */
  lemma {:induction false} AttemptsBounded<R, T>(retries: int, attempt: nat, script: seq<Outcome<R>>, body: Outcome<R> -> Attempt<T>)
    requires attempt <= retries + 1
    ensures Counted(script[..Retry(retries, attempt, script, body).requests], body) <= retries + 1 - attempt
    decreases |script|
  {
    var r := Retry(retries, attempt, script, body);
    if attempt <= retries && script != [] {
      var n := r.requests;
      assert script[..n][1..] == script[1..][..n - 1] by {
        assert n >= 1;
      }
      match body(script[0])
      case Return(_) =>
      case Raise(e) =>
        if Retryable(e) {
          if attempt + 1 <= retries {
            AttemptsBounded(retries, attempt + 1, script[1..], body);
          }
        } else if e.RemoteProtocolError? {
          AttemptsBounded(retries, attempt, script[1..], body);
        }
    } else {
      assert script[..r.requests] == [];
    }
  }

  /** `safe_request`: the response, or the request's exception. The decorator
      retries that exception exactly for a timeout, a 429 or a status from 500
      up, and skips a disconnect without counting it. */
  function SafeRequestBody<R>(o: Outcome<R>): (a: Attempt<R>)
    ensures o.Response? <==> a.Return?
    ensures o.Response? ==> a == Return(o.body)
    ensures o.Timeout? ==> a == Raise(TimeoutError)
    ensures o.Status? ==> a == Raise(HttpStatusError(o.code))
    ensures o.Disconnect? ==> a == Raise(RemoteProtocolError)
    ensures a.Raise? ==> (Retryable(a.exc) <==> o.Timeout? || (o.Status? && (o.code == 429 || o.code >= 500)))
  {
    match o
    case Response(b) => Return(b)
    case Timeout => Raise(TimeoutError)
    case Status(code, _) => Raise(HttpStatusError(code))
    case Disconnect => Raise(RemoteProtocolError)
  }

  /** The body shared by `_search` and `_tab_request`: a 404 means "nothing
      there"; every other status error is raised again unchanged. */
  function NotFoundAsNone<R>(o: Outcome<R>): (a: Attempt<Option<R>>)
    ensures o.Response? ==> a == Return(Some(o.body))
    ensures o.Status? ==> (a.Return? <==> o.code == 404)
    ensures o.Status? && o.code != 404 ==> a == Raise(HttpStatusError(o.code))
    ensures a == Return(None) <==> o.Status? && o.code == 404
    ensures o.Timeout? ==> a == Raise(TimeoutError)
    ensures o.Disconnect? ==> a == Raise(RemoteProtocolError)
  {
    match o
    case Status(404, _) => Return(None)
    case _ => match SafeRequestBody(o)
      case Return(b) => Return(Some(b))
      case Raise(e) => Raise(e)
  }

  /** The error a failed request raises, as `safe_request` lets it escape. */
  function RequestError<R>(o: Outcome<R>): Exc
    requires !o.Response?
  {
    match o
    case Timeout => TimeoutError
    case Status(code, _) => HttpStatusError(code)
    case Disconnect => RemoteProtocolError
  }

  /** `safe_request` against a server that keeps timing out or answering 429
      or 5xx: exactly retries + 1 requests, then the last one's error. */
  lemma SafeRequestAlwaysFailing<R>(retries: int, script: seq<Outcome<R>>)
    requires retries >= 0 && |script| >= retries + 1
    requires forall i :: 0 <= i < |script| ==>
      script[i].Timeout? || (script[i].Status? && (script[i].code == 429 || script[i].code >= 500))
    ensures Retry(retries, 0, script, SafeRequestBody) == Run(Raised(RequestError(script[retries])), retries + 1)
  {
    AlwaysFailing(retries, 0, script, SafeRequestBody);
  }

  /** `safe_request` raises a status below 500 other than 429 after one
      request, with that status. */
  lemma SafeRequestClientError<R>(retries: int, script: seq<Outcome<R>>)
    requires retries >= 0 && script != []
    requires script[0].Status? && script[0].code < 500 && script[0].code != 429
    ensures Retry(retries, 0, script, SafeRequestBody) == Run(Raised(HttpStatusError(script[0].code)), 1)
  {
    ClientErrorNotRetried(retries, script, SafeRequestBody, script[0].code);
  }

  /** A 429 followed by a success returns the success after two requests. */
  lemma TooManyRequestsThenOk<R>(retries: int, body: R, bodyCode: Option<int>)
    requires retries >= 1
    ensures Retry(retries, 0, [Status(429, bodyCode), Response(body)], SafeRequestBody) ==
      Run(Returned(body), 2)
  {
    var script: seq<Outcome<R>> := [Status(429, bodyCode), Response(body)];
    assert script[1..] == [Response(body)];
  }

  /** A disconnect followed by a success returns the success, even when no
      retry is allowed. */
  lemma DisconnectThenOk<R>(body: R)
    ensures Retry(0, 0, [Disconnect, Response(body)], SafeRequestBody) == Run(Returned(body), 2)
  {
    var script: seq<Outcome<R>> := [Disconnect, Response(body)];
    assert script[1..] == [Response(body)];
  }

  /** `_search`: the features of the response, or None on 404. */
  function SearchBody(o: Outcome<seq<NspdFeature>>): (a: Attempt<Option<seq<NspdFeature>>>)
    ensures o.Response? ==> a == Return(Some(o.body))
    ensures o.Status? && o.code == 404 ==> a == Return(None)
    ensures o.Status? && o.code != 404 ==> a == Raise(HttpStatusError(o.code))
  {
    NotFoundAsNone(o)
  }

  /** `_search_in_contour`: a 500 whose body code is 400004 becomes
      `TooBigContour`; a 500 without a code cannot be read; every other status
      error is raised again; a response goes through
      `_validate_feature_collection_response`. */
  function ContourBody(o: Outcome<seq<NspdFeature>>): (a: Attempt<Option<seq<NspdFeature>>>)
    ensures o.Response? ==> a == Return(ValidateFeatureCollection(o.body))
    ensures o.Status? && o.code == 500 && o.bodyCode == Some(400004) ==> a == Raise(TooBigContour)
    ensures o.Status? && !(o.code == 500 && (o.bodyCode == Some(400004) || o.bodyCode.None?)) ==>
      a == Raise(HttpStatusError(o.code))
    ensures a.Raise? && a.exc == TooBigContour <==> o == Status(500, Some(400004))
    ensures o.Timeout? ==> a == Raise(TimeoutError)
    ensures o.Disconnect? ==> a == Raise(RemoteProtocolError)
  {
    match o
    case Status(code, bodyCode) =>
      if code == 500 && bodyCode.None? then Raise(BadErrorBody)
      else if code == 500 && bodyCode.value == 400004 then Raise(TooBigContour)
      else Raise(HttpStatusError(code))
    case _ => match SafeRequestBody(o)
      case Return(features) => Return(ValidateFeatureCollection(features))
      case Raise(e) => Raise(e)
  }

  /** `TooBigContour` is not retried: it ends the call after one request. */
  lemma TooBigNotRetried(retries: int, script: seq<Outcome<seq<NspdFeature>>>)
    requires retries >= 0 && script != []
    requires script[0] == Status(500, Some(400004))
    ensures Retry(retries, 0, script, ContourBody) == Run(Raised(TooBigContour), 1)
  {
    assert ContourBody(script[0]) == Raise(TooBigContour);
  }

  /** Any other 500 is retried like every server error. */
  lemma OtherServerErrorRetried(retries: int, script: seq<Outcome<seq<NspdFeature>>>, code: int)
    requires retries >= 1 && |script| >= 1
    requires script[0] == Status(500, Some(code)) && code != 400004
    ensures Retry(retries, 0, script, ContourBody) ==
      Run(Retry(retries, 1, script[1..], ContourBody).call, Retry(retries, 1, script[1..], ContourBody).requests + 1)
  {
    assert ContourBody(script[0]) == Raise(HttpStatusError(500));
  }

  /** The query parameters of `_tab_request`, read from the feature: by
      document and register for a feature whose `no_coords` is true, by
      category and geometry id otherwise. Reading an options attribute the
      object lacks raises `AttributeError`, in the order the source reads them. */
  function TabParams(tabClass: string, f: NspdFeature): (r: Result<seq<(string, Value)>, Exc>)
    requires |f.properties.options.values| == |f.properties.options.fields|
    ensures Attr(f.properties.options, "no_coords").None? ==> r == Err(AttributeError("no_coords"))
    ensures Attr(f.properties.options, "no_coords").Some? && Attr(f.properties.options, "no_coords") != Some(Bool(true)) ==>
      r == Ok([("tabClass", Str(tabClass)), ("categoryId", Int(f.properties.category)), ("geomId", IntOrNull(f.id))])
    ensures Attr(f.properties.options, "no_coords") == Some(Bool(true)) ==>
      (r.Ok? <==> Attr(f.properties.options, "objdoc_id").Some? && Attr(f.properties.options, "registers_id").Some?)
    ensures Attr(f.properties.options, "no_coords") == Some(Bool(true)) && r.Ok? ==>
      r.value == [("tabClass", Str(tabClass)),
                  ("objdocId", Attr(f.properties.options, "objdoc_id").value),
                  ("registersId", Attr(f.properties.options, "registers_id").value)]
    ensures r.Err? ==> r.error.AttributeError? && Attr(f.properties.options, r.error.name).None?
  {
    var o := f.properties.options;
    match Attr(o, "no_coords")
    case None => Err(AttributeError("no_coords"))
    case Some(noCoords) =>
      if noCoords == Bool(true) then
        match Attr(o, "objdoc_id")
        case None => Err(AttributeError("objdoc_id"))
        case Some(objdocId) =>
          match Attr(o, "registers_id")
          case None => Err(AttributeError("registers_id"))
          case Some(registersId) =>
            Ok([("tabClass", Str(tabClass)), ("objdocId", objdocId), ("registersId", registersId)])
      else
        Ok([("tabClass", Str(tabClass)), ("categoryId", Int(f.properties.category)), ("geomId", IntOrNull(f.id))])
  }

  /** The tab parameters of a feature whose options were validated from a JSON
      object that declares `no_coords` (alias `geocoderObject`) and leaves
      `objdoc_id` and `registers_id` as extras: without `geocoderObject` the
      query is by category and geometry; with `geocoderObject` true it is by the
      two ids, and a missing id raises `AttributeError` for it. */
  lemma TabParamsOfParsed(tabClass: string, f: NspdFeature, fields: seq<FieldDecl>, input: seq<(string, Value)>, i: nat)
    requires NamesUnique(fields) && i < |fields| && fields[i] == NoCoordsField
    requires !IsDeclaredName(fields, "objdoc_id") && !IsAlias(fields, "objdoc_id")
    requires !IsDeclaredName(fields, "registers_id") && !IsAlias(fields, "registers_id")
    requires f.properties.options == ParseOptions(fields, input)
    ensures "geocoderObject" !in ToMap(input) ==>
      TabParams(tabClass, f) == Ok([("tabClass", Str(tabClass)), ("categoryId", Int(f.properties.category)), ("geomId", IntOrNull(f.id))])
    ensures "geocoderObject" in ToMap(input) && ToMap(input)["geocoderObject"] == Bool(true) ==>
      (TabParams(tabClass, f).Ok? <==> "objdoc_id" in ToMap(input) && "registers_id" in ToMap(input))
    ensures "geocoderObject" in ToMap(input) && ToMap(input)["geocoderObject"] == Bool(true) && "objdoc_id" !in ToMap(input) ==>
      TabParams(tabClass, f) == Err(AttributeError("objdoc_id"))
    ensures "geocoderObject" in ToMap(input) && ToMap(input)["geocoderObject"] == Bool(true) && TabParams(tabClass, f).Ok? ==>
      TabParams(tabClass, f).value ==
        [("tabClass", Str(tabClass)), ("objdocId", ToMap(input)["objdoc_id"]), ("registersId", ToMap(input)["registers_id"])]
  {
    AttrOfDeclared(fields, input, i);
    AttrOfParsed(fields, input, "objdoc_id");
    AttrOfParsed(fields, input, "registers_id");
  }

  /** `_tab_request` under the decorator: the parameters are read before each
      request, so a missing attribute escapes on the first attempt, before any
      request and unretried; otherwise the request runs like `_search`. */
  function TabRequest<R>(retries: int, script: seq<Outcome<R>>, tabClass: string, f: NspdFeature): (r: Run<Option<R>>)
    requires |f.properties.options.values| == |f.properties.options.fields|
    ensures retries >= 0 && TabParams(tabClass, f).Err? ==> r == Run(Raised(TabParams(tabClass, f).error), 0)
    ensures TabParams(tabClass, f).Ok? ==> r == Retry(retries, 0, script, NotFoundAsNone)
    ensures retries < 0 ==> r == Run(FellThrough, 0)
  {
    if retries < 0 then Run(FellThrough, 0)
    else match TabParams(tabClass, f)
      case Err(e) => Run(Raised(e), 0)
      case Ok(_) => Retry(retries, 0, script, NotFoundAsNone)
  }

  /** A 404 on the tab request means no tab, after one request. */
  lemma TabNotFound<R>(retries: int, script: seq<Outcome<R>>, tabClass: string, f: NspdFeature, bodyCode: Option<int>)
    requires |f.properties.options.values| == |f.properties.options.fields|
    requires retries >= 0 && TabParams(tabClass, f).Ok?
    requires script != [] && script[0] == Status(404, bodyCode)
    ensures TabRequest(retries, script, tabClass, f) == Run(Returned(None), 1)
  {
    assert NotFoundAsNone(script[0]) == Return(None);
  }

  /** `_tab_values_request`: no tab means no value; otherwise the tab's value,
      with the `[""]` placeholder read as no value. */
  function TabValues(resp: Option<RawTab>): (r: Option<seq<string>>)
    ensures r.None? <==> (resp.None? || resp.value.value.None? || resp.value.value == Some([""]))
    ensures r.Some? ==> r == resp.value.value
  {
    match resp
    case None => None
    case Some(raw) => ParseTab(raw).value
  }

  /** `{i.title: i.value for i in item}`: a later tab overwrites an earlier
      one with the same title. */
  function TabsByTitle(items: seq<TabResponse>): (m: map<string, Option<seq<string>>>)
    ensures forall t :: t in m <==> exists i :: 0 <= i < |items| && items[i].title == t
    decreases |items|
  {
    if items == [] then map[]
    else
      var init := items[..|items| - 1];
      var last := items[|items| - 1];
      assert forall i :: 0 <= i < |init| ==> init[i] == items[i];
      TabsByTitle(init)[last.title := last.value]
  }

  /** The value under a title is that of the last tab carrying the title. */
  lemma {:induction false} TabsByTitleLast(items: seq<TabResponse>, i: nat)
    requires i < |items|
    requires forall k :: i < k < |items| ==> items[k].title != items[i].title
    ensures TabsByTitle(items)[items[i].title] == items[i].value
    decreases |items|
  {
    if i < |items| - 1 {
      var init := items[..|items| - 1];
      assert init[i] == items[i];
      TabsByTitleLast(init, i);
    }
  }

  /** `_tab_groups_request`: no group, or a group without tabs, means None;
      otherwise each tab's normalised value keyed by its title. */
  function TabGroups(resp: Option<RawTabGroup>): (r: Option<map<string, Option<seq<string>>>>)
    ensures r.None? <==> resp.None? || |resp.value.objects| == 0
    ensures r.Some? ==> forall t :: t in r.value <==> exists i :: 0 <= i < |resp.value.objects| && resp.value.objects[i].title == t
  {
    match resp
    case None => None
    case Some(raw) =>
      var data := TabsByTitle(ParseTabGroup(raw).objects);
      assert raw.objects != [] ==> raw.objects[0].title in data;
      if |data| == 0 then None else Some(data)
  }

  /** Each title of a group maps to the normalised value of its last tab. */
  lemma TabGroupsValue(raw: RawTabGroup, i: nat)
    requires i < |raw.objects|
    requires forall k :: i < k < |raw.objects| ==> raw.objects[k].title != raw.objects[i].title
    ensures TabGroups(Some(raw)).Some?
    ensures TabGroups(Some(raw)).value[raw.objects[i].title] == NormaliseTabValue(raw.objects[i].value)
  {
    TabsByTitleLast(ParseTabGroup(raw).objects, i);
  }
}
