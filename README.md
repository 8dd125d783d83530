# pynspd core in Dafny

This project models the core of pynspd, a Python client for the Russian
national spatial data portal (NSPD). The model follows the source's own
structure, one Dafny module per source file:

- **Api** covers the request layer of the synchronous client:
  - the `retry_on_http_error` decorator, as a `while` loop proved equal to a
    recursive specification;
  - the bodies of the wrapped requests: `safe_request`, `_search`,
    `_search_in_contour` with its `TooBigContour` mapping, and `_tab_request`;
  - the tab value and tab group requests.

  The network is a finite script of outcomes, one per request.
- **Tiling** covers contour search by adaptive tiling:
  - `split_extent` over real coordinates;
  - the `_iter_search_in_box` recursion against a server oracle that answers
    each box;
  - the `search_in_contour_iter` aggregator, a loop over the search stream with
    a fingerprint cache and an optional intersection filter.
- **Client** covers the response normalisers and the `filter_features_by_query`
  loop of `BaseNspdClient`.
- **Scanner** covers `iter_cn`, the cadastral-number scanner.
- **Feature** covers the layer registry: `_iter_layer_defs`, `by_category_id`,
  `by_title`, and `cast` with its title-then-category fallback. The
  reflection-based registry becomes an explicit sequence of class declarations.
- **BaseFeature** covers `base_feature.py`: the nested `by_title` and the older
  human-readable dump.
- **Properties** covers the options record, its human-readable dump and the
  top-level property record.
- **LayerConfigs** covers the geometry-type and key-type maps, the prefix
  handling of title and card fields, and `Card._unpack_title`. `_unpack_title`
  rewrites its input dict in place, so it is a method of a small class.
- **Responses** covers the tab value normaliser and the tab group response.
- **Autogen** covers `get_layers_fields` from the code generator: a
  category-deduplicating outer loop and a field-filtering inner loop.

`Wrappers.dfy` also holds the module `Seqs`. It provides order-preserving
selection and filtering, first-match search and substring containment, which
the modules above share.

Some details of the source that the model reproduces:

- HTTP 403 gets no special handling. It is a status below 500, so it is raised
  at once.
- A mid-stream disconnect does not use up an attempt.
- The tiling recursion has no depth limit and no "too large even after
  recursing" error.
- `TooBigContour` is raised by `_search_in_contour`, but `errors.py` does not
  define it. It is modelled as an exception of its own.

## Model

| member | source | states |
|---|---|---|
| Api.Retry | src/pynspd/_sync/api.py:41-69 | The retry decorator as a recursion over the remaining outcomes. It never consumes more requests than the script holds. It falls through, returning None, only when no attempt is allowed. |
| Api.RetryOnHttpError | src/pynspd/_sync/api.py:41-69 | The decorator's `while attempt <= retries` loop ends with the same result and the same number of requests as `Retry` from attempt 0. |
| Api.AlwaysFailing | src/pynspd/_sync/api.py:46-62 | With every request failing with a timeout, 429 or 5xx, exactly retries + 1 requests are made and the last error is raised. |
| Api.ClientErrorNotRetried | src/pynspd/_sync/api.py:52-58 | A status below 500 other than 429 is raised after exactly one request. |
| Api.DisconnectNotCounted | src/pynspd/_sync/api.py:65-67 | A `RemoteProtocolError` costs a request but not an attempt: the run goes on exactly as if it had not happened. |
| Api.AttemptsBounded | src/pynspd/_sync/api.py:46-67 | However the script goes, at most retries + 1 of the requests made are counted attempts; disconnects are extra. |
| Api.SafeRequestBody | src/pynspd/_sync/api.py:154-163 | `safe_request` returns the response's body exactly when there is one. A timeout raises `TimeoutError`, an error status raises `HTTPStatusError` with that status, and a disconnect raises `RemoteProtocolError`. The raised error is retryable exactly for a timeout, a 429 or a status from 500 up. |
| Api.SafeRequestAlwaysFailing | src/pynspd/_sync/api.py:46-63 | `safe_request` against a server that keeps timing out or answering 429 or 5xx makes exactly retries + 1 requests, then raises the last request's error. |
| Api.SafeRequestClientError | src/pynspd/_sync/api.py:52-58 | `safe_request` raises a status below 500 other than 429 after exactly one request, with that status. |
| Api.NotFoundAsNone | src/pynspd/_sync/api.py:474-482 | A 404 becomes None. Any other status error is raised again unchanged. A response is returned as it is. A timeout or a disconnect escapes as it is. |
| Api.TooManyRequestsThenOk | src/pynspd/_sync/api.py:52-63 | A 429 followed by a success returns the success after two requests. |
| Api.DisconnectThenOk | src/pynspd/_sync/api.py:65-67 | A disconnect followed by a success returns the success, even with zero retries. |
| Api.SearchBody | src/pynspd/_sync/api.py:169-178 | `_search` returns the response's features, or None on 404. |
| Api.ContourBody | src/pynspd/_sync/api.py:284-295 | A 500 whose body code is 400004 becomes `TooBigContour`, and only that outcome does. Every other status is raised again, except a 500 whose body has no code. A response goes through `_validate_feature_collection_response`. A timeout or a disconnect escapes as it is. |
| Api.TooBigNotRetried | src/pynspd/_sync/api.py:284-294 | `TooBigContour` is not retried: the call ends after one request. |
| Api.OtherServerErrorRetried | src/pynspd/_sync/api.py:291-294 | A 500 with any other body code is retried and uses up an attempt. |
| Api.TabParams | src/pynspd/_sync/api.py:462-473 | The parameters are read from the feature's options by attribute. A true `no_coords` queries by the `objdoc_id` and `registers_id` attributes. Any other value queries by category and geometry id. Reading an attribute the options lack raises `AttributeError` for it. |
| Api.TabParamsOfParsed | src/pynspd/_sync/api.py:462-467 | For options validated from JSON, an absent `geocoderObject` gives the category query. A true `geocoderObject` gives the id query, with the ids' last values in the JSON. It succeeds exactly when both ids are present; a missing `objdoc_id` raises `AttributeError("objdoc_id")`. |
| Api.TabRequest | src/pynspd/_sync/api.py:458-482 | A missing attribute escapes on the first attempt, before any request and without a retry. Otherwise the call is the retried request with 404 read as None. |
| Api.TabNotFound | src/pynspd/_sync/api.py:474-482 | A 404 on the tab request returns None after one request. |
| Api.TabValues | src/pynspd/_sync/api.py:484-490 | None exactly when there is no tab, its value is null, or its value is the `[""]` placeholder. Otherwise the tab's value is returned unchanged. |
| Api.TabsByTitle | src/pynspd/_sync/api.py:499 | The keys of `{i.title: i.value for i in item}` are exactly the titles of the tabs. |
| Api.TabsByTitleLast | src/pynspd/_sync/api.py:499 | The value under a title is that of the last tab with that title. |
| Api.TabGroups | src/pynspd/_sync/api.py:492-502 | The result is None exactly when there is no group or the group has no tabs. Otherwise its keys are exactly the tab titles. |
| Api.TabGroupsValue | src/pynspd/_sync/api.py:492-502 | Each title maps to the normalised value of its last tab. |
| Tiling.SplitExtent | src/pynspd/_sync/api.py:329-335 | Four quadrants at the axis midpoints, in the source's order, each half the width and half the height of the box. |
| Tiling.SplitInside | src/pynspd/_sync/api.py:329-335 | The quadrants of a proper box are proper and lie within it. |
| Tiling.SplitCovers | src/pynspd/_sync/api.py:329-335 | Every point of the box lies in some quadrant. |
| Tiling.SplitDisjoint | src/pynspd/_sync/api.py:329-335 | No point is strictly inside two distinct quadrants. |
| Tiling.SplitArea | src/pynspd/_sync/api.py:329-335 | The quadrants' areas add up to the area of the box. |
| Tiling.AnswerOf | src/pynspd/_sync/api.py:297-317 | A box's answer is `TooBig` exactly when the retried call raised `TooBigContour`, and nothing found exactly when the call returned None. Found features are the returned ones cast to the searched layer. |
| Tiling.Then | src/pynspd/_sync/api.py:344-350 | Running one generator after another concatenates their outputs; an early stop of the first ends everything. |
| Tiling.SearchInBox | src/pynspd/_sync/api.py:319-350 | `_iter_search_in_box` yields nothing on None and the features on success. An escaping exception stops it. On `TooBigContour` it yields the four quadrant searches in split order. |
| Tiling.LeavesInside | src/pynspd/_sync/api.py:337-350 | Every box whose answer the search accepts lies within the searched box. |
| Tiling.LeavesCover | src/pynspd/_sync/api.py:337-350 | The accepted boxes cover the searched box. |
| Tiling.QuadrantLeavesApart | src/pynspd/_sync/api.py:343-350 | Accepted boxes from different quadrants do not overlap. |
| Tiling.LeavesDisjoint | src/pynspd/_sync/api.py:337-350 | No two accepted boxes overlap. |
| Tiling.ThenAgrees | src/pynspd/_sync/api.py:344-350 | Chaining two searches that agree with their accepted boxes agrees with the joined boxes. |
| Tiling.SearchYieldsLeafItems | src/pynspd/_sync/api.py:337-350 | The stream yields the features of the accepted boxes in search order. It stops early exactly when some box's request raised another error, and then yields only a prefix. |
| Tiling.LeafAgrees | src/pynspd/_sync/api.py:337-342 | A box that is not too big yields exactly its own answer. |
| Tiling.SplitUnfold | src/pynspd/_sync/api.py:343-350 | A too-big box searches its quadrants in split order, and its accepted boxes are theirs in that order. |
| Tiling.SplitAgrees | src/pynspd/_sync/api.py:343-350 | A too-big box agrees with its accepted boxes when each quadrant does. |
| Tiling.FingerprintsSnoc | src/pynspd/_sync/api.py:378-381 | Adding a feature adds its fingerprint to the cache. |
| Tiling.SearchInContourIter | src/pynspd/_sync/api.py:352-384 | The aggregator loop yields the first feature of each fingerprint, minus those that do not intersect the contour when `only_intersects` is set. It stops as the search stream stops. |
| Tiling.AggregateStep | src/pynspd/_sync/api.py:377-384 | Each step caches the feature's fingerprint. It yields the feature only when the fingerprint is new and the feature passes the filter. |
| Tiling.DedupFilterStep | src/pynspd/_sync/api.py:377-384 | Each step of deduplication followed by the filter appends the new feature exactly when its fingerprint is unseen and it passes the filter. |
| Tiling.DedupDistinct | src/pynspd/_sync/api.py:375-381 | No two yielded features share a fingerprint, and every fingerprint of the stream is represented. |
| Tiling.DedupKeepsFirst | src/pynspd/_sync/api.py:378-381 | Each yielded feature is the first one in the stream with its fingerprint. |
| Tiling.DedupSubsequence | src/pynspd/_sync/api.py:375-384 | Deduplication keeps an order-preserving subsequence of the stream. |
| Tiling.OnlyIntersectsFilters | src/pynspd/_sync/api.py:381-384 | The `only_intersects` output is the plain output filtered by intersection. So it is an order-preserving subsequence of it, holding only intersecting features. |
| Tiling.AggregateDistinct | src/pynspd/_sync/api.py:375-384 | What the aggregator yields never repeats a fingerprint. With `only_intersects`, every yielded feature intersects the contour. |
| Tiling.AggregateKeepsFirst | src/pynspd/_sync/api.py:375-384 | Each yielded feature is the first one in the search stream with its fingerprint. |
| Client.CastFeatures | src/pynspd/client.py:48-56 | None stays None. Otherwise there is one cast feature per input, in order, each the result of `cast` with the given layer. |
| Client.CastFeaturesKeepsFeatures | src/pynspd/client.py:53-55 | Each cast feature is the original feature typed with the requested layer. |
| Client.ValidateFeatureCollection | src/pynspd/client.py:58-65 | An empty feature list gives None; otherwise the same features in the same order. |
| Client.InUpperProps | src/pynspd/client.py:77-82 | True exactly when some top-level property equals the query. |
| Client.InOptionProps | src/pynspd/client.py:84-89 | True exactly when some option whose key does not contain "parent" equals the query. |
| Client.FilterFeaturesByQuery | src/pynspd/client.py:99-111 | The loop keeps exactly the features of the filter specification, in input order. |
| Client.KeepsFeature | src/pynspd/client.py:101-110 | The loop's test on one feature, with its short-circuit order, keeps it exactly when `Keeps` holds. `Keeps` requires the substring, then a top-level or non-"parent" option value equal to the query, then a known category. |
| Client.KeptIsSubsequence | src/pynspd/client.py:99-111 | The result is an order-preserving subsequence of the input. |
| Client.KeptIff | src/pynspd/client.py:77-110 | A feature is kept iff three things hold: its serialised properties contain the query; some top-level property, or some non-"parent" option, equals the query; and some registered layer has its category name as title or its category. |
| Client.KeptMentionsQuery | src/pynspd/client.py:100-102 | A feature whose serialised properties do not contain the query is never kept. |
| Client.ParentOptionNeverMatches | src/pynspd/client.py:84-89 | A feature whose only matching property is a "parent" option is dropped. |
| Scanner.DigitRunEnd | src/pynspd/client.py:45 | `\d+` is greedy: the run ends at the end of the text or at a non-digit. |
| Scanner.DigitRunIsDigits | src/pynspd/client.py:45 | The greedy run consists of digits only. |
| Scanner.RunThenColon | src/pynspd/client.py:45 | `\d+:` consumes at least one digit and the colon. |
| Scanner.Groups | src/pynspd/client.py:45 | Each `\d+:` group consumes at least two characters, and all of them lie within the text. |
| Scanner.MatchAt | src/pynspd/client.py:45 | A match of the pattern at a position has at least seven characters (four digits, three colons) and stays within the text. |
| Scanner.FindAll | src/pynspd/client.py:45-46 | Like `re.findall`, the scan resumes after each match. Every match has at least seven characters, so the matches do not overlap: seven per match fit in the text. |
| Scanner.IterCn | src/pynspd/client.py:43-46 | Every number `iter_cn` yields is a cadastral number occurring in the text, and there are at most a seventh as many as characters. |
| Scanner.MatchIsCn | src/pynspd/client.py:45 | Every match is four non-empty digit runs joined by colons. |
| Scanner.FindAllSound | src/pynspd/client.py:43-46 | Everything `iter_cn` yields is a cadastral number that occurs in the text. |
| Scanner.DigitRunEndAt | src/pynspd/client.py:45 | The greedy run is determined by its end: digits up to it, none at it. |
| Scanner.FindAllPrefix | src/pynspd/client.py:43-46 | No match extends across a character that is neither a digit nor a colon: the matches of `a + t`, with `t` starting with such a character, are those of `a` and then those of `t`. |
| Scanner.FindAllSkipsSeparator | src/pynspd/client.py:43-46 | Text without digits holds no match and is skipped. |
| Scanner.IterCnConcat | src/pynspd/client.py:43-46 | Matches never straddle a separator without digits or colons. The matches of two texts so joined are those of each, left to right. |
| Scanner.MatchAtOfCn | src/pynspd/client.py:45 | The pattern matches a whole cadastral number from its first character. |
| Scanner.IterCnOfCn | src/pynspd/client.py:43-46 | A cadastral number on its own is found whole, exactly once. |
| Scanner.IterCnTwo | src/pynspd/client.py:43-46 | Two cadastral numbers separated by text without digits or colons are yielded in order. |
| Feature.DefsOf | src/pynspd/schemas/feature.py:20-23 | A class is registered exactly when it carries `layer_meta`, and no more entries than classes. |
| Feature.IterLayerDefs | src/pynspd/schemas/feature.py:17-23 | The registry holds exactly the grandchild classes that carry `layer_meta`. |
| Feature.DefsOfAppend | src/pynspd/schemas/feature.py:19-23 | The registry keeps definition order across runs of classes. |
| Feature.IterLayerDefsInOrder | src/pynspd/schemas/feature.py:19-23 | The first generic specialisation's layers come first, then the rest in order. |
| Feature.DefsOfAllMeta | src/pynspd/schemas/feature.py:19-23 | When every class carries `layer_meta`, the registry lists them one for one. |
| Feature.ByCategoryId | src/pynspd/schemas/feature.py:26-31 | Returns the first registered layer of the category. Raises `UnknownLayer(category_id)` exactly when there is none. |
| Feature.ByTitle | src/pynspd/schemas/feature.py:338-343 | Returns the first registered layer with exactly that title. Raises `UnknownLayer(title)` exactly when there is none. |
| Feature.ByCategoryIdOfUnique | src/pynspd/schemas/feature.py:26-30 | With distinct categories, a layer's own category finds that layer. |
| Feature.ByTitleOfUnique | src/pynspd/schemas/feature.py:338-342 | With distinct titles, a layer's own title finds that layer. |
| Feature.Cast | src/pynspd/schemas/feature.py:41-63 | An explicit definition is used with no lookup. Otherwise the title lookup comes first; only when it fails does the category lookup give a hidden layer of that category. The category lookup's `UnknownLayer` escapes. The feature itself is unchanged. |
| Feature.CastKnownIff | src/pynspd/schemas/feature.py:54-62 | `cast()` succeeds exactly when some registered layer has the category name as title or has the category. |
| Feature.OverloadTitlesDistinct | src/pynspd/schemas/feature.py:65-336 | The table lists all 44 `by_title` overloads, and no title has two of them, so it maps each title to one layer id. |
| Feature.OverloadResolves | src/pynspd/schemas/feature.py:65-338 | Conditional: if the registry agrees with the overload table and registers a listed title, `by_title` of that title returns a layer with the listed id. |
| Feature.EnergyZoneByTitle | src/pynspd/schemas/feature.py:211-215 | Conditional, as above: if the registry agrees with the overloads and registers it, "ЗОУИТ объектов энергетики, связи, транспорта" resolves to layer 37578. |
| BaseFeature.ByTitle | src/pynspd/schemas/base_feature.py:18-26 | The nested search returns the first class whose title matches. It raises `KeyError` exactly when no class matches and every class carries `layer_meta`. Reaching a class without `layer_meta` first is an `AttributeError`. |
| BaseFeature.ByTitleAgreesWithRegistry | src/pynspd/schemas/base_feature.py:19-26 | When every class carries `layer_meta`, this lookup agrees with the registry's `by_title`. It fails with `KeyError` exactly when that one fails. |
| BaseFeature.AllDescriptions | src/pynspd/schemas/base_feature.py:48 | Every declared field, described or not, is keyed by its name. |
| BaseFeature.WithoutExtra | src/pynspd/schemas/base_feature.py:50 | No entry with an extra key survives, and nothing new is added. |
| BaseFeature.WithoutExtraKeepsDeclared | src/pynspd/schemas/base_feature.py:50 | Dropping the extra keys from a dump leaves exactly the declared fields. |
| BaseFeature.ExtrasExcluded | src/pynspd/schemas/base_feature.py:45-52 | Keys listed in `model_extra` never reach the output: it is the dump of the declared fields alone. |
| BaseFeature.AllDescriptionsValue | src/pynspd/schemas/base_feature.py:48 | Each value of the description map is the description of a declared field of that name. |
| BaseFeature.AllDescriptionsOfUnique | src/pynspd/schemas/base_feature.py:48 | A field's name maps to its own description. |
| BaseFeature.HumanReadable | src/pynspd/schemas/base_feature.py:45-52 | Every output key is the description, possibly None, of a declared field; an extra key never appears. `BaseFeature.HumanReadableKeys` adds that every declared field's description is a key, and `BaseFeature.HumanReadableValue` gives each key's value. |
| BaseFeature.HumanReadableKeys | src/pynspd/schemas/base_feature.py:45-52 | The output keys are exactly the descriptions of the declared fields, None included. |
| BaseFeature.HumanReadableValue | src/pynspd/schemas/base_feature.py:47-51 | Each declared field's value appears under its description, unless a later field with the same description overwrites it. |
| Properties.FieldValue | src/pynspd/schemas/properties.py:27 | A field is read from its alias, or takes its default when the alias is absent. |
| Properties.FieldValues | src/pynspd/schemas/properties.py:24-27 | One value per declared field, each read by that field's rule. |
| Properties.ExtraKeys | src/pynspd/schemas/properties.py:25 | The extra keys are distinct. They are exactly the keys of the loaded JSON dict that are neither a declared name nor an alias. |
| Properties.ExtraEntries | src/pynspd/schemas/properties.py:25 | The extras kept by `extra="allow"` have distinct keys, each with its value in the loaded dict. Every undeclared, unaliased key of the dict is among them. |
| Properties.ParseOptions | src/pynspd/schemas/properties.py:24-27 | A validated options object is well formed, with distinct extra keys. Each field reads the loaded dict by its alias. Each extra carries the dict's value for its key. Every undeclared, unaliased key is kept. |
| Properties.RepeatedKeyOneExtra | src/pynspd/schemas/properties.py:25 | A key repeated in the JSON yields one extra, with the last value given. |
| Properties.Lookup | src/pynspd/schemas/properties.py:24-27 | The first entry under a key gives its value. None exactly when no entry has the key. |
| Properties.LookupFirst | src/pynspd/schemas/properties.py:24-27 | An entry preceded by no other entry with its key is the one read. |
| Properties.AttrOfDeclared | src/pynspd/schemas/properties.py:24-27 | A declared field's name reads the value that field took from the JSON. |
| Properties.AttrOfExtraEntry | src/pynspd/schemas/properties.py:25 | An extra is read by its key. |
| Properties.AttrOfAbsent | src/pynspd/schemas/properties.py:24-27 | A name that is neither declared nor an extra key raises `AttributeError`. |
| Properties.AttrOfParsed | src/pynspd/schemas/properties.py:24-27 | An undeclared attribute of options validated from JSON reads the dict's value for that key. It raises `AttributeError` when the key is absent, or is only a field's alias. |
| Properties.NoCoordsDefault | src/pynspd/schemas/properties.py:27 | `no_coords` is read from `geocoderObject` and is False when that key is absent. |
| Properties.Dump | src/pynspd/schemas/properties.py:31 | `model_dump()` has one entry per declared field plus one per extra. |
| Properties.DeclaredPairs | src/pynspd/schemas/properties.py:31 | The declared part of the dump pairs each field's name with its value, in declaration order. |
| Properties.AliasMap | src/pynspd/schemas/properties.py:32-34 | The keys are exactly the names of fields with a non-empty description. |
| Properties.AliasedKeys | src/pynspd/schemas/properties.py:35 | The aliased keys are exactly the aliases of the data's aliased keys. |
| Properties.AliasedIgnoresUnaliased | src/pynspd/schemas/properties.py:35 | Entries whose key is not aliased do not change the result. |
| Properties.AliasedLast | src/pynspd/schemas/properties.py:35 | The value under an alias is that of the last entry aliased to it. |
| Properties.AliasedIgnoresEntry | src/pynspd/schemas/properties.py:35 | Changing the value of an unaliased entry changes nothing. |
| Properties.ExtrasIgnored | src/pynspd/schemas/properties.py:25-35 | Extra, undeclared option keys never reach the human-readable dump. |
| Properties.HumanReadable | src/pynspd/schemas/properties.py:29-35 | Every output key is the non-empty description of a declared field, never an option key. `Properties.HumanReadableKeys` adds that every such description is a key, and `Properties.HumanReadableValue` gives each key's value. |
| Properties.HumanReadableKeys | src/pynspd/schemas/properties.py:32-35 | The keys are exactly the non-empty descriptions of declared fields. |
| Properties.AliasMapValue | src/pynspd/schemas/properties.py:32-34 | Each value of the alias map is the description of a described field of that name. |
| Properties.AliasMapOfUnique | src/pynspd/schemas/properties.py:32-34 | A described field's name maps to its own description. |
| Properties.HumanReadableValue | src/pynspd/schemas/properties.py:31-35 | Each value is the dumped value of the field with that description. When several fields share one, it is the last field's value. |
| Properties.UndescribedInvisible | src/pynspd/schemas/properties.py:27-35 | A field without a description, such as `no_coords`, never affects the human-readable dump. |
| Properties.WithDefaults | src/pynspd/schemas/properties.py:11-21 | Input with only the required keys keeps them; every optional property takes its default, None. |
| Properties.TopLevelDump | src/pynspd/schemas/properties.py:11-21 | The top-level dump has the nine non-options fields and no "options" entry. |
| Properties.DefaultsDumpNull | src/pynspd/schemas/properties.py:15-21 | Optional top-level properties default to None. With defaults, only the category name can equal a text query. |
| LayerConfigs.GeometryTypeFromCode | src/pynspd/schemas/layer_configs.py:28-37 | Succeeds exactly for POLYGON, LINESTRING, POINT and MULTITYPE; any other code fails. |
| LayerConfigs.GeometryTypeToCode | src/pynspd/schemas/layer_configs.py:39-48 | Every geometry type serialises to one of the four server codes. |
| LayerConfigs.CodeRoundTrip | src/pynspd/schemas/layer_configs.py:28-48 | Serialising a validated code gives the code back. |
| LayerConfigs.TypeRoundTrip | src/pynspd/schemas/layer_configs.py:28-48 | Validating a serialised type gives the type back. |
| LayerConfigs.KeyTypeFromCode | src/pynspd/schemas/layer_configs.py:102-111 | text and href map to str, number to float, date to datetime; exactly the other codes fail. |
| LayerConfigs.TrimStart | src/pynspd/schemas/layer_configs.py:78 | Removes exactly the leading whitespace. |
| LayerConfigs.TrimEnd | src/pynspd/schemas/layer_configs.py:78 | Removes exactly the trailing whitespace. |
| LayerConfigs.Strip | src/pynspd/schemas/layer_configs.py:78 | The result is the infix of the input left once only whitespace has been removed at each end. It neither starts nor ends with whitespace. |
| LayerConfigs.RemoveAll | src/pynspd/schemas/layer_configs.py:100 | `str.replace(prefix, "")` never lengthens the text. |
| LayerConfigs.RemoveAllAbsent | src/pynspd/schemas/layer_configs.py:74 | Text without the prefix is left unchanged. |
| LayerConfigs.StripOptionsPrefix | src/pynspd/schemas/layer_configs.py:96-100 | A key made of the prefix and a path leaves exactly the path. |
| LayerConfigs.RemoveAllIsSubsequence | src/pynspd/schemas/layer_configs.py:100 | Deleting the prefix leaves a subsequence of the key. |
| LayerConfigs.ValidateTitleField | src/pynspd/schemas/layer_configs.py:64-74 | A key without the prefix becomes None. A prefixed key has the prefix removed. A null key fails. |
| LayerConfigs.ValidateCardField | src/pynspd/schemas/layer_configs.py:77-111 | An unknown type code is the error even when the key also lacks the prefix. Field validators run in field order, so the `key_value` assertion runs before the `key_type` lookup. But the failed assertion is only collected, while the lookup's `KeyError` escapes at once. Otherwise the stripped key must start with the prefix, which is then removed. A str field whose key mentions "_area" becomes `Union[str, float]`; nothing else changes. |
| LayerConfigs.UnpackedTitle | src/pynspd/schemas/layer_configs.py:55-61 | The title must be present and of length one; its only element replaces it. |
| LayerConfigs.CardPayload.UnpackTitle | src/pynspd/schemas/layer_configs.py:55-61 | Replaces "title" in place with its only element. On failure it reports the error and leaves the payload unchanged. |
| Responses.NormaliseTabValue | src/pynspd/schemas/responses.py:37-42 | `[""]` and None become None; every other list is kept unchanged. |
| Responses.NormaliseIdempotent | src/pynspd/schemas/responses.py:39-41 | Normalising twice is normalising once. |
| Responses.ParseTab | src/pynspd/schemas/responses.py:35-42 | The title is kept and the value is normalised. |
| Responses.ParseTabGroup | src/pynspd/schemas/responses.py:45-47 | Every tab of the group is validated by the same rule, in order. |
| Responses.GroupHasNoPlaceholder | src/pynspd/schemas/responses.py:45-47 | No tab of a validated group keeps the `[""]` placeholder. |
| Autogen.FilterCardFields | scripts/autogeneration.py:98-108 | Keeps, in card order, exactly the fields whose key is not "-" or empty, is ASCII and has no space. |
| Autogen.CategoriesStep | scripts/autogeneration.py:89-91 | A layer of an unseen category triggers a fetch; a seen category is skipped. |
| Autogen.DistinctCategoriesCover | scripts/autogeneration.py:88-110 | A category is fetched exactly when some layer has it. |
| Autogen.DistinctCategoriesUnique | scripts/autogeneration.py:89-91 | No category is fetched twice. |
| Autogen.GetLayersFields | scripts/autogeneration.py:87-110 | Fetches in first-occurrence order. The result's keys are exactly the layers' categories, each mapped to the kept fields of its card. |

## Left out

- The HTTP transport and client construction are left out: `_build_client`, `request`, the SSL context, headers and the cache transport. The network is a script of outcomes given as a parameter.
- `sleep(1)` between attempts is a no-op.
- The shapely and serialisation calls are left out: `box`, `bounds`, `to_geojson`, `intersects`, and md5 of `model_dump_json`. The fingerprint and the intersection test are function parameters, and so is the JSON text the query filter searches.
- `_search_at_point`, `search_at_point` and `search_at_coords` are left out. Their tile maths are floating-point numerics.
- The async client, the older `api.py`, the CLI, reprojection, `unasync.py`, and rendering and linting in the code generator are left out. They are I/O or wrappers.
- `search`, `search_in_layer`, `find`, `find_in_layer`, `search_in_contour` and the `tab_*` methods are not separate members. Each is a one-line composition of modelled pieces: `_search` or `_search_in_contour`, `_cast_features_to_layer_defs` and `filter_features_by_query`.
- `pynspd.schemas._common` (`CamelModel`, the camel-case aliases) is not part of this model. Records are plain datatypes, so pydantic's coercion and collected `ValidationError`s are not modelled. A validator reports the first failure in a fixed order.
- `LayerNode.layer_type` (always "wms") is not modelled.
- Api.RetryOnHttpError: when the script runs out while the source would issue another request, the call ends as `Exhausted`. The source would keep waiting for the network, or loop on endless disconnects.
- Api.ContourBody: a 500 whose JSON body has no "code" ends as `BadErrorBody`, which is not retried, as in the source. A body that is not JSON at all is not distinguished from it.
- Tiling.SearchInBox: termination rests on an assumption that the server eventually answers small enough boxes (`Settles`, with a depth bound). The source has no depth limit; a server that always answers "too big" makes it recurse forever.
- Tiling.SearchInContourIter: the aggregator consumes the whole search stream. Laziness is not modelled: when a consumer stops early, the source stops issuing tile requests.
- Scanner.IterCn: `\d` is modelled as the ASCII digits 0-9. Python's `re` also matches other Unicode decimal digits. Completeness is proved for cadastral numbers standing alone or separated by digit-free, colon-free text, not for every input.
- LayerConfigs.Strip: trims exactly the Unicode White_Space characters, as pydantic-core's trim does. U+001C to U+001F are deliberately not trimmed, as in the source, even though Python's `str.isspace` counts them.
- Properties.NspdProperties: this is the record of `properties.py`, where `systemInfo` is optional. `base_feature.py` declares an older record in which it is required; that record is not modelled separately.
- Properties.ParseOptions: option values are stored as given. Lax coercion, such as the strings "true" or 1 for a bool, is not modelled. So `Api.TabParams` treats `no_coords` as true only when it holds the JSON value true.
- Properties.ExtraEntries: an input key equal to a declared field's name but not its alias is dropped. An example is `no_coords`, whose alias is `geocoderObject`. With `extra="allow"`, pydantic keeps such a key as an extra, whose dump entry then shares the field's name. The model excludes declared names from the extras to keep `model_dump()` free of duplicate keys.
- Tiling.SplitExtent: coordinates are real numbers, not IEEE doubles. The midpoint is exact where the source rounds, so `Tiling.SplitArea`'s exact sum and the coverage and disjointness lemmas hold over the reals only.
- Feature.EnergyZoneByTitle: the generated layer classes (the `auto` module of layer classes) are not part of this model, so the registry is a parameter. `Feature.AgreesWithOverloads` states, as a precondition, what the generated registry is expected to satisfy. So this lemma proves the resolution only for registries that satisfy it.
- Feature.OverloadResolves: conditional on `Feature.AgreesWithOverloads` for the same reason.
- Autogen.GetLayersFields: a fetch that fails (`raise_for_status`, card validation) is not modelled. The card of a category is a total function parameter.
