# Request descriptors of the SportRIZER weather API client

This project models the only logic original to the PHP `ApiClient` class
of the SportRIZER report SDK: how it assembles query parameters and the
three forecast requests it hands to its HTTP transport. The model is a
set of pure Dafny functions from an immutable configuration record and
the call arguments to a `Request(verb, path, query)` value, with lemmas
stating what those requests contain.

- `wrappers.dfy` — `Option`.
- `strings.dfy` (module `Strings`) — PHP `implode` and, as its inverse,
  `explode`, with both round trips proved.
- `php_array.dfy` (module `PhpArray`) — PHP's ordered array: keys are
  `Name(string)` or `Index(int)`, entries keep insertion order. `Assign`
  is `$a[k] = v` (replace in place, or append a new key), `ArrayMerge` is
  `array_merge` (string keys: the later value wins and the first position
  stays; integer keys: values appended and renumbered from zero).
- `api_client.dfy` (module `ApiClient`) — `Config` (url, token, format,
  models), `NewClient` (the constructor's field assignments, with the
  defaults `models = []` and `format = "json"`), `DefaultParams` and
  `BuildQuery` (`buildQuery`), `OverrideModels` (the per-call
  `$params['models'] = $models`), `ForecastQuery` (the forecast query
  written out entry by entry, an independent statement of what the
  builders send) and the three builders `ForecastByLatLng`,
  `ForecastByCode` and `ForecastByBounds`.
- `api_client_properties.dfy` (module `ApiClientProperties`) — the
  properties, and parsers for the three paths and the bounds value that
  serve as inverses of the builders.

Quirks of the source that the model keeps: the per-call model list is
stored as the raw list (`List`), while the configured default is stored
as a comma-joined string (`Str`); and the country-code path has a space
before its closing slash (`/api/weather/iso2:FR /`). `buildQuery` is
private and the three builders always call it without parameters; the
overlay of caller parameters is modelled and proved all the same.

## Model

| member | source | states |
|---|---|---|
| Strings.Implode | src/APIClient.php:73 | `implode` of no pieces is empty; otherwise the first piece starts the result, whose length is the pieces' total length plus one glue between each pair of neighbours |
| Strings.ExplodeImplode | src/APIClient.php:73 | joining a non-empty list of comma-free model names with `,` and splitting the result gives the list back, so the joined value loses nothing |
| Strings.ImplodeExplode | src/APIClient.php:73 | every string is the comma-join of its comma-separated pieces (the other direction of the round trip) |
| PhpArray.Assign | src/APIClient.php:90 | after `$a[k] = v` the key k holds v |
| PhpArray.AssignLookup | src/APIClient.php:90 | after `$a[k] = v` the key k holds v and every other key holds exactly what it held before |
| PhpArray.AssignLeavesOthers | src/APIClient.php:90 | `$a[k] = v` leaves the value of every key other than k as it was |
| PhpArray.AssignKeys | src/APIClient.php:143-144 | `$a[k] = v` keeps the keys and their order, appending k at the end only when it was absent |
| PhpArray.AssignDistinct | src/APIClient.php:73 | an assignment never duplicates a key |
| PhpArray.AssignFresh | src/APIClient.php:144 | assigning an absent key is appending the entry |
| PhpArray.AssignTwoFresh | src/APIClient.php:143-144 | assigning two distinct absent keys in turn appends the two entries in that order |
| PhpArray.AssignExisting | src/APIClient.php:90 | assigning a present key replaces its value at its own position and changes nothing else |
| PhpArray.ArrayMerge | src/APIClient.php:75 | `array_merge(a, b)` has distinct keys in first-occurrence order with integer keys renumbered from zero; each string key holds the value of its last occurrence in a then b, and the j-th integer key the j-th integer-keyed value |
| PhpArray.ArrayMergeEmpty | src/APIClient.php:75 | `array_merge(a, [])` is a for a string-keyed array with distinct keys |
| PhpArray.ArrayMergeKeepsPositions | src/APIClient.php:75 | a's keys stay at the front of `array_merge(a, b)` in their order |
| PhpArray.ArrayMergeKeyOrder | src/APIClient.php:75 | the whole key order of `array_merge(a, b)`: a's keys, then each string key of b not in a once, where it first occurs, and b's integer keys renumbered from zero, all in b's order |
| PhpArray.ArrayMergeLaterWins | src/APIClient.php:75 | a string key of `array_merge(a, b)` holds b's last value for it when b has one, and a's value otherwise |
| PhpArray.ArrayMergeIndexValues | src/APIClient.php:75 | the integer keys of `array_merge(a, b)` for a string-keyed a are 0 up to the number of b's integer-keyed entries, the j-th holding b's j-th integer-keyed value |
| PhpArray.ArrayMergeKeysOrigin | src/APIClient.php:75 | every key of `array_merge(a, b)` is a key of a, a string key of b, or one of b's integer keys renumbered from zero, below the length of b |
| ApiClient.NewClient | src/APIClient.php:40-50 | the constructor stores the URL, the token, the model list and the format it is given; models default to none and the format to `json` |
| ApiClient.DefaultParams | src/APIClient.php:67-74 | the defaults are exactly `f`, `token`, then `models` (comma-joined) when the configured list is non-empty, all string keys and distinct |
| ApiClient.BuildQuery | src/APIClient.php:65-76 | `buildQuery()` is the defaults; `buildQuery(params)` holds no key twice and keeps the default keys at its front in their order |
| ApiClient.OverrideModels | src/APIClient.php:89-91 | a non-empty per-call list is stored under `models` as the list itself and every other key keeps its value; an empty list changes nothing |
| ApiClient.ForecastQueryIsBuilt | src/APIClient.php:88-91 | `buildQuery()` followed by the per-call models assignment is the written-out forecast query; lines 109-112 and 139-142 do the same |
| ApiClient.ForecastByLatLng | src/APIClient.php:85-97 | the request is a GET of `/api/weather/gps:<lat>,<lng>/` whose query is exactly the forecast query, nothing added |
| ApiClient.ForecastByCode | src/APIClient.php:105-118 | the request is a GET of `/api/weather/iso2:<code> /` (space kept) whose query is exactly the forecast query |
| ApiClient.ForecastByBounds | src/APIClient.php:130-150 | the request is a GET of `/api/geo/places/` whose query is exactly the forecast query followed by `query` = `bounds:N,W,S,E` (rendered by `ApiClient.BoundsValue`, line 143) and `limit` |
| ApiClientProperties.BuildQueryCarriesConfig | src/APIClient.php:67-71 | `buildQuery()` has `f` = the configured format and `token` = the configured token |
| ApiClientProperties.BuildQueryModelsIff | src/APIClient.php:72-74 | `buildQuery()` has a `models` key if and only if the configured list is non-empty, and then its value is the list joined with `,` |
| ApiClientProperties.BuildQueryModelsSplitBack | src/APIClient.php:73 | for comma-free model names the `models` value splits back into the configured list |
| ApiClientProperties.DefaultClientQuery | src/APIClient.php:40-50 | `buildQuery()` of a client constructed with only a URL and a token is exactly `f=json` and its token (the builders then add `models`, `query` and `limit` as their own rows state) |
| ApiClientProperties.BuildQueryKeyOrder | src/APIClient.php:75 | the key order of `buildQuery(params)`: the keys of `buildQuery()`, then each new string key of the caller once, where it first occurs, and the caller's integer keys renumbered from zero, in the caller's order |
| ApiClientProperties.BuildQueryIndexValues | src/APIClient.php:75 | the j-th integer key of `buildQuery(params)` holds the caller's j-th integer-keyed value, and there are no other integer keys |
| ApiClientProperties.BuildQueryOverlay | src/APIClient.php:75 | in `buildQuery(params)` a string key the caller gives holds the caller's (last) value, and every other string key holds its `buildQuery()` value |
| ApiClientProperties.BuildQueryNoForeignKeys | src/APIClient.php:75 | every key of `buildQuery(params)` is a default key, a string key of the caller, or one of the caller's integer keys renumbered from zero |
| ApiClientProperties.BuildQueryCallerWins | src/APIClient.php:75 | for a caller array, each string key it gives (including `models`, `f`, `token`) takes the caller's value over the default |
| ApiClientProperties.ForecastQueryInvariant | src/APIClient.php:88-91 | every forecast query has distinct keys, the configured `f` and `token`, and a `models` key if and only if the per-call or the configured list is non-empty |
| ApiClientProperties.ModelsOverrideReplaces | src/APIClient.php:89-91 | a non-empty per-call list becomes `models` as the raw list, not merged with the default, with every other key and the key order as `buildQuery()` left them; an empty per-call list leaves `buildQuery()` unchanged (also lines 110-112 and 140-142) |
| ApiClientProperties.LatLngPathRoundTrip | src/APIClient.php:87 | for comma-free rendered coordinates the path parses back to exactly that latitude and longitude |
| ApiClientProperties.LatLngPathOnlyFromBuilder | src/APIClient.php:87 | every path the coordinates parser accepts is the builder's path for the coordinates it returns |
| ApiClientProperties.CodePathRoundTrip | src/APIClient.php:107 | every code parses back from its path, trailing space included |
| ApiClientProperties.CodePathOnlyFromBuilder | src/APIClient.php:107 | every path the code parser accepts is the builder's path for the code it returns |
| ApiClientProperties.BoundsQueryParams | src/APIClient.php:139-144 | the bounds query has distinct keys, the forecast query's keys in place with their values, then `query` = `bounds:N,W,S,E` and `limit` = the limit |
| ApiClientProperties.BoundsCarriesConfig | src/APIClient.php:139-144 | the bounds request leaves `f` and `token` at their configured values |
| ApiClientProperties.BoundsValueRoundTrip | src/APIClient.php:143 | for comma-free rendered coordinates the `query` value built by `ApiClient.BoundsValue` parses back to north, west, south, east in that order |
| ApiClientProperties.BoundsDefaultLimit | src/APIClient.php:135 | when the caller gives no limit the request carries `limit` = 100 |

## Left out

- Guzzle `Client` construction (src/APIClient.php:52-58): the base URL, the `Accept: application/json` header, and the optional `HandlerStack`, which is only passed on to Guzzle. This is configuration of a foreign library. `Config.url` is stored; only the transport would read it.
- The `SRREPORT_APIURL` environment override of the base URL (src/APIClient.php:53): a read of the process environment.
- The HTTP request itself and its response (src/APIClient.php:92, 113, 145): network I/O in a foreign library. Its failures surface as `GuzzleException`, the only exception the three builders declare (docblocks at lines 83, 103, 128). The builders return the request descriptor the transport would receive. The constructor's docblock (line 38) still declares `CacheException`, but no code in the class throws it.
- How the transport serializes the query string, including how it encodes the keys of a `List` value: that is the transport's behaviour.
- Model lists are taken as sequences of strings (`Config.models` and the per-call `models`). In the source both are PHP arrays (src/APIClient.php:20, 44, 85, 105, 136). A caller's array with string or non-consecutive keys is passed on raw at lines 90, 111 and 141, keys included; a `List` carries only the values in order, so those keys are not represented. Non-string elements, which `implode` at line 73 converts to strings, are not represented either.
- PHP's float-to-string conversion of coordinates (src/APIClient.php:87, 143): coordinates are taken as already-rendered strings. The parse round trips assume the rendering has no comma. That holds from PHP 8.0 on, where float-to-string conversion ignores the locale. Under PHP 7.4, which the typed properties at lines 17-20 and 27 allow, a locale whose `LC_NUMERIC` decimal separator is a comma renders `48.85` as `48,85`. The coordinates path and the bounds value then hold extra commas and cannot be read back uniquely, so the round-trip lemmas do not apply.
- PHP's 64-bit integer range for `limit`: the value is only stored, never computed with, so no wrap-around can occur.
- PHP's conversion of decimal-integer string keys to integer keys happens when the caller writes its array; the model takes keys as already `Name` or `Index`.
- PHP strings are byte strings; the model uses Dafny strings.
- PhpArray.Assign: its own contract gives only the assigned key's value; the rest of `$a[k] = v` is stated by AssignLookup, AssignKeys, AssignFresh and AssignExisting, so that the recursive function stays cheap to unfold.
- vendor/composer/autoload_psr4.php: a generated autoload map with no logic.
