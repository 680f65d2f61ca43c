/**
 * What the request descriptors promise: the defaults every query carries,
 * how caller parameters and per-call model lists override them, and that
 * each path and the bounds query can be read back into the arguments
 * they were built from.
 */
module ApiClientProperties {
  import opened Wrappers
  import opened Strings
  import opened PhpArray
  import opened ApiClient

  // ---- buildQuery ----

  /** Without caller parameters the query carries the configured format and token. */
  lemma {:induction false} BuildQueryCarriesConfig(c: Config)
    ensures Lookup(BuildQuery(c), FormatKey) == Some(Str(c.format))
    ensures Lookup(BuildQuery(c), TokenKey) == Some(Str(c.token))
  {
  }

  /**
   * Without caller parameters `models` is present exactly when models are
   * configured, and then holds them joined by commas.
   */
  lemma {:induction false} BuildQueryModelsIff(c: Config)
    ensures ModelsKey in Keys(BuildQuery(c)) <==> c.models != []
    ensures c.models != [] ==> Lookup(BuildQuery(c), ModelsKey) == Some(Str(Implode(",", c.models)))
  {
    if c.models != [] {
      var seeded := [(FormatKey, Str(c.format)), (TokenKey, Str(c.token))];
      LookupAppend(seeded, (ModelsKey, Str(Implode(",", c.models))), ModelsKey);
    }
  }

  /** For a client built with only a URL and a token, `buildQuery()` is `f=json` and its token, nothing else. */
  lemma {:induction false} DefaultClientQuery(apiUrl: string, token: string)
    ensures BuildQuery(NewClient(apiUrl, token)) == [(FormatKey, Str("json")), (TokenKey, Str(token))]
  {
  }

  /** The joined `models` value can be split back into the configured list. */
  lemma {:induction false} BuildQueryModelsSplitBack(c: Config)
    requires c.models != []
    requires forall i :: 0 <= i < |c.models| ==> ',' !in c.models[i]
    ensures Lookup(BuildQuery(c), ModelsKey).Some?
    ensures Lookup(BuildQuery(c), ModelsKey).value.Str?
    ensures Explode(',', Lookup(BuildQuery(c), ModelsKey).value.s) == c.models
  {
    BuildQueryModelsIff(c);
    ExplodeImplode(',', c.models);
  }

  /**
   * The key order of `buildQuery(params)`: the keys of `buildQuery()`, then
   * each new string key of the caller once, where it first occurs, and the
   * caller's integer keys renumbered from zero, in the caller's order.
   */
  lemma {:induction false} BuildQueryKeyOrder(c: Config, params: Query)
    ensures Keys(BuildQuery(c, params)) == Keys(BuildQuery(c)) + MergedKeys(Keys(BuildQuery(c)), Keys(params), 0)
  {
    ArrayMergeKeyOrder(DefaultParams(c), params);
  }

  /** The j-th integer key of `buildQuery(params)` holds the caller's j-th integer-keyed value. */
  lemma {:induction false} BuildQueryIndexValues(c: Config, params: Query, j: int)
    ensures Lookup(BuildQuery(c, params), Index(j)) ==
      if 0 <= j < |IndexedValues(params)| then Some(IndexedValues(params)[j]) else None
  {
    ArrayMergeIndexValues(DefaultParams(c), params, j);
  }

  /**
   * A string key the caller gives holds the caller's (last) value; any other
   * string key holds its value in `buildQuery()`.
   */
  lemma {:induction false} BuildQueryOverlay(c: Config, params: Query, n: string)
    ensures Lookup(BuildQuery(c, params), Name(n)) ==
      if LookupLast(params, Name(n)).Some? then LookupLast(params, Name(n)) else Lookup(BuildQuery(c), Name(n))
  {
    ArrayMergeLaterWins(DefaultParams(c), params, n);
  }

  /**
   * `buildQuery(params)` adds no key of its own: each key is a default key,
   * a string key of the caller, or one of the caller's integer keys
   * renumbered from zero.
   */
  lemma {:induction false} BuildQueryNoForeignKeys(c: Config, params: Query, k: Key)
    requires k in Keys(BuildQuery(c, params))
    ensures k in Keys(BuildQuery(c)) || (k.Name? && k in Keys(params)) || (k.Index? && 0 <= k.index < |params|)
  {
    var d := DefaultParams(c);
    assert BuildQuery(c) == d;
    assert BuildQuery(c, params) == ArrayMerge(d, params);
    ArrayMergeKeysOrigin(d, params, k);
  }

  /** For a caller array (distinct keys), each string key it gives wins over the default. */
  lemma {:induction false} BuildQueryCallerWins(c: Config, params: Query, n: string)
    requires DistinctKeys(params)
    requires Name(n) in Keys(params)
    ensures Lookup(BuildQuery(c, params), Name(n)) == Lookup(params, Name(n))
  {
    LookupLastDistinct(params, Name(n));
    BuildQueryOverlay(c, params, n);
  }

  // ---- the forecast query shared by the three builders ----

  /**
   * Every forecast query has distinct keys, the configured format and token,
   * and a `models` key exactly when a per-call or configured list is non-empty.
   */
  lemma {:induction false} ForecastQueryInvariant(c: Config, models: seq<string>)
    ensures DistinctKeys(ForecastQuery(c, models))
    ensures Lookup(ForecastQuery(c, models), FormatKey) == Some(Str(c.format))
    ensures Lookup(ForecastQuery(c, models), TokenKey) == Some(Str(c.token))
    ensures ModelsKey in Keys(ForecastQuery(c, models)) <==> models != [] || c.models != []
  {
    var q := ForecastQuery(c, models);
    assert Keys(q) == [FormatKey, TokenKey] + if models != [] || c.models != [] then [ModelsKey] else [];
  }

  /**
   * A non-empty per-call list replaces `models` as the raw list, leaving
   * every other key and the key order as `buildQuery()` made them (adding
   * `models` last when no default list exists); an empty per-call list
   * leaves the `buildQuery()` result as it is.
   */
  lemma {:induction false} ModelsOverrideReplaces(c: Config, models: seq<string>)
    ensures models == [] ==> ForecastQuery(c, models) == BuildQuery(c)
    ensures models != [] ==> Lookup(ForecastQuery(c, models), ModelsKey) == Some(List(models))
    ensures forall k :: k != ModelsKey ==> Lookup(ForecastQuery(c, models), k) == Lookup(BuildQuery(c), k)
    ensures Keys(ForecastQuery(c, models)) ==
      if models == [] || ModelsKey in Keys(BuildQuery(c)) then Keys(BuildQuery(c))
      else Keys(BuildQuery(c)) + [ModelsKey]
  {
    ForecastQueryIsBuilt(c, models);
    if models != [] {
      forall k ensures Lookup(ForecastQuery(c, models), k) ==
        if k == ModelsKey then Some(List(models)) else Lookup(BuildQuery(c), k)
      {
        AssignLookup(BuildQuery(c), ModelsKey, List(models), k);
      }
      AssignKeys(BuildQuery(c), ModelsKey, List(models));
    }
  }

  // ---- getForecastbyLatLng ----

  const GpsPrefix: string := "/api/weather/gps:"

  /** Reads a coordinates path back into its latitude and longitude. */
  function ParseGpsPath(path: string): Option<(string, string)>
  {
    if |path| > |GpsPrefix| && path[..|GpsPrefix|] == GpsPrefix && path[|path| - 1] == '/' then
      var coords := Explode(',', path[|GpsPrefix|..|path| - 1]);
      if |coords| == 2 then Some((coords[0], coords[1])) else None
    else None
  }

  /** Comma-free coordinates read back from the path text they make. */
  lemma {:induction false} GpsPathParses(latitude: string, longitude: string)
    requires ',' !in latitude && ',' !in longitude
    ensures ParseGpsPath(GpsPrefix + latitude + "," + longitude + "/") == Some((latitude, longitude))
  {
    var coords := latitude + "," + longitude;
    var p := GpsPrefix + latitude + "," + longitude + "/";
    assert p[..|GpsPrefix|] == GpsPrefix && p[|GpsPrefix|..|p| - 1] == coords;
    assert [latitude, longitude][1..] == [longitude];
    assert Implode(",", [longitude]) == longitude;
    assert Implode(",", [latitude, longitude]) == coords;
    ExplodeImplode(',', [latitude, longitude]);
  }

  /** Rendered coordinates contain no comma, so the path determines them. */
  lemma {:induction false} LatLngPathRoundTrip(c: Config, latitude: string, longitude: string, models: seq<string>)
    requires ',' !in latitude && ',' !in longitude
    ensures ParseGpsPath(ForecastByLatLng(c, latitude, longitude, models).path) == Some((latitude, longitude))
  {
    GpsPathParses(latitude, longitude);
  }

  /** A path the parser accepts is the path text made from what it returns. */
  lemma {:induction false} GpsPathFromParsed(path: string)
    requires ParseGpsPath(path).Some?
    ensures GpsPrefix + ParseGpsPath(path).value.0 + "," + ParseGpsPath(path).value.1 + "/" == path
  {
    var mid := path[|GpsPrefix|..|path| - 1];
    var coords := Explode(',', mid);
    ImplodeExplode(',', mid);
    assert Implode(",", coords) == coords[0] + "," + coords[1];
    assert path == GpsPrefix + mid + "/";
  }

  /** Conversely, every path the parser accepts is the path built from what it returns. */
  lemma {:induction false} LatLngPathOnlyFromBuilder(c: Config, path: string, models: seq<string>)
    requires ParseGpsPath(path).Some?
    ensures ForecastByLatLng(c, ParseGpsPath(path).value.0, ParseGpsPath(path).value.1, models).path == path
  {
    GpsPathFromParsed(path);
  }

  // ---- getForecastByCode ----

  const Iso2Prefix: string := "/api/weather/iso2:"

  /** Reads a country-code path, with its space before the slash, back into the code. */
  function ParseIso2Path(path: string): Option<string>
  {
    if |path| >= |Iso2Prefix| + 2 && path[..|Iso2Prefix|] == Iso2Prefix && path[|path| - 2..] == " /"
    then Some(path[|Iso2Prefix|..|path| - 2])
    else None
  }

  /** Any code can be read back from its path. */
  lemma {:induction false} CodePathRoundTrip(c: Config, code: string, models: seq<string>)
    ensures ParseIso2Path(ForecastByCode(c, code, models).path) == Some(code)
  {
    var p := Iso2Prefix + code + " /";
    assert ForecastByCode(c, code, models).path == p;
    assert p[..|Iso2Prefix|] == Iso2Prefix && p[|p| - 2..] == " /" && p[|Iso2Prefix|..|p| - 2] == code;
  }

  /** Conversely, every path the parser accepts is the path built from the code it returns. */
  lemma {:induction false} CodePathOnlyFromBuilder(c: Config, path: string, models: seq<string>)
    requires ParseIso2Path(path).Some?
    ensures ForecastByCode(c, ParseIso2Path(path).value, models).path == path
  {
  }

  // ---- getForecastByBounds ----

  const BoundsPrefix: string := "bounds:"

  /** Reads a bounds query value back into its four coordinates. */
  function ParseBounds(query: string): Option<seq<string>>
  {
    if |query| >= |BoundsPrefix| && query[..|BoundsPrefix|] == BoundsPrefix then
      var coords := Explode(',', query[|BoundsPrefix|..]);
      if |coords| == 4 then Some(coords) else None
    else None
  }

  /** Appending `query` then `limit` to a forecast query: keys distinct, old keys in place. */
  lemma {:induction false} AppendBoundsKeys(f: Query, bounds: QueryValue, limit: QueryValue)
    requires DistinctKeys(f) && QueryKey !in Keys(f) && LimitKey !in Keys(f)
    ensures DistinctKeys(f + [(QueryKey, bounds), (LimitKey, limit)])
    ensures Keys(f + [(QueryKey, bounds), (LimitKey, limit)]) == Keys(f) + [QueryKey, LimitKey]
  {
    var e1, e2 := (QueryKey, bounds), (LimitKey, limit);
    assert f + [e1, e2] == (f + [e1]) + [e2];
    KeysAppend(f, e1);
    KeysAppend(f + [e1], e2);
    DistinctAppend(f, e1);
    DistinctAppend(f + [e1], e2);
  }

  /** Lookups after appending `query` then `limit` to a forecast query. */
  lemma {:induction false} AppendBoundsLookup(f: Query, bounds: QueryValue, limit: QueryValue, k: Key)
    requires QueryKey !in Keys(f) && LimitKey !in Keys(f)
    ensures Lookup(f + [(QueryKey, bounds), (LimitKey, limit)], k) ==
      if k == QueryKey then Some(bounds) else if k == LimitKey then Some(limit) else Lookup(f, k)
  {
    var e1, e2 := (QueryKey, bounds), (LimitKey, limit);
    assert f + [e1, e2] == (f + [e1]) + [e2];
    KeysAppend(f, e1);
    LookupAppend(f + [e1], e2, k);
    LookupAppend(f, e1, k);
  }

  /** Everything appending `query` then `limit` to a forecast query does. */
  lemma {:induction false} AppendBoundsAll(f: Query, bounds: QueryValue, limit: QueryValue)
    requires DistinctKeys(f) && QueryKey !in Keys(f) && LimitKey !in Keys(f)
    ensures DistinctKeys(f + [(QueryKey, bounds), (LimitKey, limit)])
    ensures Keys(f + [(QueryKey, bounds), (LimitKey, limit)]) == Keys(f) + [QueryKey, LimitKey]
    ensures forall k :: k != QueryKey && k != LimitKey ==>
      Lookup(f + [(QueryKey, bounds), (LimitKey, limit)], k) == Lookup(f, k)
    ensures Lookup(f + [(QueryKey, bounds), (LimitKey, limit)], QueryKey) == Some(bounds)
    ensures Lookup(f + [(QueryKey, bounds), (LimitKey, limit)], LimitKey) == Some(limit)
  {
    AppendBoundsKeys(f, bounds, limit);
    forall k {
      AppendBoundsLookup(f, bounds, limit, k);
    }
  }

  /**
   * The bounds request keeps the forecast query's keys, order and values
   * (so `f` and `token` unchanged) and appends `query` and `limit`.
   */
  lemma {:induction false} BoundsQueryParams(c: Config, northLatitude: string, westLongitude: string,
                          southLatitude: string, eastLongitude: string, limit: int, models: seq<string>)
    ensures DistinctKeys(ForecastByBounds(c, northLatitude, westLongitude, southLatitude, eastLongitude, limit, models).query)
    ensures Keys(ForecastByBounds(c, northLatitude, westLongitude, southLatitude, eastLongitude, limit, models).query)
      == Keys(ForecastQuery(c, models)) + [QueryKey, LimitKey]
    ensures forall k :: k != QueryKey && k != LimitKey ==>
      Lookup(ForecastByBounds(c, northLatitude, westLongitude, southLatitude, eastLongitude, limit, models).query, k)
      == Lookup(ForecastQuery(c, models), k)
    ensures Lookup(ForecastByBounds(c, northLatitude, westLongitude, southLatitude, eastLongitude, limit, models).query, QueryKey)
      == Some(Str(BoundsValue(northLatitude, westLongitude, southLatitude, eastLongitude)))
    ensures Lookup(ForecastByBounds(c, northLatitude, westLongitude, southLatitude, eastLongitude, limit, models).query, LimitKey)
      == Some(Int(limit))
  {
    var f := ForecastQuery(c, models);
    ForecastQueryInvariant(c, models);
    ForecastQueryKeys(c, models);
    AppendBoundsAll(f, Str(BoundsValue(northLatitude, westLongitude, southLatitude, eastLongitude)), Int(limit));
  }

  /** The bounds request still carries the configured format and token. */
  lemma {:induction false} BoundsCarriesConfig(c: Config, northLatitude: string, westLongitude: string,
                            southLatitude: string, eastLongitude: string, limit: int, models: seq<string>)
    ensures Lookup(ForecastByBounds(c, northLatitude, westLongitude, southLatitude, eastLongitude, limit, models).query, FormatKey)
      == Some(Str(c.format))
    ensures Lookup(ForecastByBounds(c, northLatitude, westLongitude, southLatitude, eastLongitude, limit, models).query, TokenKey)
      == Some(Str(c.token))
  {
    BoundsQueryParams(c, northLatitude, westLongitude, southLatitude, eastLongitude, limit, models);
    ForecastQueryInvariant(c, models);
  }

  /** Rendered coordinates contain no comma, so the `query` value reads back into north, west, south, east. */
  lemma {:induction false} BoundsValueRoundTrip(northLatitude: string, westLongitude: string,
                             southLatitude: string, eastLongitude: string)
    requires ',' !in northLatitude && ',' !in westLongitude
    requires ',' !in southLatitude && ',' !in eastLongitude
    ensures ParseBounds(BoundsValue(northLatitude, westLongitude, southLatitude, eastLongitude))
      == Some([northLatitude, westLongitude, southLatitude, eastLongitude])
  {
    var v := BoundsValue(northLatitude, westLongitude, southLatitude, eastLongitude);
    var coords := [northLatitude, westLongitude, southLatitude, eastLongitude];
    var tail2 := [southLatitude, eastLongitude];
    assert tail2[1..] == [eastLongitude];
    assert Implode(",", tail2) == southLatitude + "," + eastLongitude;
    var tail3 := [westLongitude, southLatitude, eastLongitude];
    assert tail3[1..] == tail2;
    assert Implode(",", tail3) == westLongitude + "," + (southLatitude + "," + eastLongitude);
    assert coords[1..] == tail3;
    assert Implode(",", coords) == northLatitude + "," + westLongitude + "," + southLatitude + "," + eastLongitude;
    assert v[..|BoundsPrefix|] == BoundsPrefix && v[|BoundsPrefix|..] == Implode(",", coords);
    ExplodeImplode(',', coords);
  }

  /** When the caller omits it, the limit is 100. */
  lemma {:induction false} BoundsDefaultLimit(c: Config, northLatitude: string, westLongitude: string,
                           southLatitude: string, eastLongitude: string)
    ensures Lookup(ForecastByBounds(c, northLatitude, westLongitude, southLatitude, eastLongitude).query, LimitKey)
      == Some(Int(100))
  {
    BoundsQueryParams(c, northLatitude, westLongitude, southLatitude, eastLongitude, 100, []);
  }
}
