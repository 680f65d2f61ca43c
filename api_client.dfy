/**
 * The request descriptors built by the weather API client: its stored
 * configuration, the default query parameters, and the three endpoint
 * builders. Each builder returns the (method, path, query) triple that
 * the client hands to its HTTP transport.
 */
module ApiClient {
  import opened Wrappers
  import opened Strings
  import opened PhpArray

  /** A query-string value: a string, an integer, or a list of strings. */
  datatype QueryValue = Str(s: string) | Int(n: int) | List(items: seq<string>)

  /** The query parameters, as an ordered PHP array. */
  type Query = Array<QueryValue>

  /** What the client stores: set once by the constructor and never updated. */
  datatype Config = Config(url: string, token: string, format: string, models: seq<string>)

  /** A request handed to the transport. */
  datatype Request = Request(verb: string, path: string, query: Query)

  const FormatKey: Key := Name("f")
  const TokenKey: Key := Name("token")
  const ModelsKey: Key := Name("models")
  const QueryKey: Key := Name("query")
  const LimitKey: Key := Name("limit")

  /** The fields the constructor stores; models default to none and the format to JSON. */
  function NewClient(apiUrl: string, token: string, models: seq<string> := [], format: string := "json"): (c: Config)
    ensures c.url == apiUrl && c.token == token && c.models == models && c.format == format
  {
    Config(apiUrl, token, format, models)
  }

  /**
   * The seeded defaults `f` and `token`, then `models` joined by commas when
   * there are any: string keys only, none twice.
   */
  function DefaultParams(c: Config): (d: Query)
    ensures d ==
      [(FormatKey, Str(c.format)), (TokenKey, Str(c.token))]
      + if c.models != [] then [(ModelsKey, Str(Implode(",", c.models)))] else []
    ensures NamesOnly(d) && DistinctKeys(d)
  {
    var seeded := [(FormatKey, Str(c.format)), (TokenKey, Str(c.token))];
    SeededDefaults(seeded, Str(Implode(",", c.models)));
    if c.models != [] then Assign(seeded, ModelsKey, Str(Implode(",", c.models))) else seeded
  }

  /** The two seeded defaults have distinct string keys, and `models` is new to them. */
  lemma {:induction false} SeededDefaults(seeded: Query, m: QueryValue)
    requires |seeded| == 2 && seeded[0].0 == FormatKey && seeded[1].0 == TokenKey
    ensures NamesOnly(seeded) && DistinctKeys(seeded)
    ensures Assign(seeded, ModelsKey, m) == seeded + [(ModelsKey, m)]
    ensures NamesOnly(seeded + [(ModelsKey, m)]) && DistinctKeys(seeded + [(ModelsKey, m)])
  {
    assert Keys(seeded) == [FormatKey, TokenKey];
    AssignFresh(seeded, ModelsKey, m);
    KeysAppend(seeded, (ModelsKey, m));
  }

  /**
   * The defaults overlaid with the caller's parameters by `array_merge`:
   * without parameters the defaults themselves; always distinct keys, the
   * default keys first and in their order.
   */
  function BuildQuery(c: Config, params: Query := []): (q: Query)
    ensures params == [] ==> q == DefaultParams(c)
    ensures DistinctKeys(q)
    ensures Keys(DefaultParams(c)) <= Keys(q)
  {
    ArrayMergeEmpty(DefaultParams(c));
    ArrayMergeKeepsPositions(DefaultParams(c), params);
    ArrayMerge(DefaultParams(c), params)
  }

  /**
   * A non-empty per-call model list is assigned to `models` as the list
   * itself, every other key keeping its value; an empty list changes nothing.
   */
  function OverrideModels(q: Query, models: seq<string>): (r: Query)
    ensures models == [] ==> r == q
    ensures models != [] ==> Lookup(r, ModelsKey) == Some(List(models))
    ensures forall k :: k != ModelsKey ==> Lookup(r, k) == Lookup(q, k)
  {
    AssignLeavesOthers(q, ModelsKey, List(models));
    if models != [] then Assign(q, ModelsKey, List(models)) else q
  }

  /**
   * The query of every forecast request, written out entry by entry:
   * `f`, `token`, then `models` when a list is known, the per-call list
   * taking precedence over the configured one.
   */
  function ForecastQuery(c: Config, models: seq<string>): Query
  {
    [(FormatKey, Str(c.format)), (TokenKey, Str(c.token))]
    + if models != [] then [(ModelsKey, List(models))]
      else if c.models != [] then [(ModelsKey, Str(Implode(",", c.models)))]
      else []
  }

  /** The per-call override applied to the merged defaults gives the forecast query. */
  lemma {:induction false} ForecastQueryIsBuilt(c: Config, models: seq<string>)
    ensures OverrideModels(BuildQuery(c), models) == ForecastQuery(c, models)
  {
    var seeded := [(FormatKey, Str(c.format)), (TokenKey, Str(c.token))];
    if models != [] {
      if c.models != [] {
        AssignExisting(seeded, ModelsKey, Str(Implode(",", c.models)), [], List(models));
        assert seeded + [(ModelsKey, Str(Implode(",", c.models)))] + [] == BuildQuery(c);
      } else {
        assert seeded + [] == seeded;
        assert BuildQuery(c) == seeded;
        AssignFresh(seeded, ModelsKey, List(models));
        assert OverrideModels(BuildQuery(c), models) == seeded + [(ModelsKey, List(models))];
        assert ForecastQuery(c, models) == seeded + [(ModelsKey, List(models))];
      }
    }
  }

  /** `getForecastbyLatLng`: the coordinates are taken as already rendered. */
  function ForecastByLatLng(c: Config, latitude: string, longitude: string, models: seq<string> := []): (r: Request)
    ensures r.verb == "GET"
    ensures r.path == "/api/weather/gps:" + latitude + "," + longitude + "/"
    ensures r.query == ForecastQuery(c, models)
  {
    ForecastQueryIsBuilt(c, models);
    Request("GET", "/api/weather/gps:" + latitude + "," + longitude + "/", OverrideModels(BuildQuery(c), models))
  }

  /** `getForecastByCode`, keeping the space before the closing slash. */
  function ForecastByCode(c: Config, code: string, models: seq<string> := []): (r: Request)
    ensures r.verb == "GET"
    ensures r.path == "/api/weather/iso2:" + code + " /"
    ensures r.query == ForecastQuery(c, models)
  {
    ForecastQueryIsBuilt(c, models);
    Request("GET", "/api/weather/iso2:" + code + " /", OverrideModels(BuildQuery(c), models))
  }

  /** The forecast query's keys: `f`, `token`, then `models` when a list is known. */
  lemma {:induction false} ForecastQueryKeys(c: Config, models: seq<string>)
    ensures Keys(ForecastQuery(c, models)) ==
      [FormatKey, TokenKey] + if models != [] || c.models != [] then [ModelsKey] else []
  {
  }

  /** The bounds query value as the builder renders it. */
  function BoundsValue(northLatitude: string, westLongitude: string,
                       southLatitude: string, eastLongitude: string): string
  {
    "bounds:" + northLatitude + "," + westLongitude + "," + southLatitude + "," + eastLongitude
  }

  /** `getForecastByBounds`: the forecast query, then `query` and `limit` appended. */
  function ForecastByBounds(c: Config, northLatitude: string, westLongitude: string,
                            southLatitude: string, eastLongitude: string,
                            limit: int := 100, models: seq<string> := []): (r: Request)
    ensures r.verb == "GET"
    ensures r.path == "/api/geo/places/"
    ensures r.query == ForecastQuery(c, models) + [
      (QueryKey, Str(BoundsValue(northLatitude, westLongitude, southLatitude, eastLongitude))),
      (LimitKey, Int(limit))]
  {
    var bounds := Str(BoundsValue(northLatitude, westLongitude, southLatitude, eastLongitude));
    var params := OverrideModels(BuildQuery(c), models);
    ForecastQueryIsBuilt(c, models);
    ForecastQueryKeys(c, models);
    AssignTwoFresh(params, QueryKey, bounds, LimitKey, Int(limit));
    Request("GET", "/api/geo/places/", Assign(Assign(params, QueryKey, bounds), LimitKey, Int(limit)))
  }
}
