/**
 The weather client (`ClienteClima`): a time-bounded cache keyed by the
 lower-cased city name in front of one HTTP GET to the provider, the mapping of
 the HTTP status or transport failure to the client's error kinds, and the
 decoding of the provider's nested JSON into a weather record.

 The network and the clock are parameters: a call is given the current time in
 seconds and the `Response` the provider would give to the request it sends.
 */
module Client {
  import opened Json
  import Text

  /** The validated weather record (`DadosClimaticos`). */
  datatype Record = Record(
    city: string,          // cidade
    temperature: real,     // temperatura
    feelsLike: real,       // sensacao_termica
    humidity: int,         // umidade
    description: string,   // descricao
    windSpeed: real)       // vento_velocidade

  /** The process-wide settings the client copies at construction. */
  datatype Config = Config(apiKey: string, baseUrl: string, units: string, lang: string)

  /** The settings the tool starts with, for a given API key. */
  function DefaultConfig(apiKey: string): Config {
    Config(apiKey, "https://api.openweathermap.org/data/2.5/weather", "metric", "pt_br")
  }

  /** The default cache lifetime, in seconds. */
  const DefaultTtl := 300

  /** The client-side timeout every request carries, in seconds. */
  const RequestTimeout := 10

  /** HTTP status codes the client tells apart (RFC 9110 sections 15.3.1, 15.5.2, 15.5.5). */
  const StatusOk := 200
  const StatusUnauthorized := 401
  const StatusNotFound := 404

  /** The query string of a request. */
  datatype Params = Params(q: string, appid: string, units: string, lang: string)

  /** The one request the client can send. */
  datatype HttpRequest = HttpGet(url: string, params: Params, timeout: int)

  /** What the provider does with a request: answer with a status and a body
      (`None` when the body is not JSON), refuse the connection, or time out. */
  datatype Response =
    | Status(code: int, body: Option<Json>)
    | ConnError
    | Timeout

  /** The client's failures. `NotFound`, `ConnectionFailure`, `InvalidApiKey` and
      `ApiError` are the client's own exceptions; `DecodeError` stands for the
      errors that escape from JSON parsing and record validation. */
  datatype ClientError =
    | NotFound(city: string)
    | ConnectionFailure(timedOut: bool)
    | InvalidApiKey
    | ApiError(code: int)
    | DecodeError

  datatype Outcome<T> = Ok(value: T) | Err(error: ClientError)

  /** The exception classes an error is raised as. */
  datatype ExceptionClass =
    | ClientException    // ClienteClimaException, the base class
    | CityNotFoundError  // CidadeNaoEncontradaError
    | ConnectionError    // ErroDeConexaoError
    | ForeignError       // KeyError, IndexError, validation and JSON errors

  function ClassOf(e: ClientError): ExceptionClass {
    match e
    case NotFound(_) => CityNotFoundError
    case ConnectionFailure(_) => ConnectionError
    case InvalidApiKey => ClientException
    case ApiError(_) => ClientException
    case DecodeError => ForeignError
  }

  /** The class hierarchy: both specific errors derive from the base class. */
  predicate IsA(c: ExceptionClass, base: ExceptionClass) {
    c == base || (base == ClientException && (c == CityNotFoundError || c == ConnectionError))
  }

  /** The query parameters: the city as the user typed it, and the settings. */
  function BuildParams(config: Config, city: string): (p: Params)
    ensures p.q == city
    ensures p.appid == config.apiKey && p.units == config.units && p.lang == config.lang
  {
    Params(city, config.apiKey, config.units, config.lang)
  }

  /** The error an HTTP status other than 200 is reported as. */
  function StatusError(code: int, city: string): ClientError {
    if code == StatusNotFound then NotFound(city)
    else if code == StatusUnauthorized then InvalidApiKey
    else ApiError(code)
  }

  /** The outcome of sending `request`: the parsed body on 200, otherwise the error
      the status or the transport failure is mapped to. */
  function Send(request: HttpRequest, response: Response): (r: Outcome<Json>)
  {
    match response
    case ConnError => Err(ConnectionFailure(false))
    case Timeout => Err(ConnectionFailure(true))
    case Status(code, body) =>
      if code != StatusOk then Err(StatusError(code, request.params.q))
      else match body
           case None => Err(DecodeError)
           case Some(j) => Ok(j)
  }

  /** The status table, in both directions: the body is returned exactly for a
      200 carrying JSON, every other status gives its own error with the code
      attached, and both transport failures are connection failures. */
  lemma SendTable(request: HttpRequest, response: Response)
    ensures Send(request, response).Ok? <==> response.Status? && response.code == StatusOk && response.body.Some?
    ensures Send(request, response).Ok? ==> Send(request, response).value == response.body.value
    ensures response.Status? && response.code == StatusNotFound ==>
              Send(request, response) == Err(NotFound(request.params.q))
    ensures response.Status? && response.code == StatusUnauthorized ==>
              Send(request, response) == Err(InvalidApiKey)
    ensures response.Status? && response.code !in {StatusOk, StatusNotFound, StatusUnauthorized} ==>
              Send(request, response) == Err(ApiError(response.code))
    ensures response.Status? && response.code != StatusOk ==>
              Send(request, response) == Err(StatusError(response.code, request.params.q))
    ensures response.Status? && response.code == StatusOk && response.body.None? ==>
              Send(request, response) == Err(DecodeError)
    ensures Send(request, response) == Err(ConnectionFailure(false)) <==> response == ConnError
    ensures Send(request, response) == Err(ConnectionFailure(true)) <==> response == Timeout
  {
  }

  /** The error kinds partition the status codes: exactly 404 is "not found",
      exactly 401 the invalid key, and a generic error carries its own code. */
  lemma StatusErrorKinds(code: int, city: string)
    requires code != StatusOk
    ensures StatusError(code, city).NotFound? <==> code == StatusNotFound
    ensures StatusError(code, city).InvalidApiKey? <==> code == StatusUnauthorized
    ensures StatusError(code, city).ApiError? ==> StatusError(code, city).code == code
    ensures IsA(ClassOf(StatusError(code, city)), ClientException)
    ensures StatusError(code, city).NotFound? ==> StatusError(code, city).city == city
  {
  }

  function AsString(j: Option<Json>): Option<string> {
    if j.Some? && j.value.JString? then Some(j.value.str) else None
  }

  function AsReal(j: Option<Json>): Option<real> {
    if j.Some? && j.value.JNumber? then Some(j.value.num) else None
  }

  /** An integer field accepts a JSON number with no fractional part. */
  function AsInt(j: Option<Json>): Option<int> {
    if j.Some? && j.value.JNumber? && j.value.num.Floor as real == j.value.num
    then Some(j.value.num.Floor) else None
  }

  /** `_processar_resposta`: the record held by the body's nested fields, the
      city falling back to `city` when the body has no `name`. */
  function Decode(body: Json, city: string): (r: Outcome<Record>)
  {
    var main := Member(body, "main");
    var weather := if main.Some? then Member(body, "weather") else None;
    var first := if weather.Some? then First(weather.value) else None;
    var wind := if first.Some? then Member(body, "wind") else None;
    if wind.None? then Err(DecodeError)
    else
      var name := if Member(body, "name").Some? then AsString(Member(body, "name")) else Some(city);
      var temp := AsReal(Member(main.value, "temp"));
      var feels := AsReal(Member(main.value, "feels_like"));
      var humidity := AsInt(Member(main.value, "humidity"));
      var description := AsString(Member(first.value, "description"));
      var speed := AsReal(Member(wind.value, "speed"));
      if name.None? || temp.None? || feels.None? || humidity.None? || description.None? || speed.None?
      then Err(DecodeError)
      else Ok(Record(name.value, temp.value, feels.value, humidity.value, description.value, speed.value))
  }

  /** The provider's wire form of a record, as the provider would send it with
      the city's `name`. */
  function ProviderBody(rec: Record): (j: Json) {
    JObject(map[
      "name" := JString(rec.city),
      "main" := JObject(map[
        "temp" := JNumber(rec.temperature),
        "feels_like" := JNumber(rec.feelsLike),
        "humidity" := JNumber(rec.humidity as real)]),
      "weather" := JArray([JObject(map["description" := JString(rec.description)])]),
      "wind" := JObject(map["speed" := JNumber(rec.windSpeed)])])
  }

  /** The same body without the optional `name`. */
  function Unnamed(j: Json): Json {
    if j.JObject? then JObject(j.members - {"name"}) else j
  }

  /** Decoding the provider's form of a record gives the record back. */
  lemma DecodeProviderBody(rec: Record, city: string)
    ensures Decode(ProviderBody(rec), city) == Ok(rec)
  {
    assert (rec.humidity as real).Floor == rec.humidity;
  }

  /** Without `name`, the record's city is the queried city. */
  lemma DecodeNameFallback(rec: Record, city: string)
    ensures Decode(Unnamed(ProviderBody(rec)), city) == Ok(rec.(city := city))
  {
    assert (rec.humidity as real).Floor == rec.humidity;
    var j := Unnamed(ProviderBody(rec));
    assert "name" !in j.members;
    assert j.members["main"] == ProviderBody(rec).members["main"];
    assert j.members["weather"] == ProviderBody(rec).members["weather"];
    assert j.members["wind"] == ProviderBody(rec).members["wind"];
  }

  /** Field by field: a decoded record holds exactly the values found at
      `main.temp`, `main.feels_like`, `main.humidity`, `weather[0].description`
      and `wind.speed`, and the `name` (or the queried city). A missing `main`,
      `weather` or `wind`, or an empty `weather` list, gives no record. */
  lemma DecodeFields(body: Json, city: string)
    ensures Decode(body, city).Ok? ==>
      && body.JObject?
      && "main" in body.members && "weather" in body.members && "wind" in body.members
      && var main, weather, wind := body.members["main"], body.members["weather"], body.members["wind"];
      && var rec := Decode(body, city).value;
      && weather.JArray? && |weather.items| > 0
      && Member(main, "temp") == Some(JNumber(rec.temperature))
      && Member(main, "feels_like") == Some(JNumber(rec.feelsLike))
      && Member(main, "humidity") == Some(JNumber(rec.humidity as real))
      && Member(weather.items[0], "description") == Some(JString(rec.description))
      && Member(wind, "speed") == Some(JNumber(rec.windSpeed))
      && ("name" in body.members ==> body.members["name"].JString?)
      && rec.city == (if "name" in body.members then body.members["name"].str else city)
    ensures Member(body, "main").None? ==> Decode(body, city) == Err(DecodeError)
    ensures Member(body, "wind").None? ==> Decode(body, city) == Err(DecodeError)
    ensures (Member(body, "weather").None? || First(Member(body, "weather").value).None?) ==>
              Decode(body, city) == Err(DecodeError)
    ensures Decode(body, city).Err? ==> Decode(body, city) == Err(DecodeError)
  {
    if Decode(body, city).Ok? {
      var rec := Decode(body, city).value;
      var h := AsInt(Member(body.members["main"], "humidity"));
      assert h.Some? && h.value == rec.humidity;
      assert Member(body.members["main"], "humidity").value.num == rec.humidity as real;
    }
  }

  /** The well-typed fields at the five paths make a record, whatever else the
      body holds (`coord`, `sys`, `main.pressure`, ...); without `name` its city
      is the queried one. */
  lemma DecodeComplete(body: Json, city: string, temp: real, feels: real, humidity: int,
                       description: string, speed: real)
    requires body.JObject? && "main" in body.members && "weather" in body.members && "wind" in body.members
    requires "name" !in body.members
    requires Member(body.members["main"], "temp") == Some(JNumber(temp))
    requires Member(body.members["main"], "feels_like") == Some(JNumber(feels))
    requires Member(body.members["main"], "humidity") == Some(JNumber(humidity as real))
    requires First(body.members["weather"]).Some?
    requires Member(First(body.members["weather"]).value, "description") == Some(JString(description))
    requires Member(body.members["wind"], "speed") == Some(JNumber(speed))
    ensures Decode(body, city) == Ok(Record(city, temp, feels, humidity, description, speed))
  {
    assert (humidity as real).Floor == humidity;
  }

  /** The same with a string `name`: the record carries the provider's name. */
  lemma DecodeCompleteNamed(body: Json, city: string, name: string, temp: real, feels: real, humidity: int,
                            description: string, speed: real)
    requires body.JObject? && "main" in body.members && "weather" in body.members && "wind" in body.members
    requires Member(body, "name") == Some(JString(name))
    requires Member(body.members["main"], "temp") == Some(JNumber(temp))
    requires Member(body.members["main"], "feels_like") == Some(JNumber(feels))
    requires Member(body.members["main"], "humidity") == Some(JNumber(humidity as real))
    requires First(body.members["weather"]).Some?
    requires Member(First(body.members["weather"]).value, "description") == Some(JString(description))
    requires Member(body.members["wind"], "speed") == Some(JNumber(speed))
    ensures Decode(body, city) == Ok(Record(name, temp, feels, humidity, description, speed))
  {
    assert (humidity as real).Floor == humidity;
  }

  /** A cache entry: the record and the time it was stored. */
  datatype Entry = Entry(record: Record, storedAt: int)

  type Cache = map<string, Entry>

  /** An entry is fresh while its age is strictly below the lifetime. */
  predicate Fresh(cache: Cache, key: string, ttl: int, now: int) {
    key in cache && now - cache[key].storedAt < ttl
  }

  /** What one lookup produces: its outcome, the request it sent (`None` on a
      cache hit) and the cache afterwards. */
  datatype Fetched = Fetched(outcome: Outcome<Record>, sent: Option<HttpRequest>, cache: Cache)

  /** `buscar_clima`, as a function of the cache before the call. */
  function FetchSpec(config: Config, ttl: int, cache: Cache, city: string, now: int, response: Response): Fetched
  {
    var key := Text.Lower(city);
    if Fresh(cache, key, ttl, now) then Fetched(Ok(cache[key].record), None, cache)
    else
      var request := HttpGet(config.baseUrl, BuildParams(config, city), RequestTimeout);
      match Send(request, response)
      case Err(e) => Fetched(Err(e), Some(request), cache)
      case Ok(body) =>
        match Decode(body, city)
        case Err(e) => Fetched(Err(e), Some(request), cache)
        case Ok(rec) => Fetched(Ok(rec), Some(request), cache[key := Entry(rec, now)])
  }

  /** A fresh entry is returned as it is, nothing is sent, the provider's
      response plays no part, and the cache does not change. */
  lemma CacheHit(config: Config, ttl: int, cache: Cache, city: string, now: int, response: Response)
    requires Fresh(cache, Text.Lower(city), ttl, now)
    ensures var f := FetchSpec(config, ttl, cache, city, now, response);
      f.outcome == Ok(cache[Text.Lower(city)].record) && f.sent.None? && f.cache == cache
  {
  }

  /** A request is sent exactly when the entry is missing or its age has reached the lifetime. */
  lemma SendsIffStale(config: Config, ttl: int, cache: Cache, city: string, now: int, response: Response)
    ensures var f := FetchSpec(config, ttl, cache, city, now, response);
      f.sent.Some? <==> !Fresh(cache, Text.Lower(city), ttl, now)
  {
  }

  /** An entry exactly `ttl` seconds old (or older) is a miss. */
  lemma TtlBoundary(config: Config, ttl: int, cache: Cache, city: string, now: int, response: Response)
    requires Text.Lower(city) in cache
    requires now - cache[Text.Lower(city)].storedAt >= ttl
    ensures FetchSpec(config, ttl, cache, city, now, response).sent.Some?
  {
  }

  /** A request carries the configured endpoint, the 10-second timeout, the city
      as typed (not lower-cased) and the configured key, units and language. */
  lemma RequestCarriesQuery(config: Config, ttl: int, cache: Cache, city: string, now: int, response: Response)
    ensures var f := FetchSpec(config, ttl, cache, city, now, response);
      f.sent.Some? ==>
        && f.sent.value.url == config.baseUrl
        && f.sent.value.timeout == RequestTimeout
        && f.sent.value.params == Params(city, config.apiKey, config.units, config.lang)
  {
  }

  /** The client `executar` builds: every request goes to the provider's
      current-weather endpoint, in metric units and Brazilian Portuguese, with
      the key it was given. */
  lemma DefaultRequest(apiKey: string, cache: Cache, city: string, now: int, response: Response)
    ensures var f := FetchSpec(DefaultConfig(apiKey), DefaultTtl, cache, city, now, response);
      f.sent.Some? ==>
        f.sent.value == HttpGet("https://api.openweathermap.org/data/2.5/weather",
                                Params(city, apiKey, "metric", "pt_br"), 10)
  {
  }

  /** A lookup that sends a request and succeeds stores exactly its record with
      the current time under the lower-cased name, and no other key changes. */
  lemma StoreOnSuccess(config: Config, ttl: int, cache: Cache, city: string, now: int, response: Response)
    ensures var f := FetchSpec(config, ttl, cache, city, now, response);
      f.sent.Some? && f.outcome.Ok? ==>
        && f.cache.Keys == cache.Keys + {Text.Lower(city)}
        && f.cache[Text.Lower(city)] == Entry(f.outcome.value, now)
        && forall k :: k in cache && k != Text.Lower(city) ==> f.cache[k] == cache[k]
  {
  }

  /** Success is decided by the response alone: a request that gets a 200 with a
      decodable body succeeds with the decoded record. */
  lemma SuccessIffDecodable(config: Config, ttl: int, cache: Cache, city: string, now: int, response: Response)
    requires !Fresh(cache, Text.Lower(city), ttl, now)
    ensures var f := FetchSpec(config, ttl, cache, city, now, response);
      f.outcome.Ok? <==>
        response.Status? && response.code == StatusOk && response.body.Some?
        && Decode(response.body.value, city).Ok?
  {
  }

  /** Every failure leaves the cache exactly as it was, a stale entry for the
      same name included. */
  lemma FailureKeepsCache(config: Config, ttl: int, cache: Cache, city: string, now: int, response: Response)
    ensures var f := FetchSpec(config, ttl, cache, city, now, response);
      f.outcome.Err? ==> f.cache == cache && f.sent.Some?
  {
  }

  /** A 404 always reports the queried city as not found and never fills the cache. */
  lemma NotFoundNeverCached(config: Config, ttl: int, cache: Cache, city: string, now: int, body: Option<Json>)
    requires !Fresh(cache, Text.Lower(city), ttl, now)
    ensures var f := FetchSpec(config, ttl, cache, city, now, Status(StatusNotFound, body));
      f.outcome == Err(NotFound(city)) && f.cache == cache
  {
  }

  /** A lookup of another name leaves a cached entry as it is. */
  lemma FetchKeepsOther(config: Config, ttl: int, cache: Cache, city: string, now: int, response: Response,
                        key: string)
    requires key in cache && Text.Lower(city) != key
    ensures var f := FetchSpec(config, ttl, cache, city, now, response);
      key in f.cache && f.cache[key] == cache[key]
  {
  }

  /** After any successful lookup the name is cached. */
  lemma OkImpliesCached(config: Config, ttl: int, cache: Cache, city: string, now: int, response: Response)
    ensures var f := FetchSpec(config, ttl, cache, city, now, response);
      f.outcome.Ok? ==> Text.Lower(city) in f.cache && f.cache[Text.Lower(city)].record == f.outcome.value
  {
  }

  /** A second lookup of the same name, in any letter case, within the lifetime
      of a fetched record returns that record without a request. */
  lemma SecondLookupHits(config: Config, ttl: int, cache: Cache, city1: string, now1: int, response1: Response,
                         city2: string, now2: int, response2: Response)
    requires Text.Lower(city1) == Text.Lower(city2)
    requires now2 - now1 < ttl
    ensures var f1 := FetchSpec(config, ttl, cache, city1, now1, response1);
      var f2 := FetchSpec(config, ttl, f1.cache, city2, now2, response2);
      f1.sent.Some? && f1.outcome.Ok? ==> f2.outcome == f1.outcome && f2.sent.None? && f2.cache == f1.cache
  {
  }

  /** "London" then "LONDON" within the lifetime: one request, the same record. */
  lemma LondonThenUpperLondon(config: Config, ttl: int, cache: Cache, now1: int, response1: Response,
                              now2: int, response2: Response)
    requires now2 - now1 < ttl
    ensures var f1 := FetchSpec(config, ttl, cache, "London", now1, response1);
      var f2 := FetchSpec(config, ttl, f1.cache, "LONDON", now2, response2);
      f1.sent.Some? && f1.outcome.Ok? ==> f2.outcome == f1.outcome && f2.sent.None?
  {
    assert Text.Lower("London") == Text.Lower("LONDON") == "london";
    SecondLookupHits(config, ttl, cache, "London", now1, response1, "LONDON", now2, response2);
  }

  /** The provider's sample answer for London decodes to the expected record. */
  lemma LondonSample(config: Config, ttl: int, now: int)
    ensures var body := JObject(map[
        "name" := JString("London"),
        "main" := JObject(map["temp" := JNumber(15.0), "feels_like" := JNumber(14.2), "humidity" := JNumber(80.0)]),
        "weather" := JArray([JObject(map["description" := JString("light rain")])]),
        "wind" := JObject(map["speed" := JNumber(3.5)])]);
      FetchSpec(config, ttl, map[], "London", now, Status(StatusOk, Some(body))).outcome
        == Ok(Record("London", 15.0, 14.2, 80, "light rain", 3.5))
  {
    var rec := Record("London", 15.0, 14.2, 80, "light rain", 3.5);
    DecodeProviderBody(rec, "London");
    assert (80 as real) == 80.0;
  }

  /** A body without `main` never yields a record. */
  lemma MissingMain(config: Config, ttl: int, cache: Cache, city: string, now: int, body: Json)
    requires !Fresh(cache, Text.Lower(city), ttl, now)
    requires Member(body, "main").None?
    ensures var f := FetchSpec(config, ttl, cache, city, now, Status(StatusOk, Some(body)));
      f.outcome == Err(DecodeError) && f.cache == cache
  {
    DecodeFields(body, city);
  }

  /** `ClienteClima`: the settings, the cache lifetime and the cache. */
  class WeatherClient {
    const config: Config
    const ttl: int
    var cache: Cache

    constructor (config: Config, ttl: int := DefaultTtl)
      ensures this.config == config && this.ttl == ttl
      ensures cache == map[]
    {
      this.config := config;
      this.ttl := ttl;
      cache := map[];
    }

    /** `buscar_clima(city)` at time `now`, the provider answering `response`. */
    method Fetch(city: string, now: int, response: Response) returns (outcome: Outcome<Record>, sent: Option<HttpRequest>)
      modifies this
      ensures Fetched(outcome, sent, cache) == FetchSpec(config, ttl, old(cache), city, now, response)
    {
      var key := Text.Lower(city);
      if key in cache {
        var entry := cache[key];
        var age := now - entry.storedAt;
        if age < ttl {
          return Ok(entry.record), None;
        }
      }
      var request := HttpGet(config.baseUrl, BuildParams(config, city), RequestTimeout);
      sent := Some(request);
      var reply := Send(request, response);
      if reply.Err? {
        return Err(reply.error), sent;
      }
      outcome := Decode(reply.value, city);
      if outcome.Err? {
        return;
      }
      cache := cache[key := Entry(outcome.value, now)];
    }
  }
}
