# O Termômetro: the weather client and the input loop, in Dafny

O Termômetro is a small console tool. It reads city names, asks the
OpenWeatherMap provider for the current weather of each one, shows the result
and exports it as a JSON file. This project models its two pieces of decision
logic and proves their properties.

- **The weather client (`ClienteClima`).** A time-bounded cache sits in front of
  one HTTP GET. The cache is keyed by the lower-cased city name, and a stored
  record is served while its age is strictly below the lifetime (300 seconds by
  default). On a miss the client:
  - builds the query from the city as typed;
  - maps the HTTP status or the transport failure to its own error kinds
    (404 first, then 401, then any other code that is not 200);
  - decodes the provider's nested JSON into a record, the city falling back to
    the queried name when the body has no `name`;
  - stores the record only when all of this succeeds.
- **The input loop (`executar`).** Each line is stripped. A line that
  lower-cases to `sair` ends the session and an empty line re-prompts. Any
  other line is split on commas, each token is stripped, and each non-empty
  token is looked up once, in order. A success is exported under
  `exports/clima_<provider city>_<timestamp>.json`. A failure is reported by the
  most specific of the three `except` clauses. Only an error outside the
  client's own exception hierarchy (a decoding error) escapes and ends the
  session.

The network, the clock and the console are parameters:
- a lookup is given the current time in seconds and the provider's `Response`
  (a status with an optional JSON body, a refused connection, or a timeout);
- the loop is given the lines typed and a `world` that supplies the time,
  the response and the formatted export timestamp of its k-th lookup.

Files and modules:
- `text.dfy` (`Text`): Python's `str.isspace`, `str.lower` for ASCII and Latin-1
  capitals, `str.strip`, and `str.split` on one character with its inverse `Join`.
- `json.dfy` (`Json`): the JSON values `resposta.json()` yields, and the `dict`
  and `list` indexing the decoder uses.
- `client.dfy` (`Client`):
  - the record, the settings, the request and response, and the error kinds
    with their exception classes;
  - the status table `Send` and the decoder `Decode`;
  - `FetchSpec`, which is `buscar_clima` as a function of the cache;
  - the class `WeatherClient`, whose method `Fetch` updates its `cache` field
    in place and is proved equal to `FetchSpec`.
- `app.dfy` (`App`):
  - line classification and tokenisation, and the export path;
  - the loop as the functions `RunCities` (one line) and `RunLines` (the
    session), generic over the lookup;
  - the imperative methods `RunBatch` and `Run`, proved equal to those
    functions over the client's own lookup, and `Execute`, which builds the
    default client and runs the session.

Three details of the code that the model keeps as they are:
- the export file name starts with `clima_`;
- an entry whose age equals the lifetime is already stale
  (`idade < self._tempo_cache`, src/cliente.py:77);
- the humidity is not range-checked.

## Model

| member | source | states |
|---|---|---|
| `Text.Lower` | src/cliente.py:71 | the lower-cased name has the same length and no upper-case letter; every other character is unchanged and each ASCII or Latin-1 capital moves to its small letter |
| `Text.LowerIdempotent` | src/cliente.py:71 | a lower-cased key lower-cases to itself |
| `Text.LowerIgnoresCase` | src/cliente.py:71 | two names of one length whose characters agree at each position or are a capital and its small letter have the same cache key |
| `Text.Strip` | src/main.py:104 | the stripped line is no longer than the line and has no whitespace at either end |
| `Text.StripEmpty` | src/main.py:104-114 | a line strips to the empty string exactly when it is whitespace only |
| `Text.StripKeeps` | src/main.py:104 | every non-whitespace character of the line survives stripping |
| `Text.StripFront` | src/main.py:104 | whitespace in front of a string does not change its stripped form |
| `Text.StripBack` | src/main.py:104 | whitespace behind a string does not change its stripped form |
| `Text.StripPadded` | src/main.py:117 | a word padded with whitespace on either side strips to the word |
| `Text.Split` | src/main.py:117 | `str.split` on one character; its lemmas `SplitPartsFree`, `SplitLength`, `JoinSplit` and `SplitJoin` fix it as the separator-free parts that `Join` turns back into the line |
| `Text.SplitPartsFree` | src/main.py:117 | no part of a split holds the separator |
| `Text.SplitLength` | src/main.py:117 | a split has one part more than the line has commas |
| `Text.JoinSplit` | src/main.py:117 | joining the parts of a split with the separator gives the line back |
| `Text.SplitJoin` | src/main.py:117 | splitting the join of separator-free parts gives the parts back, empty parts included |
| `Json.Member` | src/cliente.py:177-179 | `j[key]` succeeds exactly on an object holding the key, and yields that key's value |
| `Json.First` | src/cliente.py:178 | `j[0]` as the decoder uses it: a non-empty list yields its first item, anything else `None`; a non-empty string also indexes in Python, but the `["description"]` read at line 188 then fails, so the decoding result is the same |
| `Client.ClassOf` | src/cliente.py:135-159 | the class each error is raised as: not found as `CidadeNaoEncontradaError`, both transport failures as `ErroDeConexaoError`, the invalid key and other codes as `ClienteClimaException`, a decoding error as none of these; `CatchMostSpecific` and `StatusErrorKinds` state it |
| `Client.IsA` | src/cliente.py:15-27 | the exception hierarchy: both specific errors derive from `ClienteClimaException`; `CatchMostSpecific` states which clause then catches each error |
| `Client.BuildParams` | src/cliente.py:95-110 | the query carries the city as typed and the configured key, units and language |
| `Client.Send` | src/cliente.py:112-159 | `_fazer_requisicao` on the given response; `SendTable` and `StatusErrorKinds` state its status table |
| `Client.SendTable` | src/cliente.py:127-159 | the body is returned exactly for a 200 carrying JSON; 404 is not found with the queried city, 401 the invalid key, every other code not 200 a generic error with its code; a refused connection and a timeout are both connection failures |
| `Client.StatusError` | src/cliente.py:135-148 | the 404, then 401, then other-code chain that `Send` delegates to; `StatusErrorKinds` states it in both directions |
| `Client.StatusErrorKinds` | src/cliente.py:135-148 | exactly 404 is "not found", exactly 401 is the invalid key, a generic error carries its code, and every status error is a `ClienteClimaException` |
| `Client.RequestCarriesQuery` | src/cliente.py:105-132 | a request goes to the configured endpoint with the 10-second timeout, the city as typed (not lower-cased) and the configured key, units and language |
| `Client.DecodeProviderBody` | src/cliente.py:177-190 | decoding the provider's form of a record gives the record back |
| `Client.DecodeNameFallback` | src/cliente.py:184 | without `name` in the body, the record carries the queried city and the body's other fields |
| `Client.Decode` | src/cliente.py:161-190 | `_processar_resposta`; its lemmas `DecodeFields`, `DecodeComplete` and `DecodeCompleteNamed` give both directions: a record is decoded exactly when the five paths hold well-typed values and `name` is absent or a string, and it holds those values |
| `Client.DecodeComplete` | src/cliente.py:177-190 | a body with well-typed values at `main.temp`, `main.feels_like`, `main.humidity`, `weather[0].description` and `wind.speed` and no `name` decodes to those values and the queried city, whatever other members it holds |
| `Client.DecodeCompleteNamed` | src/cliente.py:177-190 | the same body with a string `name` decodes to those values and that name |
| `Client.DecodeFields` | src/cliente.py:177-190 | a decoded record holds exactly `main.temp`, `main.feels_like`, `main.humidity`, `weather[0].description`, `wind.speed` and the `name` or the queried city; a present `name` is a string, so a null or numeric `name` is a decoding error; a missing `main`, `weather` or `wind`, or an empty `weather` list, gives a decoding error |
| `Client.LondonSample` | src/cliente.py:177-190 | the provider's sample answer for London decodes to London, 15.0, 14.2, 80, light rain, 3.5 |
| `Client.MissingMain` | src/cliente.py:177 | a 200 body without `main` is a decoding error and leaves the cache alone |
| `Client.FetchSpec` | src/cliente.py:56-93 | `buscar_clima` as a function of the cache; the lemmas from `CacheHit` to `LondonThenUpperLondon` state its hit, miss, store and failure behaviour |
| `Client.DefaultRequest` | src/config.py:26-29 | the client `executar` builds sends every request to the provider's current-weather endpoint, in metric units and `pt_br`, with its key and the 10-second timeout |
| `Client.Fresh` | src/cliente.py:74-77 | the hit test: the key is cached and its age is strictly below the lifetime; `CacheHit`, `SendsIffStale` and `TtlBoundary` state what each side of it does |
| `Client.CacheHit` | src/cliente.py:74-79 | a fresh entry is returned as it is: no request is sent, the response plays no part and the cache does not change |
| `Client.SendsIffStale` | src/cliente.py:74-85 | a request is sent exactly when the entry is missing or has reached the lifetime |
| `Client.TtlBoundary` | src/cliente.py:76-77 | an entry whose age is the lifetime or more is a miss and triggers a request |
| `Client.StoreOnSuccess` | src/cliente.py:82-91 | a successful miss stores its record with the current time under the lower-cased name; no other key changes and no key is added besides it |
| `Client.SuccessIffDecodable` | src/cliente.py:82-93 | on a miss the lookup succeeds exactly when the response is a 200 whose body decodes |
| `Client.FailureKeepsCache` | src/cliente.py:82-91 | every failure comes from a request that was sent, and it leaves the cache exactly as it was, a stale entry for the same name included |
| `Client.FetchKeepsOther` | src/cliente.py:71-91 | a lookup leaves the cache entry of every other lower-cased name as it was |
| `Client.NotFoundNeverCached` | src/cliente.py:135-138 | a 404 reports the queried city as not found and never fills the cache |
| `Client.OkImpliesCached` | src/cliente.py:88-93 | after any successful lookup, hit or miss, the name is cached with the record returned |
| `Client.SecondLookupHits` | src/cliente.py:71-91 | a second lookup of the same name, in any letter case and within the lifetime of a fetched record, returns that record without a request |
| `Client.LondonThenUpperLondon` | src/cliente.py:71-91 | "London" then "LONDON" within the lifetime: one request, the same record |
| `Client.WeatherClient.constructor` | src/cliente.py:43-54 | a new client keeps the settings and the lifetime it is given and starts with an empty cache |
| `Client.WeatherClient.Fetch` | src/cliente.py:56-93 | the outcome, the request sent and the new cache are those of `FetchSpec` on the old cache |
| `App.Classify` | src/main.py:104-117 | the exit test, then the empty test, then the tokens of the stripped line; `ClassifyCases` states the three cases in both directions |
| `App.StripEach` | src/main.py:117 | one token per part, each the stripped part |
| `App.Tokens` | src/main.py:117 | the stripped comma-separated parts of a line; `ClassifyJoined`, `EmptyToken` and `UnpaddedTokens` state what it yields |
| `App.ClassifyCases` | src/main.py:104-117 | a line is the exit command exactly when it strips and lower-cases to `sair`, blank exactly when it is whitespace only, and otherwise the tokens of the stripped line |
| `App.QuitAnyCase` | src/main.py:104-109 | `sair` in any letter case with any whitespace around it ends the session |
| `App.CommaNeverQuits` | src/main.py:107-117 | a line holding a comma is neither the exit command nor blank |
| `App.QuitWordIsACity` | src/main.py:107-117 | in `sair,<city>` (any case of `sair`) both tokens are cities to look up |
| `App.ClassifyJoined` | src/main.py:104-117 | a comma-joined line without outer whitespace is a list of cities, one stripped token per part |
| `App.EmptyToken` | src/main.py:117 | `a,,<spaces>b` reads as the tokens `a`, the empty token and `b` |
| `App.SkipEmpty` | src/main.py:120-122 | of the tokens `a`, empty, `b`, exactly `a` and `b` are looked up |
| `App.NonEmpty` | src/main.py:120-122 | the tokens looked up are non-empty tokens of the line, no more of them than there are tokens |
| `App.NonEmptySkip` | src/main.py:120-122 | an empty token adds nothing to the cities looked up |
| `App.NonEmptyOrder` | src/main.py:120-122 | a non-empty token is looked up right after the non-empty tokens before it; with `NonEmptySkip` this fixes the cities looked up on every prefix of the tokens |
| `App.NonEmptyKeepsAll` | src/main.py:120-122 | when no token is empty every token is looked up |
| `App.UnpaddedTokens` | src/main.py:117 | parts without outer whitespace are their own tokens |
| `App.ExportPath` | src/main.py:74-76 | the given path, or the derived one that `ExportPathParts` takes apart |
| `App.ExportPathParts` | src/main.py:74-76 | the derived name is `exports/clima_`, then the record's (provider) city, then `_` and the timestamp, then `.json` |
| `App.FirstHandler` | src/main.py:132-141 | the first `except` clause, in order, whose class the error's class is or derives from |
| `App.Catch` | src/main.py:132-141 | the clause of `executar` that catches an error class; `CatchMostSpecific` states which |
| `App.Report` | src/main.py:124-141 | one lookup's step: exported on success, else handed to `Catch`; `ReportKinds` states it |
| `App.CatchMostSpecific` | src/main.py:132-141 | each of the client's own errors is caught by the clause for its own class; a decoding error is caught by none |
| `App.ReportKinds` | src/main.py:124-141 | a success is exported under the derived name and a failure goes to its own handler; a report escapes exactly on a decoding error |
| `App.RunCities` | src/main.py:117-141 | the inner `for` over one line's tokens; `RunCitiesReported`, `RunCitiesComplete`, `RunCitiesCrashPoint` and `CrashOnlyOnDecodeError` state it |
| `App.RunCitiesReported` | src/main.py:120-141 | every step of a line is exported exactly when it succeeded, and a failed step is reported by the handler for its class |
| `App.RunCitiesComplete` | src/main.py:120-141 | without an escaping error, the cities looked up are exactly the non-empty tokens in order, one lookup each |
| `App.RunCitiesCrashPoint` | src/main.py:120-141 | an escaping error stops the line right after the lookup of the city it names; the non-empty tokens before it were looked up in order |
| `App.CrashOnlyOnDecodeError` | src/main.py:124-141 | a line stops early only on a decoding error, never on one of the client's own exceptions |
| `App.RunCitiesAppend` | src/main.py:120-141 | running two pieces of a line one after the other is running the whole line: the second piece starts from the first one's cache and lookup count, unless the first one stopped on an escaping error |
| `App.ClientLookupLaws` | src/cliente.py:71-91 | the client's lookup keeps three laws: a fresh entry is returned with nothing sent and the cache unchanged; a request that succeeds stores its record stamped with the current time; the entries of other names are left as they are |
| `App.RunCitiesKeepsKey` | src/main.py:120-141 | a line none of whose names lowers to a key keeps that key's cache entry as it was |
| `App.RepeatOnLineHits` | src/main.py:120-125 | a city typed twice on one line, in any letter case, after any tokens and with only other names between: when its first lookup sends a request and succeeds and the repeat comes within the lifetime, the line stops early only at a city between the two, and otherwise the repeat is the last step, sends nothing and reports the same record |
| `App.RunLines` | src/main.py:102-141 | the outer `while True` over the lines typed; `QuitEndsSession`, `BlankReprompts` and `SessionReported` state it, and `LinesBatch` states a line of cities: its tokens run through `RunCities`, then the session goes on from the updated cache and lookup count unless an error escaped |
| `App.QuitEndsSession` | src/main.py:104-109 | the exit command ends the session with nothing looked up |
| `App.BlankReprompts` | src/main.py:111-114 | a whitespace-only line looks nothing up and the loop reads the next line |
| `App.SessionReported` | src/main.py:102-141 | over a whole session every step is reported as its outcome calls for, and the session ends early only on a decoding error |
| `App.RunBatch` | src/main.py:117-141 | the imperative inner loop yields the steps, lookup count, crash and cache of `RunCities` over the client's lookup |
| `App.Run` | src/main.py:102-141 | the imperative session yields the steps, lookup count, stop reason and cache of `RunLines` over the client's lookup |
| `App.Execute` | src/main.py:88-141 | `executar` with a new default client (lifetime 300 seconds, empty cache) yields the steps, lookup count and stop reason of `RunLines` over that client's lookup |

## Left out

- `Text.Lower`: only ASCII and Latin-1 capitals are lower-cased. Python's full Unicode case mapping is not modelled: not the capitals outside Latin-1 (Cyrillic, Greek, `Ł`), and not `İ`, which becomes two characters. This cannot change the `sair` test. It does change the cache: in the model `"МОСКВА"` after `"Москва"` is a miss and sends a second request, where Python keys both names under one entry.
- HTTP: the `requests` library is replaced by the `Response` input. A connect timeout that `requests` raises as both `ConnectionError` and `Timeout` is just a connection failure. Other `requests` exceptions (redirect loops, invalid URLs) are not modelled.
- JSON parsing: a body `resposta.json()` cannot parse is a `Status` with no body, read as a decoding error.
- Validation: pydantic's lax coercion (numeric strings, booleans) and the `feels_like` alias are not modelled. A number is an integer humidity only when it has no fractional part, and any other type mismatch is a decoding error.
- Clock: each lookup uses one time for both the age test and the stored time. The source reads the clock for the age test (src/cliente.py:76, only when the key is cached), and again after the request for the stored time (src/cliente.py:91).
- Output: the export timestamp is an input string; its `strftime` formatting is not modelled. `formatar_resultado`, all console output (the cache-remaining message included) and `input` are left out.
- Files: the model assumes that writing the export file succeeds. Creating `exports/`, writing the JSON, and an `OSError` that would escape the loop are not modelled. The path uses `/`, as `os.path.join` does on POSIX systems.
- End of input: running out of lines is a stop reason of its own (`EndOfInput`); in Python `input` raises `EOFError`, which nothing catches.
- Configuration: loading from `.env` and the missing-key `ValueError` are not modelled. `DefaultConfig` holds the constant endpoint, units and language, and the key is passed in.
- `ErroAPI` is never used by the code and is not modelled.
