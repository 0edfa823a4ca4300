/**
 The interactive loop (`executar`): each input line is stripped and classified
 as the exit command, an empty line, or a comma-separated list of cities; every
 non-empty city is looked up once, in order, and each outcome is either exported
 or reported by the handler for its error kind. Only errors outside the client's
 own exception hierarchy end the session early.

 The console and the clock are parameters: the lines typed, and a `world` that
 gives the k-th lookup its time, the provider's response and the formatted
 timestamp used in the export file name.
 */
module App {
  import opened Json
  import opened Client
  import Text

  /** What one input line asks for. */
  datatype Command = Quit | Blank | Cities(tokens: seq<string>)

  /** Each part with its surrounding whitespace removed. */
  function StripEach(parts: seq<string>): (ts: seq<string>)
    ensures |ts| == |parts|
    ensures forall k :: 0 <= k < |ts| ==> ts[k] == Text.Strip(parts[k])
    decreases |parts|
  {
    if parts == [] then [] else [Text.Strip(parts[0])] + StripEach(parts[1..])
  }

  /** The stripped, comma-separated tokens of a line, empty ones included. */
  function Tokens(line: string): seq<string> {
    StripEach(Text.Split(line, ','))
  }

  function Classify(line: string): Command {
    var entry := Text.Strip(line);
    if Text.Lower(entry) == "sair" then Quit
    else if entry == [] then Blank
    else Cities(Tokens(entry))
  }

  /** The tokens that are looked up: the non-empty ones, in order. */
  function NonEmpty(ts: seq<string>): (cs: seq<string>)
    ensures |cs| <= |ts|
    ensures forall c :: c in cs ==> c != [] && c in ts
  {
    if ts == [] then []
    else if ts[0] == [] then NonEmpty(ts[1..])
    else [ts[0]] + NonEmpty(ts[1..])
  }

  /** A line ends the session exactly when, stripped and lower-cased, it reads
      `sair`; it is blank exactly when it is whitespace only. */
  lemma ClassifyCases(line: string)
    ensures Classify(line).Quit? <==> Text.Lower(Text.Strip(line)) == "sair"
    ensures Classify(line).Blank? <==> Text.AllSpace(line)
    ensures Classify(line).Cities? ==> Classify(line).tokens == Tokens(Text.Strip(line))
  {
    Text.StripEmpty(line);
  }

  /** Whatever whitespace and letter case surround it, `sair` quits. */
  lemma QuitAnyCase(word: string, pre: string, post: string)
    requires Text.AllSpace(pre) && Text.AllSpace(post)
    requires Text.Lower(word) == "sair"
    ensures Classify(pre + word + post).Quit?
  {
    assert !Text.IsSpace(word[0]) by { assert Text.Lower(word)[0] == 's'; }
    assert !Text.IsSpace(word[3]) by { assert Text.Lower(word)[3] == 'r'; }
    Text.StripPadded(pre, word, post);
  }

  /** A line holding a comma is never the exit command, even when a token is `sair`. */
  lemma CommaNeverQuits(line: string)
    requires ',' in line
    ensures !Classify(line).Quit?
    ensures !Classify(line).Blank?
  {
    Text.StripKeeps(line, ',');
    var entry := Text.Strip(line);
    var k :| 0 <= k < |entry| && entry[k] == ',';
    assert Text.Lower(entry)[k] == ',';
    assert ',' !in "sair";
  }

  /** An empty token adds nothing to the cities looked up. */
  lemma {:induction false} NonEmptySkip(ts: seq<string>, k: nat)
    requires k < |ts| && ts[k] == []
    ensures NonEmpty(ts[..k + 1]) == NonEmpty(ts[..k])
    decreases k
  {
    if k > 0 {
      NonEmptySkip(ts[1..], k - 1);
      assert ts[1..][..k] == ts[..k + 1][1..];
      assert ts[1..][..k - 1] == ts[..k][1..];
    } else {
      assert ts[..1] == [ts[0]];
      assert ts[..0] == [];
    }
  }

  /** A non-empty token is looked up after the non-empty tokens before it;
      with `NonEmptySkip` this fixes the cities looked up on every prefix. */
  lemma {:induction false} NonEmptyOrder(ts: seq<string>, k: nat)
    requires k < |ts| && ts[k] != []
    ensures NonEmpty(ts[..k + 1]) == NonEmpty(ts[..k]) + [ts[k]]
    decreases k
  {
    if k > 0 {
      NonEmptyOrder(ts[1..], k - 1);
      assert ts[1..][..k] == ts[..k + 1][1..];
      assert ts[1..][..k - 1] == ts[..k][1..];
    } else {
      assert ts[..1] == [ts[0]];
      assert ts[..0] == [];
    }
  }

  /** A line made of two or more comma-free parts, with no whitespace at its
      ends, is a list of cities: one token per part, each part stripped. */
  lemma ClassifyJoined(parts: seq<string>)
    requires |parts| >= 2
    requires forall k :: 0 <= k < |parts| ==> ',' !in parts[k]
    requires var line := Text.Join(parts, ',');
      line != [] && !Text.IsSpace(line[0]) && !Text.IsSpace(line[|line| - 1])
    ensures Classify(Text.Join(parts, ',')) == Cities(StripEach(parts))
  {
    var line := Text.Join(parts, ',');
    Text.SplitJoin(parts, ',');
    Text.StripUnpadded(line);
    assert ',' in line by { assert line[|parts[0]|] == ','; }
    CommaNeverQuits(line);
  }

  /** A doubled comma gives an empty token: `"London,, Tokyo"` reads as the
      tokens `London`, `` and `Tokyo` (the empty one is skipped, see `SkipEmpty`). */
  lemma EmptyToken(line: string, a: string, gap: string, b: string)
    requires a != [] && ',' !in a && !Text.IsSpace(a[0]) && !Text.IsSpace(a[|a| - 1])
    requires b != [] && ',' !in b && !Text.IsSpace(b[0]) && !Text.IsSpace(b[|b| - 1])
    requires Text.AllSpace(gap)
    requires line == a + ",," + gap + b
    ensures Classify(line) == Cities([a, "", b])
  {
    var parts := [a, "", gap + b];
    assert Classify(line) == Cities(StripEach(parts)) by {
      GapJoin(a, gap, b);
      assert line[0] == a[0] && line[|line| - 1] == b[|b| - 1];
      ClassifyJoined(parts);
    }
    GapTokens(a, gap, b);
  }

  lemma GapTokens(a: string, gap: string, b: string)
    requires a != [] && !Text.IsSpace(a[0]) && !Text.IsSpace(a[|a| - 1])
    requires b != [] && !Text.IsSpace(b[0]) && !Text.IsSpace(b[|b| - 1])
    requires Text.AllSpace(gap)
    ensures StripEach([a, "", gap + b]) == [a, "", b]
  {
    var ts := StripEach([a, "", gap + b]);
    assert ts[0] == a by { Text.StripUnpadded(a); }
    assert |ts[1]| == 0;
    assert ts[2] == b by { Text.StripLeading(gap, b); }
  }

  lemma GapJoin(a: string, gap: string, b: string)
    requires ',' !in a && ',' !in b && Text.AllSpace(gap)
    ensures ',' !in gap + b
    ensures Text.Join([a, "", gap + b], ',') == a + ",," + gap + b
  {
    var parts := [a, "", gap + b];
    assert forall k :: 0 <= k < |gap| ==> (gap + b)[k] == gap[k];
    assert forall k :: |gap| <= k < |gap + b| ==> (gap + b)[k] == b[k - |gap|];
    assert Text.Join(parts[2..], ',') == gap + b;
    assert Text.Join(parts[1..], ',') == [] + [','] + (gap + b);
  }

  /** The empty token between two cities is not looked up. */
  lemma SkipEmpty(a: string, b: string)
    requires a != [] && b != []
    ensures NonEmpty([a, "", b]) == [a, b]
  {
    assert [b][1..] == [];
    assert NonEmpty([b]) == [b];
    assert ["", b][1..] == [b];
    assert NonEmpty(["", b]) == [b];
    assert [a, "", b][1..] == ["", b];
  }

  /** The exit word in a list of cities is looked up like any other city:
      `"sair,London"` reads as the tokens `sair` and `London`, in any letter case. */
  lemma QuitWordIsACity(line: string, w: string, b: string)
    requires Text.Lower(w) == "sair"
    requires b != [] && ',' !in b && !Text.IsSpace(b[0]) && !Text.IsSpace(b[|b| - 1])
    requires line == w + "," + b
    ensures Classify(line) == Cities([w, b])
  {
    var parts := [w, b];
    QuitWordUnpadded(w);
    assert Text.Join(parts, ',') == line;
    assert line[0] == w[0] && line[|line| - 1] == b[|b| - 1];
    ClassifyJoined(parts);
    UnpaddedTokens(parts);
  }

  /** A word that lower-cases to `sair` has no comma and no whitespace at its ends. */
  lemma QuitWordUnpadded(w: string)
    requires Text.Lower(w) == "sair"
    ensures |w| == 4 && ',' !in w && !Text.IsSpace(w[0]) && !Text.IsSpace(w[3])
  {
    var l := Text.Lower(w);
    assert l[0] == 's' && l[3] == 'r';
    forall k | 0 <= k < 4 ensures w[k] != ',' {
      assert l[k] != ',';
    }
  }

  /** When no token is empty, every token is looked up. */
  lemma {:induction false} NonEmptyKeepsAll(ts: seq<string>)
    requires forall k :: 0 <= k < |ts| ==> ts[k] != []
    ensures NonEmpty(ts) == ts
    decreases |ts|
  {
    if ts != [] {
      NonEmptyKeepsAll(ts[1..]);
      assert [ts[0]] + ts[1..] == ts;
    }
  }

  /** Parts without surrounding whitespace are their own tokens. */
  lemma UnpaddedTokens(parts: seq<string>)
    requires forall k :: 0 <= k < |parts| ==>
      parts[k] == [] || (!Text.IsSpace(parts[k][0]) && !Text.IsSpace(parts[k][|parts[k]| - 1]))
    ensures StripEach(parts) == parts
  {
    forall k | 0 <= k < |parts| ensures StripEach(parts)[k] == parts[k] {
      Text.StripUnpadded(parts[k]);
    }
  }

  /** The export file name `exportar_json` derives when no path is given, in the
      `exports` directory; a given path is used as it is. */
  function ExportPath(rec: Record, path: Option<string>, stamp: string): string {
    if path.Some? then path.value
    else "exports/" + "clima_" + rec.city + "_" + stamp + ".json"
  }

  /** The derived name holds the record's own (provider) city between the
      `exports/clima_` prefix and the `_<timestamp>.json` suffix. */
  lemma ExportPathParts(rec: Record, stamp: string)
    ensures var p := ExportPath(rec, None, stamp);
      && |p| == 14 + |rec.city| + 1 + |stamp| + 5
      && p[..14] == "exports/clima_"
      && p[14..14 + |rec.city|] == rec.city
      && p[14 + |rec.city|..|p| - 5] == "_" + stamp
      && p[|p| - 5..] == ".json"
  {
  }

  /** The time, the provider's response and the export timestamp one lookup sees. */
  datatype Env = Env(now: int, response: Response, stamp: string)

  /** A lookup as the loop sees it: the cache before, the city typed, the
      environment; the outcome, the request sent and the cache after. */
  type Lookup = (Cache, string, Env) -> Fetched

  /** `cliente.buscar_clima` of a client with these settings. */
  function ClientLookup(config: Config, ttl: int): Lookup {
    (cache: Cache, city: string, env: Env) => FetchSpec(config, ttl, cache, city, env.now, env.response)
  }

  /** One looked-up city: its outcome, the request it sent, the handler that
      reported an error (the class of the matching `except` clause) and the
      file exported on success. */
  datatype Step = Step(city: string, outcome: Outcome<Record>, sent: Option<HttpRequest>,
                       handler: Option<ExceptionClass>, exported: Option<string>)

  /** The `except` clauses in their order: the first that matches catches. */
  const Handlers := [CityNotFoundError, ConnectionError, ClientException]

  function FirstHandler(c: ExceptionClass, clauses: seq<ExceptionClass>): Option<ExceptionClass>
    decreases |clauses|
  {
    if clauses == [] then None
    else if IsA(c, clauses[0]) then Some(clauses[0])
    else FirstHandler(c, clauses[1..])
  }

  function Catch(c: ExceptionClass): Option<ExceptionClass> {
    FirstHandler(c, Handlers)
  }

  /** The handler chosen is the most specific one: each of the client's own
      exceptions is caught by the clause for its own class, and nothing else is caught. */
  lemma CatchMostSpecific(e: ClientError)
    ensures Catch(ClassOf(e)).Some? <==> IsA(ClassOf(e), ClientException)
    ensures Catch(ClassOf(e)).Some? ==> Catch(ClassOf(e)).value == ClassOf(e)
    ensures Catch(ClassOf(e)).None? <==> e == DecodeError
  {
  }

  datatype Batch = Batch(trace: seq<Step>, cache: Cache, calls: nat, crashed: Option<Step>)

  /** How the loop reports one lookup: a success is displayed and exported
      under the derived name, a failure goes to the first matching handler. */
  function Report(city: string, f: Fetched, stamp: string): Step {
    if f.outcome.Ok? then Step(city, f.outcome, f.sent, None, Some(ExportPath(f.outcome.value, None, stamp)))
    else Step(city, f.outcome, f.sent, Catch(ClassOf(f.outcome.error)), None)
  }

  /** A step that no handler catches: the error escapes the loop. */
  predicate Escapes(step: Step) {
    step.outcome.Err? && step.handler.None?
  }

  /** The inner `for` over one line's tokens, from lookup number `calls` on. */
  function RunCities(fetch: Lookup, cache: Cache, ts: seq<string>, world: nat -> Env, calls: nat): Batch
    decreases |ts|
  {
    if ts == [] then Batch([], cache, calls, None)
    else if ts[0] == [] then RunCities(fetch, cache, ts[1..], world, calls)
    else
      var env := world(calls);
      var f := fetch(cache, ts[0], env);
      var step := Report(ts[0], f, env.stamp);
      if Escapes(step) then Batch([], f.cache, calls + 1, Some(step))
      else
        var rest := RunCities(fetch, f.cache, ts[1..], world, calls + 1);
        Batch([step] + rest.trace, rest.cache, rest.calls, rest.crashed)
  }

  function CitiesOf(trace: seq<Step>): (cs: seq<string>)
    ensures |cs| == |trace|
  {
    if trace == [] then [] else [trace[0].city] + CitiesOf(trace[1..])
  }

  /** A step is reported as its outcome calls for: a success is exported and
      reported by no handler, a failure is not exported and is reported by the
      handler of its own class. */
  predicate WellReported(s: Step) {
    && (s.exported.Some? <==> s.outcome.Ok?)
    && (s.outcome.Err? ==> s.handler == Some(ClassOf(s.outcome.error)))
    && (s.outcome.Ok? ==> s.handler.None?)
  }

  /** Every report the loop makes is well reported, and only a decoding error escapes. */
  lemma ReportKinds(city: string, f: Fetched, stamp: string)
    ensures !Escapes(Report(city, f, stamp)) ==> WellReported(Report(city, f, stamp))
    ensures Escapes(Report(city, f, stamp)) <==> f.outcome == Err(DecodeError)
    ensures f.outcome.Ok? ==> Report(city, f, stamp).exported == Some(ExportPath(f.outcome.value, None, stamp))
    ensures Report(city, f, stamp).outcome == f.outcome && Report(city, f, stamp).sent == f.sent
  {
    if f.outcome.Err? { CatchMostSpecific(f.outcome.error); }
  }

  /** Every step of a batch is well reported. */
  lemma {:induction false} RunCitiesReported(fetch: Lookup, cache: Cache, ts: seq<string>, world: nat -> Env, calls: nat)
    ensures var b := RunCities(fetch, cache, ts, world, calls);
      forall s :: s in b.trace ==> WellReported(s)
    decreases |ts|
  {
    if ts != [] {
      if ts[0] == [] {
        RunCitiesReported(fetch, cache, ts[1..], world, calls);
      } else {
        var env := world(calls);
        var f := fetch(cache, ts[0], env);
        ReportKinds(ts[0], f, env.stamp);
        RunCitiesReported(fetch, f.cache, ts[1..], world, calls + 1);
      }
    }
  }

  /** Without a crash every non-empty token is looked up, once and in order. */
  lemma {:induction false} RunCitiesComplete(fetch: Lookup, cache: Cache, ts: seq<string>, world: nat -> Env, calls: nat)
    ensures var b := RunCities(fetch, cache, ts, world, calls);
      b.crashed.None? ==> CitiesOf(b.trace) == NonEmpty(ts) && b.calls == calls + |NonEmpty(ts)|
    decreases |ts|
  {
    if ts != [] {
      if ts[0] == [] {
        CitiesSkip(fetch, cache, ts, world, calls);
        RunCitiesComplete(fetch, cache, ts[1..], world, calls);
      } else {
        CitiesStep(fetch, cache, ts, world, calls);
        var f := fetch(cache, ts[0], world(calls));
        var step := Report(ts[0], f, world(calls).stamp);
        if !Escapes(step) {
          RunCitiesComplete(fetch, f.cache, ts[1..], world, calls + 1);
          var rest := RunCities(fetch, f.cache, ts[1..], world, calls + 1);
          var trace := [step] + rest.trace;
          assert trace[1..] == rest.trace;
          assert CitiesOf(trace) == [ts[0]] + CitiesOf(rest.trace);
          assert NonEmpty(ts) == [ts[0]] + NonEmpty(ts[1..]);
        }
      }
    }
  }

  /** A crash stops the batch right after the lookup of the city it names: the
      non-empty tokens before it were all looked up and reported, in order. */
  lemma {:induction false} RunCitiesCrashPoint(fetch: Lookup, cache: Cache, ts: seq<string>, world: nat -> Env, calls: nat)
    ensures var b := RunCities(fetch, cache, ts, world, calls);
      b.crashed.Some? ==>
        && var n := |b.trace|;
        && n < |NonEmpty(ts)|
        && CitiesOf(b.trace) == NonEmpty(ts)[..n]
        && NonEmpty(ts)[n] == b.crashed.value.city
        && b.calls == calls + n + 1
    decreases |ts|
  {
    if ts != [] {
      if ts[0] == [] {
        CitiesSkip(fetch, cache, ts, world, calls);
        RunCitiesCrashPoint(fetch, cache, ts[1..], world, calls);
      } else {
        CitiesStep(fetch, cache, ts, world, calls);
        var f := fetch(cache, ts[0], world(calls));
        var step := Report(ts[0], f, world(calls).stamp);
        assert NonEmpty(ts) == [ts[0]] + NonEmpty(ts[1..]);
        if !Escapes(step) {
          RunCitiesCrashPoint(fetch, f.cache, ts[1..], world, calls + 1);
          var rest := RunCities(fetch, f.cache, ts[1..], world, calls + 1);
          var trace := [step] + rest.trace;
          assert trace[1..] == rest.trace;
          assert CitiesOf(trace) == [ts[0]] + CitiesOf(rest.trace);
        }
      }
    }
  }

  /** A batch crashes only on a decoding error, and only after a lookup. */
  lemma {:induction false} CrashOnlyOnDecodeError(fetch: Lookup, cache: Cache, ts: seq<string>, world: nat -> Env, calls: nat)
    ensures var b := RunCities(fetch, cache, ts, world, calls);
      b.crashed.Some? ==> b.crashed.value.outcome == Err(DecodeError) && b.calls > calls
    decreases |ts|
  {
    if ts != [] {
      if ts[0] == [] {
        CrashOnlyOnDecodeError(fetch, cache, ts[1..], world, calls);
      } else {
        var env := world(calls);
        var f := fetch(cache, ts[0], env);
        ReportKinds(ts[0], f, env.stamp);
        CrashOnlyOnDecodeError(fetch, f.cache, ts[1..], world, calls + 1);
      }
    }
  }

  /** A line is run as its first part, then (unless that part crashed) its
      second part, from the cache and the lookup count the first part left. */
  lemma {:induction false} RunCitiesAppend(fetch: Lookup, cache: Cache, a: seq<string>, b: seq<string>,
                                           world: nat -> Env, calls: nat)
    ensures var ba := RunCities(fetch, cache, a, world, calls);
      RunCities(fetch, cache, a + b, world, calls)
        == if ba.crashed.Some? then ba else AfterBatch(ba.trace, RunCities(fetch, ba.cache, b, world, ba.calls))
    decreases |a|
  {
    if a == [] {
      assert a + b == b;
    } else {
      assert (a + b)[0] == a[0] && (a + b)[1..] == a[1..] + b;
      if a[0] == [] {
        CitiesSkip(fetch, cache, a + b, world, calls);
        CitiesSkip(fetch, cache, a, world, calls);
        RunCitiesAppend(fetch, cache, a[1..], b, world, calls);
      } else {
        var f := fetch(cache, a[0], world(calls));
        var step := Report(a[0], f, world(calls).stamp);
        var ra := RunCities(fetch, f.cache, a[1..], world, calls + 1);
        assert RunCities(fetch, cache, a, world, calls)
                 == if Escapes(step) then Batch([], f.cache, calls + 1, Some(step)) else AfterBatch([step], ra) by {
          CitiesStep(fetch, cache, a, world, calls);
        }
        assert RunCities(fetch, cache, a + b, world, calls)
                 == if Escapes(step) then Batch([], f.cache, calls + 1, Some(step))
                    else AfterBatch([step], RunCities(fetch, f.cache, a[1..] + b, world, calls + 1)) by {
          CitiesStep(fetch, cache, a + b, world, calls);
        }
        if !Escapes(step) {
          RunCitiesAppend(fetch, f.cache, a[1..], b, world, calls + 1);
          if ra.crashed.None? {
            AfterBatchAppend([step], ra.trace, RunCities(fetch, ra.cache, b, world, ra.calls));
          }
        }
      }
    }
  }

  /** The cache laws of a lookup with lifetime `ttl`, as `buscar_clima` keeps them:
      a fresh entry is returned with nothing sent and the cache unchanged. */
  ghost predicate HitsFresh(fetch: Lookup, ttl: int) {
    forall cache: Cache, c: string, env: Env {:trigger fetch(cache, c, env)} ::
      Fresh(cache, Text.Lower(c), ttl, env.now) ==>
        fetch(cache, c, env) == Fetched(Ok(cache[Text.Lower(c)].record), None, cache)
  }

  /** A lookup that sends a request and succeeds stores its record, stamped now. */
  ghost predicate StoresFetched(fetch: Lookup) {
    forall cache: Cache, c: string, env: Env ::
      fetch(cache, c, env).sent.Some? && fetch(cache, c, env).outcome.Ok? ==>
        && Text.Lower(c) in fetch(cache, c, env).cache
        && fetch(cache, c, env).cache[Text.Lower(c)] == Entry(fetch(cache, c, env).outcome.value, env.now)
  }

  /** A lookup leaves the entries of other names as they are. */
  ghost predicate KeepsOthers(fetch: Lookup) {
    forall cache: Cache, c: string, env: Env, key: string ::
      key in cache && Text.Lower(c) != key ==>
        key in fetch(cache, c, env).cache && fetch(cache, c, env).cache[key] == cache[key]
  }

  /** The client's lookup keeps all three laws. */
  lemma ClientLookupLaws(config: Config, ttl: int)
    ensures HitsFresh(ClientLookup(config, ttl), ttl)
    ensures StoresFetched(ClientLookup(config, ttl))
    ensures KeepsOthers(ClientLookup(config, ttl))
  {
    var fetch := ClientLookup(config, ttl);
    forall cache: Cache, c: string, env: Env | Fresh(cache, Text.Lower(c), ttl, env.now)
      ensures fetch(cache, c, env) == Fetched(Ok(cache[Text.Lower(c)].record), None, cache)
    {
      CacheHit(config, ttl, cache, c, env.now, env.response);
    }
    forall cache: Cache, c: string, env: Env
      ensures fetch(cache, c, env).sent.Some? && fetch(cache, c, env).outcome.Ok? ==>
        && Text.Lower(c) in fetch(cache, c, env).cache
        && fetch(cache, c, env).cache[Text.Lower(c)] == Entry(fetch(cache, c, env).outcome.value, env.now)
    {
      StoreOnSuccess(config, ttl, cache, c, env.now, env.response);
    }
    forall cache: Cache, c: string, env: Env, key: string | key in cache && Text.Lower(c) != key
      ensures key in fetch(cache, c, env).cache && fetch(cache, c, env).cache[key] == cache[key]
    {
      FetchKeepsOther(config, ttl, cache, c, env.now, env.response, key);
    }
  }

  /** Lookups of other names leave a cached entry as it is. */
  lemma {:induction false} RunCitiesKeepsKey(fetch: Lookup, cache: Cache, ts: seq<string>,
                                             world: nat -> Env, calls: nat, key: string)
    requires KeepsOthers(fetch)
    requires key in cache
    requires forall i :: 0 <= i < |ts| ==> Text.Lower(ts[i]) != key
    ensures var b := RunCities(fetch, cache, ts, world, calls);
      key in b.cache && b.cache[key] == cache[key]
    decreases |ts|
  {
    if ts != [] {
      assert forall i :: 0 <= i < |ts[1..]| ==> ts[1..][i] == ts[i + 1];
      if ts[0] == [] {
        CitiesSkip(fetch, cache, ts, world, calls);
        RunCitiesKeepsKey(fetch, cache, ts[1..], world, calls, key);
      } else {
        CitiesStep(fetch, cache, ts, world, calls);
        var f := fetch(cache, ts[0], world(calls));
        if !Escapes(Report(ts[0], f, world(calls).stamp)) {
          RunCitiesKeepsKey(fetch, f.cache, ts[1..], world, calls + 1, key);
        }
      }
    }
  }

  /** A line of one city whose entry is fresh: one step, nothing sent, the
      cached record reported. */
  lemma {:induction false} HitStep(fetch: Lookup, ttl: int, cache: Cache, c: string, world: nat -> Env, calls: nat)
    requires HitsFresh(fetch, ttl)
    requires c != [] && Fresh(cache, Text.Lower(c), ttl, world(calls).now)
    ensures var r := RunCities(fetch, cache, [c], world, calls);
      && |r.trace| == 1 && r.crashed.None?
      && r.trace[0].sent.None? && r.trace[0].outcome == Ok(cache[Text.Lower(c)].record)
  {
    var f := fetch(cache, c, world(calls));
    assert f == Fetched(Ok(cache[Text.Lower(c)].record), None, cache);
    CitiesStep(fetch, cache, [c], world, calls);
    ReportKinds(c, f, world(calls).stamp);
    assert [c][1..] == [];
  }

  /** After a lookup stored `rec` for a name, a line of other names and then
      that name again within the lifetime: the repeat is the last step, sends
      nothing and reports `rec`; only a city in between can stop the line first. */
  lemma {:induction false} RepeatTail(fetch: Lookup, ttl: int, cache: Cache, mid: seq<string>, c2: string,
                   world: nat -> Env, calls: nat, last: nat, rec: Record, storedAt: int)
    requires HitsFresh(fetch, ttl) && KeepsOthers(fetch)
    requires c2 != [] && Text.Lower(c2) in cache && cache[Text.Lower(c2)] == Entry(rec, storedAt)
    requires forall i :: 0 <= i < |mid| ==> Text.Lower(mid[i]) != Text.Lower(c2)
    requires last == calls + |NonEmpty(mid)| && world(last).now - storedAt < ttl
    ensures var r := RunCities(fetch, cache, mid + [c2], world, calls);
      && (r.crashed.Some? ==> r.crashed.value.city in mid)
      && (r.crashed.None? ==>
            && |r.trace| == |NonEmpty(mid)| + 1
            && r.trace[|r.trace| - 1].sent.None?
            && r.trace[|r.trace| - 1].outcome == Ok(rec))
  {
    var key := Text.Lower(c2);
    RunCitiesAppend(fetch, cache, mid, [c2], world, calls);
    var bm := RunCities(fetch, cache, mid, world, calls);
    if bm.crashed.Some? {
      RunCitiesCrashPoint(fetch, cache, mid, world, calls);
      assert NonEmpty(mid)[|bm.trace|] in NonEmpty(mid);
    } else {
      RunCitiesComplete(fetch, cache, mid, world, calls);
      RunCitiesKeepsKey(fetch, cache, mid, world, calls, key);
      assert bm.calls == last;
      assert bm.cache[key] == Entry(rec, storedAt);
      HitStep(fetch, ttl, bm.cache, c2, world, last);
      var r2 := RunCities(fetch, bm.cache, [c2], world, last);
      assert RunCities(fetch, cache, mid + [c2], world, calls).trace == bm.trace + r2.trace;
    }
  }

  /** Step `i` of `b` is a lookup that sent a request and succeeded, the line
      stops early only at a city of `mid`, and otherwise the repeat is the
      last step, `|NonEmpty(mid)| + 1` steps later, sends nothing and reports
      the same outcome. */
  ghost predicate RepeatsAt(b: Batch, i: int, mid: seq<string>) {
    0 <= i < |b.trace| && b.trace[i].sent.Some? && b.trace[i].outcome.Ok? ==>
      && (b.crashed.Some? ==> b.crashed.value.city in mid)
      && (b.crashed.None? ==>
            && |b.trace| == i + |NonEmpty(mid)| + 2
            && b.trace[|b.trace| - 1].sent.None?
            && b.trace[|b.trace| - 1].outcome == b.trace[i].outcome)
  }

  /** Steps recorded before a batch shift where its repeat shows up. */
  lemma RepeatsShift(before: seq<Step>, r: Batch, mid: seq<string>)
    requires RepeatsAt(r, 0, mid)
    ensures RepeatsAt(AfterBatch(before, r), |before|, mid)
  {
    var b := AfterBatch(before, r);
    if |before| < |b.trace| {
      assert b.trace[|before|] == r.trace[0];
      assert b.trace[|b.trace| - 1] == r.trace[|r.trace| - 1];
    }
  }

  /** A lookup that sent a request and succeeded, followed by a batch whose
      last step repeats its outcome without sending. */
  lemma {:induction false} RepeatsFirst(s1: Step, r: Batch, mid: seq<string>)
    requires s1.sent.Some? && s1.outcome.Ok?
    requires r.crashed.Some? ==> r.crashed.value.city in mid
    requires r.crashed.None? ==>
      && |r.trace| == |NonEmpty(mid)| + 1
      && r.trace[|r.trace| - 1].sent.None?
      && r.trace[|r.trace| - 1].outcome == s1.outcome
    ensures RepeatsAt(AfterBatch([s1], r), 0, mid)
  {
    assert AfterBatch([s1], r).trace == [s1] + r.trace;
  }

  /** The first lookup of a line: its step reports the lookup's request and
      outcome, and the rest of the line runs on the cache that lookup left. */
  lemma FirstStep(fetch: Lookup, cache: Cache, c: string, rest: seq<string>, world: nat -> Env, calls: nat)
    requires c != []
    ensures var b := RunCities(fetch, cache, [c] + rest, world, calls);
      var f := fetch(cache, c, world(calls));
      b.trace != [] ==>
        && b.trace[0].sent == f.sent && b.trace[0].outcome == f.outcome
        && b == AfterBatch([b.trace[0]], RunCities(fetch, f.cache, rest, world, calls + 1))
  {
    var ts := [c] + rest;
    assert ts[0] == c && ts[1..] == rest;
    CitiesStep(fetch, cache, ts, world, calls);
    ReportKinds(c, fetch(cache, c, world(calls)), world(calls).stamp);
  }

  /** A line that starts with a city and names it again at its end, with only
      other names between: when the first lookup sends a request and succeeds
      and the repeat comes within the lifetime, the repeat sends nothing and
      reports the same record; only a city in between can stop the line first. */
  lemma {:induction false} RepeatAfterFirst(fetch: Lookup, ttl: int, cache: Cache, c1: string, mid: seq<string>, c2: string,
                         world: nat -> Env, calls: nat, last: nat)
    requires HitsFresh(fetch, ttl) && StoresFetched(fetch) && KeepsOthers(fetch)
    requires c1 != [] && c2 != [] && Text.Lower(c1) == Text.Lower(c2)
    requires forall i :: 0 <= i < |mid| ==> Text.Lower(mid[i]) != Text.Lower(c1)
    requires last == calls + 1 + |NonEmpty(mid)| && world(last).now - world(calls).now < ttl
    ensures RepeatsAt(RunCities(fetch, cache, [c1] + (mid + [c2]), world, calls), 0, mid)
  {
    var b := RunCities(fetch, cache, [c1] + (mid + [c2]), world, calls);
    var f1 := fetch(cache, c1, world(calls));
    FirstStep(fetch, cache, c1, mid + [c2], world, calls);
    if b.trace != [] && b.trace[0].sent.Some? && b.trace[0].outcome.Ok? {
      var r := RunCities(fetch, f1.cache, mid + [c2], world, calls + 1);
      RepeatTail(fetch, ttl, f1.cache, mid, c2, world, calls + 1, last, f1.outcome.value, world(calls).now);
      RepeatsFirst(b.trace[0], r, mid);
    }
  }

  /** A batch that runs `rest` after `i` steps of a prefix that did not crash
      keeps the repeat of `rest`, `i` steps later; a prefix that crashed
      records fewer than `i` steps. */
  lemma RepeatsAfterPrefix(bp: Batch, r: Batch, b: Batch, i: int, mid: seq<string>)
    requires bp.crashed.Some? ==> b == bp && |bp.trace| < i
    requires bp.crashed.None? ==> b == AfterBatch(bp.trace, r) && |bp.trace| == i && RepeatsAt(r, 0, mid)
    ensures RepeatsAt(b, i, mid)
  {
    if bp.crashed.None? {
      RepeatsShift(bp.trace, r, mid);
    }
  }

  /** `RepeatOnLineHits` for any lookup that keeps the cache laws. */
  lemma {:induction false} RepeatOnLine(fetch: Lookup, ttl: int, cache: Cache, pre: seq<string>, c1: string,
                     mid: seq<string>, c2: string, world: nat -> Env, calls: nat, first: nat, last: nat)
    requires HitsFresh(fetch, ttl) && StoresFetched(fetch) && KeepsOthers(fetch)
    requires c1 != [] && c2 != [] && Text.Lower(c1) == Text.Lower(c2)
    requires forall i :: 0 <= i < |mid| ==> Text.Lower(mid[i]) != Text.Lower(c1)
    requires first == calls + |NonEmpty(pre)| && last == first + 1 + |NonEmpty(mid)|
    requires world(last).now - world(first).now < ttl
    ensures RepeatsAt(RunCities(fetch, cache, pre + ([c1] + (mid + [c2])), world, calls), |NonEmpty(pre)|, mid)
  {
    var rest := [c1] + (mid + [c2]);
    var bp := RunCities(fetch, cache, pre, world, calls);
    var r := RunCities(fetch, bp.cache, rest, world, bp.calls);
    RunCitiesAppend(fetch, cache, pre, rest, world, calls);
    RunCitiesCrashPoint(fetch, cache, pre, world, calls);
    RunCitiesComplete(fetch, cache, pre, world, calls);
    if bp.crashed.None? {
      assert RepeatsAt(r, 0, mid) by {
        RepeatAfterFirst(fetch, ttl, bp.cache, c1, mid, c2, world, first, last);
        assert bp.calls == first;
      }
    }
    RepeatsAfterPrefix(bp, r, RunCities(fetch, cache, pre + rest, world, calls), |NonEmpty(pre)|, mid);
  }

  /** The same city typed twice on one line, in any letter case, with any
      tokens before it and only other names between: when its first lookup
      (step `|NonEmpty(pre)|`) sends a request and succeeds, and the repeat comes
      within the lifetime, the repeat is the last step, sends nothing and
      reports the same record; only a city in between can stop the line first. */
  lemma {:induction false} RepeatOnLineHits(config: Config, ttl: int, cache: Cache, pre: seq<string>, c1: string,
                         mid: seq<string>, c2: string, world: nat -> Env, calls: nat)
    requires c1 != [] && c2 != [] && Text.Lower(c1) == Text.Lower(c2)
    requires forall i :: 0 <= i < |mid| ==> Text.Lower(mid[i]) != Text.Lower(c1)
    requires var n := calls + |NonEmpty(pre)|; world(n + 1 + |NonEmpty(mid)|).now - world(n).now < ttl
    ensures RepeatsAt(RunCities(ClientLookup(config, ttl), cache, pre + ([c1] + (mid + [c2])), world, calls),
                      |NonEmpty(pre)|, mid)
  {
    ClientLookupLaws(config, ttl);
    var first := calls + |NonEmpty(pre)|;
    RepeatOnLine(ClientLookup(config, ttl), ttl, cache, pre, c1, mid, c2, world, calls, first, first + 1 + |NonEmpty(mid)|);
  }

  /** How the session ended: the exit command, the end of input, or an error
      escaping from the lookup the step records. */
  datatype Stop = Exited | EndOfInput | Crashed(step: Step)

  datatype Session = Session(trace: seq<Step>, cache: Cache, calls: nat, stop: Stop)

  /** The outer `while True` over the lines typed. */
  function RunLines(fetch: Lookup, cache: Cache, lines: seq<string>, world: nat -> Env, calls: nat): Session
    decreases |lines|
  {
    if lines == [] then Session([], cache, calls, EndOfInput)
    else match Classify(lines[0])
      case Quit => Session([], cache, calls, Exited)
      case Blank => RunLines(fetch, cache, lines[1..], world, calls)
      case Cities(ts) =>
        var b := RunCities(fetch, cache, ts, world, calls);
        if b.crashed.Some? then Session(b.trace, b.cache, b.calls, Crashed(b.crashed.value))
        else
          var rest := RunLines(fetch, b.cache, lines[1..], world, b.calls);
          Session(b.trace + rest.trace, rest.cache, rest.calls, rest.stop)
  }

  /** The exit command ends the session at once: nothing is looked up. */
  lemma QuitEndsSession(fetch: Lookup, cache: Cache, lines: seq<string>, world: nat -> Env, calls: nat)
    requires lines != [] && Text.Lower(Text.Strip(lines[0])) == "sair"
    ensures RunLines(fetch, cache, lines, world, calls) == Session([], cache, calls, Exited)
  {
    ClassifyCases(lines[0]);
  }

  /** A whitespace-only line looks nothing up and the loop reads the next line. */
  lemma BlankReprompts(fetch: Lookup, cache: Cache, lines: seq<string>, world: nat -> Env, calls: nat)
    requires lines != [] && Text.AllSpace(lines[0])
    ensures RunLines(fetch, cache, lines, world, calls) == RunLines(fetch, cache, lines[1..], world, calls)
  {
    ClassifyCases(lines[0]);
  }

  /** Over a whole session every step is reported as its outcome calls for,
      no lookup is undone, and the session crashes only on a decoding error. */
  lemma {:induction false} SessionReported(fetch: Lookup, cache: Cache, lines: seq<string>, world: nat -> Env, calls: nat)
    ensures var s := RunLines(fetch, cache, lines, world, calls);
      && (forall st :: st in s.trace ==> WellReported(st))
      && s.calls >= calls
      && (s.stop.Crashed? ==> s.stop.step.outcome == Err(DecodeError))
    decreases |lines|
  {
    if lines != [] {
      match Classify(lines[0])
      case Quit =>
      case Blank => SessionReported(fetch, cache, lines[1..], world, calls);
      case Cities(ts) =>
        RunCitiesReported(fetch, cache, ts, world, calls);
        CrashOnlyOnDecodeError(fetch, cache, ts, world, calls);
        RunCitiesComplete(fetch, cache, ts, world, calls);
        var b := RunCities(fetch, cache, ts, world, calls);
        if b.crashed.None? {
          SessionReported(fetch, b.cache, lines[1..], world, b.calls);
        }
    }
  }

  /** Appending the steps of an earlier part of the run. */
  function AfterBatch(trace: seq<Step>, b: Batch): Batch {
    Batch(trace + b.trace, b.cache, b.calls, b.crashed)
  }

  function AfterSession(trace: seq<Step>, s: Session): Session {
    Session(trace + s.trace, s.cache, s.calls, s.stop)
  }

  lemma {:induction false} CitiesSkip(fetch: Lookup, cache: Cache, ts: seq<string>, world: nat -> Env, calls: nat)
    requires ts != [] && ts[0] == []
    ensures RunCities(fetch, cache, ts, world, calls) == RunCities(fetch, cache, ts[1..], world, calls)
  {
  }

  /** One lookup of the inner loop, unfolded. */
  lemma CitiesStep(fetch: Lookup, cache: Cache, ts: seq<string>, world: nat -> Env, calls: nat)
    requires ts != [] && ts[0] != []
    ensures var f := fetch(cache, ts[0], world(calls));
      var step := Report(ts[0], f, world(calls).stamp);
      RunCities(fetch, cache, ts, world, calls)
        == if Escapes(step) then Batch([], f.cache, calls + 1, Some(step))
           else AfterBatch([step], RunCities(fetch, f.cache, ts[1..], world, calls + 1))
  {
  }

  lemma AfterBatchAppend(a: seq<Step>, b: seq<Step>, x: Batch)
    ensures AfterBatch(a, AfterBatch(b, x)) == AfterBatch(a + b, x)
  {
    assert a + (b + x.trace) == (a + b) + x.trace;
  }

  /** One line holding cities, unfolded. */
  lemma {:induction false} LinesBatch(fetch: Lookup, cache: Cache, lines: seq<string>, world: nat -> Env, calls: nat)
    requires lines != [] && Classify(lines[0]).Cities?
    ensures var b := RunCities(fetch, cache, Tokens(Text.Strip(lines[0])), world, calls);
      RunLines(fetch, cache, lines, world, calls)
        == if b.crashed.Some? then Session(b.trace, b.cache, b.calls, Crashed(b.crashed.value))
           else AfterSession(b.trace, RunLines(fetch, b.cache, lines[1..], world, b.calls))
  {
  }

  lemma AfterSessionAppend(a: seq<Step>, b: seq<Step>, x: Session)
    ensures AfterSession(a, AfterSession(b, x)) == AfterSession(a + b, x)
  {
    assert a + (b + x.trace) == (a + b) + x.trace;
  }

  /** `executar`, with a client already constructed: the steps taken, the
      number of lookups made, and how the session ended. */
  method Run(client: WeatherClient, lines: seq<string>, world: nat -> Env)
      returns (trace: seq<Step>, calls: nat, stop: Stop)
    modifies client
    ensures Session(trace, client.cache, calls, stop)
         == RunLines(ClientLookup(client.config, client.ttl), old(client.cache), lines, world, 0)
  {
    ghost var fetch := ClientLookup(client.config, client.ttl);
    trace, calls := [], 0;
    var i := 0;
    while true
      invariant 0 <= i <= |lines|
      invariant RunLines(fetch, old(client.cache), lines, world, 0)
             == AfterSession(trace, RunLines(fetch, client.cache, lines[i..], world, calls))
      decreases |lines| - i
    {
      if i == |lines| {
        return trace, calls, EndOfInput;
      }
      assert lines[i..][1..] == lines[i + 1..];
      var entry := Text.Strip(lines[i]);
      if Text.Lower(entry) == "sair" {
        return trace, calls, Exited;
      }
      if entry == [] {
        i := i + 1;
        continue;
      }
      var cities := Tokens(entry);
      ghost var before := client.cache;
      LinesBatch(fetch, before, lines[i..], world, calls);
      var steps, crashed;
      steps, calls, crashed := RunBatch(client, cities, world, calls);
      AfterSessionAppend(trace, steps, RunLines(fetch, client.cache, lines[i + 1..], world, calls));
      trace := trace + steps;
      if crashed.Some? {
        return trace, calls, Crashed(crashed.value);
      }
      i := i + 1;
    }
  }

  /** `executar` as a whole: a client with the default settings and cache
      lifetime, starting with an empty cache, then the session over it. */
  method Execute(apiKey: string, lines: seq<string>, world: nat -> Env)
      returns (trace: seq<Step>, calls: nat, stop: Stop)
    ensures var s := RunLines(ClientLookup(DefaultConfig(apiKey), DefaultTtl), map[], lines, world, 0);
      trace == s.trace && calls == s.calls && stop == s.stop
  {
    var client := new WeatherClient(DefaultConfig(apiKey));
    trace, calls, stop := Run(client, lines, world);
  }

  /** The inner `for` of `executar`: one lookup per non-empty token, each
      success exported and each failure reported by its handler, until an
      error no handler catches. */
  method RunBatch(client: WeatherClient, cities: seq<string>, world: nat -> Env, calls0: nat)
      returns (steps: seq<Step>, calls: nat, crashed: Option<Step>)
    modifies client
    ensures Batch(steps, client.cache, calls, crashed)
         == RunCities(ClientLookup(client.config, client.ttl), old(client.cache), cities, world, calls0)
  {
    ghost var fetch := ClientLookup(client.config, client.ttl);
    steps, calls := [], calls0;
    var j := 0;
    while j < |cities|
      invariant 0 <= j <= |cities|
      invariant RunCities(fetch, old(client.cache), cities, world, calls0)
             == AfterBatch(steps, RunCities(fetch, client.cache, cities[j..], world, calls))
    {
      assert cities[j..][1..] == cities[j + 1..];
      var city := cities[j];
      if city == [] {
        CitiesSkip(fetch, client.cache, cities[j..], world, calls);
        j := j + 1;
        continue;
      }
      var env := world(calls);
      ghost var before := client.cache;
      var outcome, sent := client.Fetch(city, env.now, env.response);
      ghost var f := Fetched(outcome, sent, client.cache);
      assert f == fetch(before, city, env);
      CitiesStep(fetch, before, cities[j..], world, calls);
      calls := calls + 1;
      var step;
      if outcome.Ok? {
        step := Step(city, outcome, sent, None, Some(ExportPath(outcome.value, None, env.stamp)));
      } else {
        var handler := Catch(ClassOf(outcome.error));
        step := Step(city, outcome, sent, handler, None);
        if handler.None? {
          assert step == Report(city, f, env.stamp);
          return steps, calls, Some(step);
        }
      }
      assert step == Report(city, f, env.stamp);
      AfterBatchAppend(steps, [step], RunCities(fetch, client.cache, cities[j + 1..], world, calls));
      steps := steps + [step];
      j := j + 1;
    }
    crashed := None;
  }
}
