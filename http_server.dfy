/** The `/sync` endpoint of `app.HTTPServer`: the lenient window parsers, the
    optional timeout override, the mapping of the run's error to a status, and
    the handler that ties them to `App.RunOnce`. Parsing and rendering of
    RFC 3339 timestamps and of Go durations are parameters. */
module HttpServer {
  import opened Wrappers
  import opened Civil
  import opened Boundary
  import opened MySqlSink
  import opened Usecase
  import opened App

  /** `parseStartHTTP`: a bad token falls back to the default instead of failing. */
  function ParseStartHttp(val: string, default: Instant, rfc3339: string -> Option<Instant>): (t: Instant)
    ensures val == "" ==> t == default
    ensures val != "" && rfc3339(val).Some? ==> t == rfc3339(val).value
    ensures val != "" && rfc3339(val).None? && ParseDate(val).Some? ==>
      IsUtcMidnight(t) && t == StartOfDate(ParseDate(val).value)
    ensures Classify(val, rfc3339).Malformed? ==> t == default
  {
    match Classify(val, rfc3339)
    case Empty => default
    case Timestamp(t) => t
    case DateOnly(d) => DateStartIsMidnight(d); StartOfDate(d)
    case Malformed => default
  }

  /** `parseEndHTTP`: a date-only end is inclusive, so it becomes 00:00 UTC of the next day. */
  function ParseEndHttp(val: string, default: Instant, rfc3339: string -> Option<Instant>): (t: Instant)
    ensures val == "" ==> t == default
    ensures val != "" && rfc3339(val).Some? ==> t == rfc3339(val).value
    ensures val != "" && rfc3339(val).None? && ParseDate(val).Some? ==>
      IsUtcMidnight(t) && t == StartOfDate(NextDate(ParseDate(val).value))
    ensures Classify(val, rfc3339).Malformed? ==> t == default
  {
    match Classify(val, rfc3339)
    case Empty => default
    case Timestamp(t) => t
    case DateOnly(d) => DateEndIsNextMidnight(d); StartOfNextDate(NextDate(d)); DateEnd(d)
    case Malformed => default
  }

  /** The same date names a one-day range: as an end it lies exactly 24h after itself as a start. */
  lemma DateEndIsStartPlusDay(val: string, a: Instant, b: Instant, rfc3339: string -> Option<Instant>)
    requires Classify(val, rfc3339).DateOnly?
    ensures ParseEndHttp(val, a, rfc3339) == ParseStartHttp(val, b, rfc3339) + Day
  {
    DateEndIsNextMidnight(Classify(val, rfc3339).d);
  }

  /** A parsed query string: each key with its values in order. */
  type Query = map<string, seq<string>>

  /** `url.Values.Get`: the first value of the key, or "" when there is none. */
  function Get(q: Query, key: string): (v: string)
    ensures key !in q || q[key] == [] ==> v == ""
    ensures key in q && q[key] != [] ==> v == q[key][0]
  {
    if key in q && |q[key]| > 0 then q[key][0] else ""
  }

  /** The window of a request: `to` defaults to now, and `from` to 24h before the resolved `to`. */
  function SyncWindow(q: Query, now: Instant, rfc3339: string -> Option<Instant>): (w: (Instant, Instant))
    ensures w.1 == ParseEndHttp(Get(q, "to"), now, rfc3339)
    ensures w.0 == ParseStartHttp(Get(q, "from"), w.1 - Day, rfc3339)
    ensures Get(q, "from") == "" ==> w.0 == w.1 - Day
    ensures Classify(Get(q, "from"), rfc3339).Malformed? ==> w.0 == w.1 - Day
    ensures Get(q, "to") == "" ==> w.1 == now
  {
    var to := ParseEndHttp(Get(q, "to"), now, rfc3339);
    (ParseStartHttp(Get(q, "from"), to - Day, rfc3339), to)
  }

  /** The deadline the run gets, if any: only a `timeout` that parses as a positive duration counts. */
  function TimeoutOverride(q: Query, parseDuration: string -> Option<int>): (d: Option<int>)
    ensures d.Some? <==> Get(q, "timeout") != "" && parseDuration(Get(q, "timeout")).Some? && parseDuration(Get(q, "timeout")).value > 0
    ensures d.Some? ==> d.value > 0 && d == parseDuration(Get(q, "timeout"))
  {
    var s := Get(q, "timeout");
    if s == "" then None
    else match parseDuration(s)
      case Some(d) => if d > 0 then Some(d) else None
      case None => None
  }

  const StatusOK: int := 200
  const StatusMethodNotAllowed: int := 405
  const StatusConflict: int := 409
  const StatusInternalServerError: int := 500

  /** A concurrent run is told apart from a failure by its message only. */
  function StatusFor(err: Option<string>): (s: int)
    ensures s == StatusOK <==> err.None?
    ensures s == StatusConflict <==> err == Some(AlreadyRunningError)
    ensures s == StatusInternalServerError <==> err.Some? && err.value != AlreadyRunningError
  {
    match err
    case None => StatusOK
    case Some(e) => if e == AlreadyRunningError then StatusConflict else StatusInternalServerError
  }

  /** A response body: plain text, or a JSON object as its (key, value) members in key order. */
  datatype Body = Text(text: string) | Json(members: seq<(string, string)>)

  datatype Response = Response(status: int, contentType: string, body: Body)

  const JsonContentType: string := "application/json; charset=utf-8"

  /** What `http.Error` writes for a refused method. */
  const MethodNotAllowed: Response := Response(StatusMethodNotAllowed, "text/plain; charset=utf-8", Text("method not allowed\n"))

  /** The JSON reply to a run; `format` renders an instant as RFC 3339 text. An instant carries
      no UTC offset, so the offset of a token given with one is not echoed. */
  function Respond(err: Option<string>, from: Instant, to: Instant, format: Instant -> string): (r: Response)
    ensures r.status == StatusFor(err) && r.contentType == JsonContentType && r.body.Json?
    ensures ("from", format(from)) in r.body.members && ("to", format(to)) in r.body.members
    ensures err.None? ==> ("status", "ok") in r.body.members && forall m :: m in r.body.members ==> m.0 != "error"
    ensures err.Some? ==> ("status", "error") in r.body.members && ("error", err.value) in r.body.members
  {
    match err
    case None => Response(StatusOK, JsonContentType, Json([("from", format(from)), ("status", "ok"), ("to", format(to))]))
    case Some(e) => Response(StatusFor(err), JsonContentType,
      Json([("error", e), ("from", format(from)), ("status", "error"), ("to", format(to))]))
  }

  /** The `/sync` handler. `err` is the result of the run it triggered and `deadline`
      the context timeout it set up. */
  method HandleSync(app: App, httpMethod: string, q: Query, now: Instant, src: Source, faults: Faults,
                    rfc3339: string -> Option<Instant>, parseDuration: string -> Option<int>, format: Instant -> string)
    returns (resp: Response, err: Option<string>, ghost deadline: Option<int>, ghost calls: seq<Call>)
    requires app.Valid()
    modifies app`running, app.uc.sink
    ensures app.Valid()
    // other methods are refused and no sync runs
    ensures httpMethod != "GET" && httpMethod != "POST" ==>
      && resp == MethodNotAllowed && calls == [] && app.running == old(app.running)
      && (app.uc.sink != null ==> app.uc.sink.entries == old(app.uc.sink.entries) && app.uc.sink.projects == old(app.uc.sink.projects))
    ensures (httpMethod == "GET" || httpMethod == "POST") ==>
      var w := SyncWindow(q, now, rfc3339);
      && resp == Respond(err, w.0, w.1, format)
      && deadline == TimeoutOverride(q, parseDuration)
      && (old(app.running) == 1 ==>
            && err == Some(AlreadyRunningError) && resp.status == StatusConflict && calls == [] && app.running == 1
            && (app.uc.sink != null ==> app.uc.sink.entries == old(app.uc.sink.entries) && app.uc.sink.projects == old(app.uc.sink.projects)))
      && (old(app.running) == 0 ==> app.running == 0)
      && (old(app.running) == 0 && !app.uc.Initialized() ==>
            && err == Some(NotInitializedError) && resp.status == StatusInternalServerError && calls == []
            && (app.uc.sink != null ==> app.uc.sink.entries == old(app.uc.sink.entries) && app.uc.sink.projects == old(app.uc.sink.projects)))
      && (old(app.running) == 0 && app.uc.Initialized() ==>
            var r := RunSpec(src, w.0, w.1, faults, old(app.uc.sink.entries), old(app.uc.sink.projects));
            err == r.err && calls == r.calls && app.uc.sink.entries == r.entries && app.uc.sink.projects == r.projects)
  {
    if httpMethod != "GET" && httpMethod != "POST" {
      return MethodNotAllowed, None, None, [];
    }
    var toTime := ParseEndHttp(Get(q, "to"), now, rfc3339);
    var fromTime := ParseStartHttp(Get(q, "from"), toTime - Day, rfc3339);
    deadline := TimeoutOverride(q, parseDuration);
    err, calls := app.RunOnce(fromTime, toTime, src, faults);
    assert err == Some(NotInitializedError) ==> err.value != AlreadyRunningError;
    resp := Respond(err, fromTime, toTime, format);
  }
}
