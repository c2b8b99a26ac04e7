/** The `toggl-scraper` command (`cmd/toggl-scraper/main.go`): the strict window
    parsers, the local-midnight schedule, the mode selection, and the three ways the
    command drives `App.RunOnce`. Local time is a fixed offset from UTC, in
    nanoseconds; the clock readings and the ticks of the periodic ticker are
    given as sequences, and each run's database outcome as `Faults`. */
module Cli {
  import opened Wrappers
  import opened Civil
  import opened Boundary
  import opened MySqlSink
  import opened Usecase
  import opened App
  import Config
  import Decimal
  import HttpServer

  const InvalidFromError: string := "invalid --from, expected RFC3339 or YYYY-MM-DD"
  const InvalidToError: string := "invalid --to, expected RFC3339 or YYYY-MM-DD"

  // ---------------------------------------------------------------------------
  // Window flags

  /** `parseStart`: like the HTTP parser, except that a bad token is fatal. */
  function ParseStart(val: string, default: Instant, rfc3339: string -> Option<Instant>): (r: Result<Instant>)
    ensures r.Err? <==> Classify(val, rfc3339).Malformed?
    ensures r.Err? ==> r.msg == InvalidFromError
    ensures val == "" ==> r == Ok(default)
    ensures val != "" && rfc3339(val).Some? ==> r == Ok(rfc3339(val).value)
    ensures r.Ok? ==> r.value == HttpServer.ParseStartHttp(val, default, rfc3339)
  {
    match Classify(val, rfc3339)
    case Empty => Ok(default)
    case Timestamp(t) => Ok(t)
    case DateOnly(d) => Ok(StartOfDate(d))
    case Malformed => Err(InvalidFromError)
  }

  /** `parseEnd`: a date-only end becomes 00:00 UTC of the next day; a bad token is fatal. */
  function ParseEnd(val: string, default: Instant, rfc3339: string -> Option<Instant>): (r: Result<Instant>)
    ensures r.Err? <==> Classify(val, rfc3339).Malformed?
    ensures r.Err? ==> r.msg == InvalidToError
    ensures val == "" ==> r == Ok(default)
    ensures val != "" && rfc3339(val).Some? ==> r == Ok(rfc3339(val).value)
    ensures r.Ok? ==> r.value == HttpServer.ParseEndHttp(val, default, rfc3339)
  {
    match Classify(val, rfc3339)
    case Empty => Ok(default)
    case Timestamp(t) => Ok(t)
    case DateOnly(d) => Ok(DateEnd(d))
    case Malformed => Err(InvalidToError)
  }

  /** The window of the command line: `--to` is parsed first (so a bad `--to` is the
      error reported), and `--from` defaults to 24h before the resolved end. */
  function StartupWindow(fromFlag: string, toFlag: string, now: Instant, rfc3339: string -> Option<Instant>): (r: Result<(Instant, Instant)>)
    ensures r.Err? <==> Classify(toFlag, rfc3339).Malformed? || Classify(fromFlag, rfc3339).Malformed?
    ensures Classify(toFlag, rfc3339).Malformed? ==> r == Err(InvalidToError)
    ensures r.Ok? ==> r.value.1 == ParseEnd(toFlag, now, rfc3339).value
    ensures r.Ok? ==> r.value.0 == ParseStart(fromFlag, r.value.1 - Day, rfc3339).value
    ensures r.Ok? && fromFlag == "" ==> r.value.0 == r.value.1 - Day
  {
    match ParseEnd(toFlag, now, rfc3339)
    case Err(e) => Err(e)
    case Ok(to) =>
      match ParseStart(fromFlag, to - Day, rfc3339)
      case Err(e) => Err(e)
      case Ok(from) => Ok((from, to))
  }

  /** On every token the command accepts, it resolves the window exactly as the HTTP endpoint does. */
  lemma StartupWindowAgreesWithHttp(fromFlag: string, toFlag: string, now: Instant, rfc3339: string -> Option<Instant>)
    requires StartupWindow(fromFlag, toFlag, now, rfc3339).Ok?
    ensures StartupWindow(fromFlag, toFlag, now, rfc3339).value
      == HttpServer.SyncWindow(map["from" := [fromFlag], "to" := [toFlag]], now, rfc3339)
  {
    var q := map["from" := [fromFlag], "to" := [toFlag]];
    assert HttpServer.Get(q, "to") == toFlag;
    assert HttpServer.Get(q, "from") == fromFlag;
  }

  /** `2025-08-15` given as the end of the window resolves to 2025-08-16T00:00:00Z. */
  lemma InclusiveEndExample(default: Instant, rfc3339: string -> Option<Instant>)
    requires Rfc3339Shaped(rfc3339)
    ensures ParseEnd("2025-08-15", default, rfc3339) == Ok(StartOfDate(Date(2025, 8, 16)))
    ensures StartOfDate(Date(2025, 8, 16)) == 20316 * Day
  {
    var d := Date(2025, 8, 15);
    assert ValidDate(d);
    ParseFormatDate(d);
    assert FormatDate(d) == "2025-08-15";
    DateTokenIsDateOnly("2025-08-15", rfc3339);
    DateEndIsNextMidnight(d);
    assert NextDate(d) == Date(2025, 8, 16);
  }

  // ---------------------------------------------------------------------------
  // The daily schedule

  /** Midnight in the zone `offset` nanoseconds east of UTC. */
  predicate IsLocalMidnight(t: Instant, offset: int) {
    (t + offset) % Day == 0
  }

  /** `time.Date(y, m, d, 0, 0, 0, 0, loc)` for the local date of t. */
  function LocalMidnightOf(t: Instant, offset: int): Instant {
    ((t + offset) / Day) * Day - offset
  }

  lemma LocalMidnightOfSpec(t: Instant, offset: int)
    ensures IsLocalMidnight(LocalMidnightOf(t, offset), offset)
    ensures LocalMidnightOf(t, offset) <= t < LocalMidnightOf(t, offset) + Day
    ensures forall m :: LocalMidnightOf(t, offset) < m < LocalMidnightOf(t, offset) + Day ==> !IsLocalMidnight(m, offset)
  {
    var k := (t + offset) / Day;
    DayMultiple(k);
    forall m | LocalMidnightOf(t, offset) < m < LocalMidnightOf(t, offset) + Day
      ensures !IsLocalMidnight(m, offset)
    {
      var x := m + offset;
      assert k * Day < x < k * Day + Day;
      assert x == (x / Day) * Day + x % Day;
    }
  }

  /** Two distinct local midnights are at least a day apart. */
  lemma MidnightsADayApart(a: Instant, b: Instant, offset: int)
    requires IsLocalMidnight(a, offset) && IsLocalMidnight(b, offset) && a < b
    ensures a + Day <= b
  {
    var i, j := (a + offset) / Day, (b + offset) / Day;
    assert a + offset == i * Day;
    assert b + offset == j * Day;
    assert i < j;
  }

  /** `nextMidnight`: the first local midnight strictly after t (so never t itself). */
  function NextMidnight(t: Instant, offset: int): (r: Instant)
    ensures t < r <= t + Day
    ensures IsLocalMidnight(r, offset)
    ensures IsLocalMidnight(t, offset) ==> r == t + Day
    ensures forall m :: t < m < r ==> !IsLocalMidnight(m, offset)
  {
    var midnight := LocalMidnightOf(t, offset);
    LocalMidnightOfSpec(t, offset);
    DayMultiple((t + offset) / Day + 1);
    if !(t > midnight) then
      if t == midnight then midnight + Day else midnight
    else midnight + Day
  }

  /** The window of a daily run woken at the midnight after the reading `nowLoc`:
      the 24h that end there, i.e. the local day of `nowLoc`. */
  function DailyWindow(nowLoc: Instant, offset: int): (w: (Instant, Instant))
    ensures w.1 == NextMidnight(nowLoc, offset) && w.1 - w.0 == Day
    ensures IsLocalMidnight(w.0, offset) && w.0 <= nowLoc < w.1
  {
    var next := NextMidnight(nowLoc, offset);
    DayMultiple((next + offset) / Day - 1);
    (next - Day, next)
  }

  /** No double fire: a loop that reads the clock again only after its wake-up time
      gets a window that starts no earlier than the previous one ended, and exactly
      there when it reads the clock right at that midnight. */
  lemma NoDoubleFire(t1: Instant, t2: Instant, offset: int)
    requires t2 >= NextMidnight(t1, offset)
    ensures DailyWindow(t2, offset).0 >= DailyWindow(t1, offset).1
    ensures t2 == NextMidnight(t1, offset) ==> DailyWindow(t2, offset).0 == DailyWindow(t1, offset).1
  {
    var n1, w2 := NextMidnight(t1, offset), DailyWindow(t2, offset);
    if w2.0 < n1 {
      MidnightsADayApart(w2.0, n1, offset);
    }
  }

  /** The wake-up readings of a daily loop: each one taken after the previous wake-up time. */
  ghost predicate WakesAfterEachMidnight(clock: seq<Instant>, offset: int) {
    forall i :: 0 <= i < |clock| - 1 ==> clock[i + 1] >= NextMidnight(clock[i], offset)
  }

  /** A periodic tick at `now` looks back 24h, whatever the ticker's interval. */
  function PeriodicWindow(now: Instant): (w: (Instant, Instant))
    ensures w.1 == now && w.1 - w.0 == Day
  {
    (now - Day, now)
  }

  // ---------------------------------------------------------------------------
  // Modes

  datatype Mode = Once | Daily | Periodic

  /** `-once` wins over `-daily`, and periodic syncing is the fallback. */
  function SelectMode(once: bool, daily: bool): (m: Mode)
    ensures m.Once? <==> once
    ensures m.Daily? <==> !once && daily
    ensures m.Periodic? <==> !once && !daily
  {
    if once then Once else if daily then Daily else Periodic
  }

  datatype Flags = Flags(once: bool, daily: bool, from: string, to: string)

  /** How start-up ends: exit with a code, or go on with a configuration, a window and a mode. */
  datatype Start = Exit(code: int) | Ready(cfg: Config.Config, from: Instant, to: Instant, mode: Mode)

  /** Start-up up to the construction of the app: load the configuration, then resolve the window. */
  method Startup(env: map<string, string>, flags: Flags, now: Instant, rfc3339: string -> Option<Instant>) returns (s: Start)
    ensures var token, ws := Config.Getenv(env, "TOGGL_API_TOKEN"), Config.Getenv(env, "TOGGL_WORKSPACE_ID");
      s.Exit? <==> !(token != "" && (ws == "" || Decimal.ParseInt64(ws).Ok?)) || StartupWindow(flags.from, flags.to, now, rfc3339).Err?
    ensures s.Exit? ==> s.code == 1
    ensures s.Ready? ==>
      && (s.from, s.to) == StartupWindow(flags.from, flags.to, now, rfc3339).value
      && s.mode == SelectMode(flags.once, flags.daily)
      && s.cfg.mysqlDsn == Config.Getenv(env, "MYSQL_DSN")
  {
    var cfg, err := Config.Load(env);
    if err.Some? {
      return Exit(1);
    }
    var window := StartupWindow(flags.from, flags.to, now, rfc3339);
    if window.Err? {
      return Exit(1);
    }
    return Ready(cfg, window.value.0, window.value.1, SelectMode(flags.once, flags.daily));
  }

  /** `-once`: one run, and a failed run is exit status 1. */
  method RunOnceMode(app: App, from: Instant, to: Instant, src: Source, faults: Faults) returns (exitCode: int, err: Option<string>)
    requires app.Valid() && app.running == 0
    modifies app`running, app.uc.sink
    ensures app.running == 0
    ensures exitCode == (if err.None? then 0 else 1)
    ensures !app.uc.Initialized() ==> err == Some(NotInitializedError)
    ensures !app.uc.Initialized() && app.uc.sink != null ==>
      app.uc.sink.entries == old(app.uc.sink.entries) && app.uc.sink.projects == old(app.uc.sink.projects)
    ensures app.uc.Initialized() ==>
      var r := RunSpec(src, from, to, faults, old(app.uc.sink.entries), old(app.uc.sink.projects));
      err == r.err && app.uc.sink.entries == r.entries && app.uc.sink.projects == r.projects
  {
    ghost var calls;
    err, calls := app.RunOnce(from, to, src, faults);
    exitCode := if err.None? then 0 else 1;
  }

  /** `-daily`: `zone` is the offset `time.LoadLocation` found, if any. Each reading of
      the clock is followed by a sleep to the next local midnight and a run over the
      day that ends there; a failed run is only logged. The loop ends (shutdown) when
      the readings run out. `conds[i]` is what Toggl answers and how the sink fares during
      the i-th run; `results` lists the error of each run. */
  method DailyLoop(app: App, zone: Option<int>, clock: seq<Instant>, conds: seq<Conditions>)
    returns (exitCode: int, ghost windows: seq<(Instant, Instant)>, ghost results: seq<Option<string>>)
    requires app.Valid() && app.running == 0 && |conds| == |clock|
    modifies app`running, app.uc.sink
    ensures app.Valid() && app.running == 0
    ensures |results| == |windows|
    // an unknown zone exits before any run
    ensures zone.None? ==> exitCode == 1 && windows == []
    ensures zone.None? && app.uc.sink != null ==>
      app.uc.sink.entries == old(app.uc.sink.entries) && app.uc.sink.projects == old(app.uc.sink.projects)
    ensures zone.Some? ==> exitCode == 0 && |windows| == |clock|
    ensures zone.Some? ==> forall i :: 0 <= i < |clock| ==> windows[i] == DailyWindow(clock[i], zone.value)
    ensures zone.Some? && WakesAfterEachMidnight(clock, zone.value) ==>
      forall i :: 0 <= i < |windows| - 1 ==> windows[i + 1].0 >= windows[i].1
    // every run is admitted: its result is the use case's, on the tables the previous runs left
    ensures !app.uc.Initialized() ==> forall i :: 0 <= i < |results| ==> results[i] == Some(NotInitializedError)
    ensures !app.uc.Initialized() && app.uc.sink != null ==>
      app.uc.sink.entries == old(app.uc.sink.entries) && app.uc.sink.projects == old(app.uc.sink.projects)
    ensures zone.Some? && app.uc.Initialized() ==>
      var r := RunAll(conds, windows, old(app.uc.sink.entries), old(app.uc.sink.projects));
      results == r.errs && app.uc.sink.entries == r.entries && app.uc.sink.projects == r.projects
  {
    if zone.None? {
      return 1, [], [];
    }
    var offset := zone.value;
    windows, results := [], [];
    var i := 0;
    while i < |clock|
      invariant 0 <= i <= |clock|
      invariant app.Valid() && app.running == 0
      invariant |windows| == i && |results| == i
      invariant forall j :: 0 <= j < i ==> windows[j] == DailyWindow(clock[j], offset)
      invariant !app.uc.Initialized() ==> forall j :: 0 <= j < i ==> results[j] == Some(NotInitializedError)
      invariant !app.uc.Initialized() && app.uc.sink != null ==>
        app.uc.sink.entries == old(app.uc.sink.entries) && app.uc.sink.projects == old(app.uc.sink.projects)
      invariant app.uc.Initialized() ==>
        var r := RunAll(conds[..i], windows, old(app.uc.sink.entries), old(app.uc.sink.projects));
        results == r.errs && app.uc.sink.entries == r.entries && app.uc.sink.projects == r.projects
    {
      var next := NextMidnight(clock[i], offset);
      var endUtc := next;
      var startUtc := endUtc - Day;
      var err;
      ghost var calls;
      if app.uc.Initialized() {
        RunAllSnoc(conds[..i], windows, conds[i], (startUtc, endUtc),
                   old(app.uc.sink.entries), old(app.uc.sink.projects));
      }
      err, calls := app.RunOnce(startUtc, endUtc, conds[i].src, conds[i].faults);
      assert conds[..i + 1] == conds[..i] + [conds[i]];
      windows, results := windows + [(startUtc, endUtc)], results + [err];
      i := i + 1;
    }
    assert conds[..i] == conds;
    if WakesAfterEachMidnight(clock, offset) {
      forall j | 0 <= j < |windows| - 1 ensures windows[j + 1].0 >= windows[j].1 {
        NoDoubleFire(clock[j], clock[j + 1], offset);
      }
    }
    return 0, windows, results;
  }

  /** Periodic mode: one run over the window of the flags, then one per tick over the
      24h before it; failed runs are only logged. `conds[i]` is what Toggl answers and how
      the sink fares during the i-th run; `results` lists the error of each run. */
  method PeriodicLoop(app: App, from: Instant, to: Instant, ticks: seq<Instant>, conds: seq<Conditions>)
    returns (ghost windows: seq<(Instant, Instant)>, ghost results: seq<Option<string>>)
    requires app.Valid() && app.running == 0 && |conds| == |ticks| + 1
    modifies app`running, app.uc.sink
    ensures app.Valid() && app.running == 0
    ensures |windows| == |ticks| + 1 && windows[0] == (from, to)
    ensures forall i :: 0 <= i < |ticks| ==> windows[i + 1] == PeriodicWindow(ticks[i])
    ensures |results| == |windows|
    // every run is admitted: its result is the use case's, on the tables the previous runs left
    ensures !app.uc.Initialized() ==> forall i :: 0 <= i < |results| ==> results[i] == Some(NotInitializedError)
    ensures !app.uc.Initialized() && app.uc.sink != null ==>
      app.uc.sink.entries == old(app.uc.sink.entries) && app.uc.sink.projects == old(app.uc.sink.projects)
    ensures app.uc.Initialized() ==>
      var r := RunAll(conds, windows, old(app.uc.sink.entries), old(app.uc.sink.projects));
      results == r.errs && app.uc.sink.entries == r.entries && app.uc.sink.projects == r.projects
  {
    var err;
    ghost var calls;
    if app.uc.Initialized() {
      RunAllSnoc([], [], conds[0], (from, to),
                 old(app.uc.sink.entries), old(app.uc.sink.projects));
    }
    err, calls := app.RunOnce(from, to, conds[0].src, conds[0].faults);
    assert [] + [(from, to)] == [(from, to)] && conds[..1] == [] + [conds[0]];
    windows, results := [(from, to)], [err];
    var i := 0;
    while i < |ticks|
      invariant 0 <= i <= |ticks|
      invariant app.Valid() && app.running == 0
      invariant |windows| == i + 1 && windows[0] == (from, to) && |results| == i + 1
      invariant forall j :: 0 <= j < i ==> windows[j + 1] == PeriodicWindow(ticks[j])
      invariant !app.uc.Initialized() ==> forall j :: 0 <= j <= i ==> results[j] == Some(NotInitializedError)
      invariant !app.uc.Initialized() && app.uc.sink != null ==>
        app.uc.sink.entries == old(app.uc.sink.entries) && app.uc.sink.projects == old(app.uc.sink.projects)
      invariant app.uc.Initialized() ==>
        var r := RunAll(conds[..i + 1], windows, old(app.uc.sink.entries), old(app.uc.sink.projects));
        results == r.errs && app.uc.sink.entries == r.entries && app.uc.sink.projects == r.projects
    {
      var end := ticks[i];
      var start := end - Day;
      if app.uc.Initialized() {
        RunAllSnoc(conds[..i + 1], windows, conds[i + 1], (start, end),
                   old(app.uc.sink.entries), old(app.uc.sink.projects));
      }
      err, calls := app.RunOnce(start, end, conds[i + 1].src, conds[i + 1].faults);
      assert conds[..i + 2] == conds[..i + 1] + [conds[i + 1]];
      windows, results := windows + [(start, end)], results + [err];
      i := i + 1;
    }
    assert conds[..i + 1] == conds;
  }
}
