/** `usecase.SyncUseCase.Run`: fetch projects, upsert them, fetch the time entries
    of a window, upsert them, stopping at the first error. What the Toggl client
    answers during a run is a `Source`, given to that run; the sink is a `MySqlSink.Store`, whose transaction
    failures come from `Faults`. */
module Usecase {
  import opened Wrappers
  import opened Civil
  import opened Domain
  import opened MySqlSink

  /** The answers of the Toggl client: its project list, and its entries for each window. */
  datatype Source = Source(
    projects: Result<seq<Project>>,
    entries: (Instant, Instant) -> Result<seq<TimeEntry>>)

  /** How the sink's two transactions would turn out. */
  datatype Faults = Faults(projects: TxFault, entries: TxFault)

  /** A call to a collaborator, as recorded in the trace of a run. */
  datatype Call =
    | ListProjects
    | SyncProjects(projects: seq<Project>)
    | ListTimeEntries(from: Instant, to: Instant)
    | SyncEntries(entries: seq<TimeEntry>)

  const NotInitializedError: string := "usecase not initialized: missing dependencies"

  /** What a run returns and leaves behind: its error, the calls it made in order, and both tables. */
  datatype RunOutcome = RunOutcome(
    err: Option<string>,
    calls: seq<Call>,
    entries: map<Int64, EntryRow>,
    projects: map<Int64, ProjectRow>)

  /** The run against an initialised use case, on tables `entries` and `projects`. */
  function RunSpec(src: Source, from: Instant, to: Instant, faults: Faults,
                   entries: map<Int64, EntryRow>, projects: map<Int64, ProjectRow>): (r: RunOutcome)
    // projects are fetched first, with no window
    ensures |r.calls| >= 1 && r.calls[0] == ListProjects
    // a failed project fetch is returned as is; nothing else is called or persisted
    ensures src.projects.Err? ==> r == RunOutcome(Some(src.projects.msg), [ListProjects], entries, projects)
    // SyncProjects is called exactly when the fetched list is non-empty, and with that list
    ensures (|r.calls| >= 2 && r.calls[1].SyncProjects?) <==> (src.projects.Ok? && |src.projects.value| > 0)
    ensures |r.calls| >= 2 && r.calls[1].SyncProjects? ==> r.calls[1].projects == src.projects.value
    // a failed project upsert is returned; entries are never fetched and nothing is persisted
    ensures src.projects.Ok? && |src.projects.value| > 0 && Transact(projects, ProjectStatements(src.projects.value), faults.projects).0.Some? ==>
      r == RunOutcome(Transact(projects, ProjectStatements(src.projects.value), faults.projects).0,
                      [ListProjects, SyncProjects(src.projects.value)], entries, projects)
    // the entry window is passed through unchanged
    ensures forall i :: 0 <= i < |r.calls| && r.calls[i].ListTimeEntries? ==> r.calls[i] == ListTimeEntries(from, to)
    // the entry table changes only through SyncEntries, which is the last call
    ensures r.entries != entries ==> r.calls[|r.calls| - 1].SyncEntries?
    ensures forall i :: 0 <= i < |r.calls| - 1 ==> !r.calls[i].SyncEntries?
    // the result is nil exactly when every attempted call succeeded
    ensures r.err.None? <==>
      && src.projects.Ok?
      && Transact(projects, ProjectStatements(src.projects.value), faults.projects).0.None?
      && src.entries(from, to).Ok?
      && Transact(entries, EntryStatements(src.entries(from, to).value), faults.entries).0.None?
  {
    match src.projects
    case Err(e) => RunOutcome(Some(e), [ListProjects], entries, projects)
    case Ok(ps) =>
      var (pErr, projects') := if |ps| > 0 then Transact(projects, ProjectStatements(ps), faults.projects) else (None, projects);
      if pErr.Some? then RunOutcome(pErr, [ListProjects, SyncProjects(ps)], entries, projects)
      else
        var fetched := if |ps| > 0 then [ListProjects, SyncProjects(ps), ListTimeEntries(from, to)]
                       else [ListProjects, ListTimeEntries(from, to)];
        match src.entries(from, to)
        case Err(e) => RunOutcome(Some(e), fetched, entries, projects')
        case Ok(es) =>
          if |es| == 0 then RunOutcome(None, fetched, entries, projects')
          else
            var (eErr, entries') := Transact(entries, EntryStatements(es), faults.entries);
            var calls := if |ps| > 0 then [ListProjects, SyncProjects(ps), ListTimeEntries(from, to), SyncEntries(es)]
                         else [ListProjects, ListTimeEntries(from, to), SyncEntries(es)];
            RunOutcome(eErr, calls, entries', projects')
  }

  /** Whether the projects stage of a run lets it go on to the entries. */
  predicate ProjectsStageOk(src: Source, faults: Faults, projects: map<Int64, ProjectRow>) {
    src.projects.Ok? && Transact(projects, ProjectStatements(src.projects.value), faults.projects).0.None?
  }

  /** The entries stage: entries are fetched, for the run's window, exactly when the
      projects stage succeeded; SyncEntries is the last call exactly when a non-empty
      list came back, and it gets that list; an empty list ends the run successfully
      without touching the entries table. */
  lemma RunSpecEntriesStage(src: Source, from: Instant, to: Instant, faults: Faults,
                            entries: map<Int64, EntryRow>, projects: map<Int64, ProjectRow>)
    ensures var r := RunSpec(src, from, to, faults, entries, projects);
      && (ListTimeEntries(from, to) in r.calls <==> ProjectsStageOk(src, faults, projects))
      && (r.calls[|r.calls| - 1].SyncEntries? <==>
            ProjectsStageOk(src, faults, projects) && src.entries(from, to).Ok? && |src.entries(from, to).value| > 0)
      && (r.calls[|r.calls| - 1].SyncEntries? ==> r.calls[|r.calls| - 1].entries == src.entries(from, to).value)
      && (ProjectsStageOk(src, faults, projects) && src.entries(from, to) == Ok([]) ==>
            r.err.None? && r.entries == entries && r.calls[|r.calls| - 1] == ListTimeEntries(from, to))
  {
  }

  /** The whole trace of a run: each collaborator is called at most once, in the order
      ListProjects, SyncProjects, ListTimeEntries, SyncEntries, and each only when every
      earlier step let the run go on (and, for the two upserts, there was something to upsert). */
  lemma RunSpecTrace(src: Source, from: Instant, to: Instant, faults: Faults,
                     entries: map<Int64, EntryRow>, projects: map<Int64, ProjectRow>)
    ensures RunSpec(src, from, to, faults, entries, projects).calls ==
      [ListProjects]
      + (if src.projects.Ok? && |src.projects.value| > 0 then [SyncProjects(src.projects.value)] else [])
      + (if ProjectsStageOk(src, faults, projects) then [ListTimeEntries(from, to)] else [])
      + (if ProjectsStageOk(src, faults, projects) && src.entries(from, to).Ok? && |src.entries(from, to).value| > 0
         then [SyncEntries(src.entries(from, to).value)] else [])
  {
  }

  /** The use case with its two dependencies, either of which may be nil. Of the Toggl
      client only its presence is kept: what it answers depends on when it is asked, so
      each run is given the answers of its own moment as `src`. */
  class SyncUseCase {
    const hasToggl: bool
    const sink: Store?

    constructor (hasToggl: bool, sink: Store?)
      ensures this.hasToggl == hasToggl && this.sink == sink
    {
      this.hasToggl := hasToggl;
      this.sink := sink;
    }

    predicate Initialized() {
      hasToggl && sink != null
    }

    /** `Run`: the trace `calls` lists the collaborator calls it made. */
    method Run(from: Instant, to: Instant, src: Source, faults: Faults) returns (err: Option<string>, ghost calls: seq<Call>)
      modifies sink
      ensures !Initialized() ==> err == Some(NotInitializedError) && calls == []
      ensures !Initialized() && sink != null ==> sink.entries == old(sink.entries) && sink.projects == old(sink.projects)
      ensures Initialized() ==>
        var r := RunSpec(src, from, to, faults, old(sink.entries), old(sink.projects));
        err == r.err && calls == r.calls && sink.entries == r.entries && sink.projects == r.projects
    {
      if !hasToggl || sink == null {
        return Some(NotInitializedError), [];
      }
      calls := [ListProjects];
      if src.projects.Err? {
        return Some(src.projects.msg), calls;
      }
      var projects := src.projects.value;
      if |projects| > 0 {
        calls := calls + [SyncProjects(projects)];
        err := sink.SyncProjects(projects, faults.projects);
        if err.Some? {
          return;
        }
      }
      calls := calls + [ListTimeEntries(from, to)];
      var fetched := src.entries(from, to);
      if fetched.Err? {
        return Some(fetched.msg), calls;
      }
      var entries := fetched.value;
      if |entries| == 0 {
        return None, calls;
      }
      calls := calls + [SyncEntries(entries)];
      err := sink.SyncEntries(entries, faults.entries);
    }
  }

  // ---------------------------------------------------------------------------
  // Properties across calls

  /** After an entry fetch fails, the projects already upserted stay. */
  lemma EntriesFailureKeepsProjects(src: Source, from: Instant, to: Instant, faults: Faults,
                                    entries: map<Int64, EntryRow>, projects: map<Int64, ProjectRow>)
    requires src.projects.Ok? && Transact(projects, ProjectStatements(src.projects.value), faults.projects).0.None?
    requires src.entries(from, to).Err?
    ensures var r := RunSpec(src, from, to, faults, entries, projects);
      && r.err == Some(src.entries(from, to).msg)
      && r.entries == entries
      && r.projects == UpsertAll(projects, ProjectStatements(src.projects.value))
  {
    TransactAllOrNothing(projects, ProjectStatements(src.projects.value), faults.projects);
  }

  /** After the entry upsert fails, its error is returned, the entries table is as before,
      and the projects already upserted stay. */
  lemma EntriesUpsertFailureKeepsProjects(src: Source, from: Instant, to: Instant, faults: Faults,
                                          entries: map<Int64, EntryRow>, projects: map<Int64, ProjectRow>)
    requires ProjectsStageOk(src, faults, projects)
    requires src.entries(from, to).Ok? && |src.entries(from, to).value| > 0
    requires Transact(entries, EntryStatements(src.entries(from, to).value), faults.entries).0.Some?
    ensures var r := RunSpec(src, from, to, faults, entries, projects);
      && r.err == Transact(entries, EntryStatements(src.entries(from, to).value), faults.entries).0
      && r.entries == entries
      && r.projects == UpsertAll(projects, ProjectStatements(src.projects.value))
  {
    TransactAllOrNothing(projects, ProjectStatements(src.projects.value), faults.projects);
    TransactAllOrNothing(entries, EntryStatements(src.entries(from, to).value), faults.entries);
  }

  /** A successful run leaves both tables with every fetched record upserted. */
  lemma SuccessfulRunUpserts(src: Source, from: Instant, to: Instant, faults: Faults,
                             entries: map<Int64, EntryRow>, projects: map<Int64, ProjectRow>)
    requires RunSpec(src, from, to, faults, entries, projects).err.None?
    ensures var r := RunSpec(src, from, to, faults, entries, projects);
      && r.projects == UpsertAll(projects, ProjectStatements(src.projects.value))
      && r.entries == UpsertAll(entries, EntryStatements(src.entries(from, to).value))
  {
    TransactAllOrNothing(projects, ProjectStatements(src.projects.value), faults.projects);
    TransactAllOrNothing(entries, EntryStatements(src.entries(from, to).value), faults.entries);
  }

  /** Two successful runs over the same answers leave the tables as one run did. */
  lemma RerunIsIdempotent(src: Source, from: Instant, to: Instant, f1: Faults, f2: Faults,
                          entries: map<Int64, EntryRow>, projects: map<Int64, ProjectRow>)
    requires RunSpec(src, from, to, f1, entries, projects).err.None?
    requires var r1 := RunSpec(src, from, to, f1, entries, projects);
      RunSpec(src, from, to, f2, r1.entries, r1.projects).err.None?
    ensures var r1 := RunSpec(src, from, to, f1, entries, projects);
      var r2 := RunSpec(src, from, to, f2, r1.entries, r1.projects);
      r2.entries == r1.entries && r2.projects == r1.projects
  {
    var r1 := RunSpec(src, from, to, f1, entries, projects);
    SuccessfulRunUpserts(src, from, to, f1, entries, projects);
    SuccessfulRunUpserts(src, from, to, f2, r1.entries, r1.projects);
    UpsertAllIdempotent(projects, ProjectStatements(src.projects.value));
    UpsertAllIdempotent(entries, EntryStatements(src.entries(from, to).value));
  }

  /** What a sequence of runs returns and leaves behind: the error of each run, in order, and both tables. */
  datatype Runs = Runs(errs: seq<Option<string>>, entries: map<Int64, EntryRow>, projects: map<Int64, ProjectRow>)

  /** What the outside world does during one run: what Toggl answers at that moment, and
      how the sink's transactions turn out. */
  datatype Conditions = Conditions(src: Source, faults: Faults)

  /** Runs over `windows` one after another, the i-th under `conds[i]` and on the tables
      the previous one left; a failed run does not stop the later ones. */
  function RunAll(conds: seq<Conditions>, windows: seq<(Instant, Instant)>,
                  entries: map<Int64, EntryRow>, projects: map<Int64, ProjectRow>): (r: Runs)
    requires |conds| == |windows|
    ensures |r.errs| == |windows|
    ensures windows != [] ==>
      r.errs[0] == RunSpec(conds[0].src, windows[0].0, windows[0].1, conds[0].faults, entries, projects).err
    decreases |windows|
  {
    if windows == [] then Runs([], entries, projects)
    else
      var o := RunSpec(conds[0].src, windows[0].0, windows[0].1, conds[0].faults, entries, projects);
      var rest := RunAll(conds[1..], windows[1..], o.entries, o.projects);
      Runs([o.err] + rest.errs, rest.entries, rest.projects)
  }

  /** One more run after a sequence of runs starts from the tables the sequence left. */
  lemma {:induction false} RunAllSnoc(conds: seq<Conditions>, windows: seq<(Instant, Instant)>,
                                      c: Conditions, w: (Instant, Instant),
                                      entries: map<Int64, EntryRow>, projects: map<Int64, ProjectRow>)
    requires |conds| == |windows|
    ensures var r := RunAll(conds, windows, entries, projects);
      var o := RunSpec(c.src, w.0, w.1, c.faults, r.entries, r.projects);
      RunAll(conds + [c], windows + [w], entries, projects) == Runs(r.errs + [o.err], o.entries, o.projects)
    decreases |windows|
  {
    if windows == [] {
      assert windows + [w] == [w] && conds + [c] == [c];
      assert [w][1..] == [] && [c][1..] == [];
    } else {
      var o := RunSpec(conds[0].src, windows[0].0, windows[0].1, conds[0].faults, entries, projects);
      assert (windows + [w])[0] == windows[0] && (conds + [c])[0] == conds[0];
      assert (windows + [w])[1..] == windows[1..] + [w] && (conds + [c])[1..] == conds[1..] + [c];
      RunAllSnoc(conds[1..], windows[1..], c, w, o.entries, o.projects);
    }
  }

  /** While Toggl cannot list projects, every run fails with that run's error and nothing is written. */
  lemma {:induction false} OutageWritesNothing(conds: seq<Conditions>, windows: seq<(Instant, Instant)>,
                                               entries: map<Int64, EntryRow>, projects: map<Int64, ProjectRow>)
    requires |conds| == |windows| && forall i :: 0 <= i < |conds| ==> conds[i].src.projects.Err?
    ensures var r := RunAll(conds, windows, entries, projects);
      && r.entries == entries && r.projects == projects
      && forall i :: 0 <= i < |r.errs| ==> r.errs[i] == Some(conds[i].src.projects.msg)
    decreases |windows|
  {
    if windows != [] {
      OutageWritesNothing(conds[1..], windows[1..], entries, projects);
      assert forall i :: 1 <= i < |conds| ==> conds[i] == conds[1..][i - 1];
    }
  }

  /** A source with no projects that always answers the two given entries. */
  function TwoEntrySource(a: TimeEntry, b: TimeEntry): Source {
    Source(Ok([]), (from: Instant, to: Instant) => Ok([a, b]))
  }

  /** Upserting two entries into an empty table gives one row per entry. */
  lemma TwoEntryUpsert(a: TimeEntry, b: TimeEntry)
    requires a.id != b.id
    ensures UpsertAll(map[], EntryStatements([a, b])) == map[a.id := EntryRowOf(a), b.id := EntryRowOf(b)]
  {
    var stmts := EntryStatements([a, b]);
    assert stmts == [(a.id, EntryRowOf(a)), (b.id, EntryRowOf(b))];
    var first: seq<(Int64, EntryRow)> := stmts[..1];
    assert first[..0] == [];
    assert UpsertAll(map[], first) == map[a.id := EntryRowOf(a)];
    assert stmts[..|stmts| - 1] == first;
  }

  /** Two entries with distinct ids, synced into an empty table twice: two rows after each run. */
  lemma TwoEntriesTwoRows(a: TimeEntry, b: TimeEntry, from: Instant, to: Instant)
    requires a.id != b.id
    ensures var r1 := RunSpec(TwoEntrySource(a, b), from, to, Faults(NoFault, NoFault), map[], map[]);
      var r2 := RunSpec(TwoEntrySource(a, b), from, to, Faults(NoFault, NoFault), r1.entries, r1.projects);
      && r1.err.None? && r2.err.None?
      && r1.entries == map[a.id := EntryRowOf(a), b.id := EntryRowOf(b)] && |r1.entries| == 2
      && r2.entries == r1.entries
  {
    var src := TwoEntrySource(a, b);
    var faults := Faults(NoFault, NoFault);
    assert src.entries(from, to) == Ok([a, b]);
    TwoEntryUpsert(a, b);
    var r1 := RunSpec(src, from, to, faults, map[], map[]);
    assert r1.entries == UpsertAll(map[], EntryStatements([a, b]));
    assert r1.entries.Keys == {a.id, b.id};
    RerunIsIdempotent(src, from, to, faults, faults, map[], map[]);
  }
}
