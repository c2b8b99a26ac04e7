/** `app.App`: the single-flight guard around the sync use case. `running` is 0
    when idle and 1 while a sync is in progress; the compare-and-swap of the
    source is modelled as one sequential step. */
module App {
  import opened Wrappers
  import opened Civil
  import opened MySqlSink
  import opened Usecase

  const AlreadyRunningError: string := "sync already running"

  class App {
    var running: int
    const uc: SyncUseCase

    constructor (uc: SyncUseCase)
      ensures this.uc == uc && running == 0 && Valid()
    {
      this.uc := uc;
      running := 0;
    }

    /** The guard cell only ever holds 0 or 1. */
    predicate Valid()
      reads this
    {
      running == 0 || running == 1
    }

    /** `tryBeginRun`: compare-and-swap 0 to 1. */
    method TryBeginRun() returns (ok: bool)
      requires Valid()
      modifies this`running
      ensures Valid()
      ensures ok <==> old(running) == 0
      ensures running == 1
    {
      if running == 0 {
        running := 1;
        return true;
      }
      return false;
    }

    /** `endRun`: back to idle. */
    method EndRun()
      modifies this`running
      ensures running == 0 && Valid()
    {
      running := 0;
    }

    /** `RunOnce`: refused while a run is in progress; otherwise the use case's own
        result, with the guard released afterwards whatever that result is. */
    method RunOnce(from: Instant, to: Instant, src: Source, faults: Faults) returns (err: Option<string>, ghost calls: seq<Call>)
      requires Valid()
      modifies this`running, uc.sink
      ensures Valid()
      // refused: the use case is not called and the guard stays taken
      ensures old(running) == 1 ==>
        && err == Some(AlreadyRunningError) && calls == [] && running == 1
        && (uc.sink != null ==> uc.sink.entries == old(uc.sink.entries) && uc.sink.projects == old(uc.sink.projects))
      // admitted: the guard is released, and the result is that of the use case
      ensures old(running) == 0 ==> running == 0
      ensures old(running) == 0 && !uc.Initialized() ==> err == Some(NotInitializedError) && calls == []
      ensures old(running) == 0 && !uc.Initialized() && uc.sink != null ==>
        uc.sink.entries == old(uc.sink.entries) && uc.sink.projects == old(uc.sink.projects)
      ensures old(running) == 0 && uc.Initialized() ==>
        var r := RunSpec(src, from, to, faults, old(uc.sink.entries), old(uc.sink.projects));
        err == r.err && calls == r.calls && uc.sink.entries == r.entries && uc.sink.projects == r.projects
    {
      var admitted := TryBeginRun();
      if !admitted {
        return Some(AlreadyRunningError), [];
      }
      err, calls := uc.Run(from, to, src, faults);
      EndRun();
    }
  }
}
