/** The MySQL sink (`mysql.Client.SyncEntries` / `SyncProjects`) as an in-memory
    store: each table is a map from primary key to row. A batch runs one
    `INSERT ... ON DUPLICATE KEY UPDATE` per record inside a transaction; any
    failure rolls the transaction back. */
module MySqlSink {
  import opened Wrappers
  import opened Civil
  import opened Domain
  import TagsText

  /** A row of `toggl_time_entries`, without its key `id`; `None` is SQL NULL. */
  datatype EntryRow = EntryRow(
    description: string,
    projectId: Option<Int64>,
    workspaceId: Option<Int64>,
    tags: string,
    start: Instant,
    stop: Option<Instant>,
    durationSec: Int64)

  /** A row of `toggl_projects`, without its key `id`; `None` is SQL NULL. */
  datatype ProjectRow = ProjectRow(
    workspaceId: Int64,
    name: string,
    active: bool,
    isPrivate: bool,
    color: string,
    clientId: Option<Int64>,
    at: Instant)

  /** The column values bound for one entry: the tags as their JSON text, an absent
      project, workspace or stop as NULL, every other field as it is. */
  function EntryRowOf(e: TimeEntry): (r: EntryRow)
    ensures r.tags == TagsText.Encode(e.tags)
    ensures r.projectId == e.projectId && r.workspaceId == e.workspaceId && r.stop == e.stop
    ensures r.description == e.description && r.start == e.start && r.durationSec == e.durationSec
  {
    EntryRow(e.description, e.projectId, e.workspaceId, TagsText.Encode(e.tags), e.start, e.stop, e.durationSec)
  }

  /** The column values bound for one project: an absent client as NULL, every other field as it is. */
  function ProjectRowOf(p: Project): (r: ProjectRow)
    ensures r.clientId == p.clientId && r.workspaceId == p.workspaceId && r.name == p.name
    ensures r.active == p.active && r.isPrivate == p.isPrivate && r.color == p.color && r.at == p.at
  {
    ProjectRow(p.workspaceId, p.name, p.active, p.isPrivate, p.color, p.clientId, p.at)
  }

  /** How one abstracted database call of a batch turns out: `ExecFails(i, _)`
      makes the statement for the i-th record fail. */
  datatype TxFault =
    | NoFault
    | BeginFails(msg: string)
    | PrepareFails(msg: string)
    | ExecFails(at: nat, msg: string)
    | CommitFails(msg: string)

  /** The keys of a batch of (key, row) statements. */
  function Keys<R>(stmts: seq<(Int64, R)>): set<Int64> {
    set i | 0 <= i < |stmts| :: stmts[i].0
  }

  /** Running the statements in order: each one inserts its row or overwrites the row with its key. */
  function UpsertAll<R>(m: map<Int64, R>, stmts: seq<(Int64, R)>): map<Int64, R>
    decreases |stmts|
  {
    if stmts == [] then m
    else UpsertAll(m, stmts[..|stmts| - 1])[stmts[|stmts| - 1].0 := stmts[|stmts| - 1].1]
  }

  /** The statements a batch of entries issues, in slice order. */
  function EntryStatements(batch: seq<TimeEntry>): (s: seq<(Int64, EntryRow)>)
    ensures |s| == |batch|
    ensures forall i :: 0 <= i < |batch| ==> s[i] == (batch[i].id, EntryRowOf(batch[i]))
  {
    seq(|batch|, i requires 0 <= i < |batch| => (batch[i].id, EntryRowOf(batch[i])))
  }

  /** The statements a batch of projects issues, in slice order. */
  function ProjectStatements(batch: seq<Project>): (s: seq<(Int64, ProjectRow)>)
    ensures |s| == |batch|
    ensures forall i :: 0 <= i < |batch| ==> s[i] == (batch[i].id, ProjectRowOf(batch[i]))
  {
    seq(|batch|, i requires 0 <= i < |batch| => (batch[i].id, ProjectRowOf(batch[i])))
  }

  /** The error (if any) and the table afterwards, for a batch run as one transaction. */
  function Transact<R>(m: map<Int64, R>, stmts: seq<(Int64, R)>, fault: TxFault): (Option<string>, map<Int64, R>) {
    if stmts == [] then (None, m)
    else match fault
      case NoFault => (None, UpsertAll(m, stmts))
      case BeginFails(e) => (Some(e), m)
      case PrepareFails(e) => (Some(e), m)
      case ExecFails(i, e) => if i < |stmts| then (Some(e), m) else (None, UpsertAll(m, stmts))
      case CommitFails(e) => (Some(e), m)
  }

  /** One more statement run: the table after a prefix, with the next row written. */
  lemma UpsertStep<R>(m: map<Int64, R>, stmts: seq<(Int64, R)>, i: nat)
    requires i < |stmts|
    ensures UpsertAll(m, stmts[..i + 1]) == UpsertAll(m, stmts[..i])[stmts[i].0 := stmts[i].1]
  {
    assert stmts[..i + 1][..i] == stmts[..i];
  }

  /** The in-memory stand-in for the two MySQL tables. */
  class Store {
    var entries: map<Int64, EntryRow>
    var projects: map<Int64, ProjectRow>

    /** Empty tables, as freshly migrated. */
    constructor ()
      ensures entries == map[] && projects == map[]
    {
      entries := map[];
      projects := map[];
    }

    method SyncEntries(batch: seq<TimeEntry>, fault: TxFault) returns (err: Option<string>)
      modifies this`entries
      ensures (err, entries) == Transact(old(entries), EntryStatements(batch), fault)
    {
      if |batch| == 0 {
        return None;
      }
      if fault.BeginFails? {
        return Some(fault.msg);
      }
      var snapshot := entries;
      if fault.PrepareFails? {
        return Some(fault.msg);
      }
      ghost var stmts := EntryStatements(batch);
      var i := 0;
      while i < |batch|
        invariant 0 <= i <= |batch|
        invariant entries == UpsertAll(snapshot, stmts[..i])
        invariant fault.ExecFails? ==> fault.at >= i
      {
        var e := batch[i];
        var row := EntryRowOf(e);
        if fault.ExecFails? && fault.at == i {
          entries := snapshot;  // tx.Rollback()
          return Some(fault.msg);
        }
        assert stmts[i] == (e.id, row);
        UpsertStep(snapshot, stmts, i);
        entries := entries[e.id := row];
        i := i + 1;
      }
      assert stmts[..i] == stmts;
      if fault.CommitFails? {
        entries := snapshot;  // an uncommitted transaction leaves nothing behind
        return Some(fault.msg);
      }
      return None;
    }

    method SyncProjects(batch: seq<Project>, fault: TxFault) returns (err: Option<string>)
      modifies this`projects
      ensures (err, projects) == Transact(old(projects), ProjectStatements(batch), fault)
    {
      if |batch| == 0 {
        return None;
      }
      if fault.BeginFails? {
        return Some(fault.msg);
      }
      var snapshot := projects;
      if fault.PrepareFails? {
        return Some(fault.msg);
      }
      ghost var stmts := ProjectStatements(batch);
      var i := 0;
      while i < |batch|
        invariant 0 <= i <= |batch|
        invariant projects == UpsertAll(snapshot, stmts[..i])
        invariant fault.ExecFails? ==> fault.at >= i
      {
        var p := batch[i];
        var row := ProjectRowOf(p);
        if fault.ExecFails? && fault.at == i {
          projects := snapshot;  // tx.Rollback()
          return Some(fault.msg);
        }
        assert stmts[i] == (p.id, row);
        UpsertStep(snapshot, stmts, i);
        projects := projects[p.id := row];
        i := i + 1;
      }
      assert stmts[..i] == stmts;
      if fault.CommitFails? {
        projects := snapshot;
        return Some(fault.msg);
      }
      return None;
    }
  }

  // ---------------------------------------------------------------------------
  // Upsert semantics

  /** The table holds the old keys and the batch's keys, and nothing else. */
  lemma {:induction false} UpsertAllKeys<R>(m: map<Int64, R>, stmts: seq<(Int64, R)>)
    ensures UpsertAll(m, stmts).Keys == m.Keys + Keys(stmts)
    decreases |stmts|
  {
    if stmts != [] {
      var init := stmts[..|stmts| - 1];
      UpsertAllKeys(m, init);
      assert Keys(stmts) == Keys(init) + {stmts[|stmts| - 1].0} by {
        forall k | k in Keys(stmts) ensures k in Keys(init) + {stmts[|stmts| - 1].0} {
          var i :| 0 <= i < |stmts| && stmts[i].0 == k;
          if i < |stmts| - 1 { assert init[i] == stmts[i]; }
        }
        forall k | k in Keys(init) ensures k in Keys(stmts) {
          var i :| 0 <= i < |init| && init[i].0 == k;
          assert stmts[i] == init[i];
        }
      }
    }
  }

  /** Rows whose key the batch does not mention are untouched. */
  lemma {:induction false} UpsertAllOthers<R>(m: map<Int64, R>, stmts: seq<(Int64, R)>, k: Int64)
    requires k !in Keys(stmts)
    ensures k in UpsertAll(m, stmts) <==> k in m
    ensures k in m ==> UpsertAll(m, stmts)[k] == m[k]
    decreases |stmts|
  {
    if stmts != [] {
      var init := stmts[..|stmts| - 1];
      assert k !in Keys(init) by {
        forall i | 0 <= i < |init| ensures init[i].0 != k {
          assert init[i] == stmts[i];
        }
      }
      assert stmts[|stmts| - 1].0 != k;
      UpsertAllOthers(m, init, k);
    }
  }

  /** Index of the last statement with key k. */
  ghost predicate IsLastWith<R>(stmts: seq<(Int64, R)>, k: Int64, i: int) {
    0 <= i < |stmts| && stmts[i].0 == k && forall j :: i < j < |stmts| ==> stmts[j].0 != k
  }

  /** A key the batch mentions holds the row of its last statement: later records win. */
  lemma {:induction false} UpsertAllLastWins<R>(m: map<Int64, R>, stmts: seq<(Int64, R)>, k: Int64)
    requires k in Keys(stmts)
    ensures k in UpsertAll(m, stmts)
    ensures exists i :: IsLastWith(stmts, k, i) && UpsertAll(m, stmts)[k] == stmts[i].1
    decreases |stmts|
  {
    var n := |stmts| - 1;
    var init := stmts[..n];
    if stmts[n].0 == k {
      assert IsLastWith(stmts, k, n);
    } else {
      assert k in Keys(init) by {
        var i :| 0 <= i < |stmts| && stmts[i].0 == k;
        assert i < n && init[i] == stmts[i];
      }
      UpsertAllLastWins(m, init, k);
      var i :| IsLastWith(init, k, i) && UpsertAll(m, init)[k] == init[i].1;
      assert IsLastWith(stmts, k, i);
    }
  }

  /** Re-running a batch on its own result changes nothing. */
  lemma UpsertAllIdempotent<R>(m: map<Int64, R>, stmts: seq<(Int64, R)>)
    ensures UpsertAll(UpsertAll(m, stmts), stmts) == UpsertAll(m, stmts)
  {
    var once := UpsertAll(m, stmts);
    var twice := UpsertAll(once, stmts);
    UpsertAllKeys(m, stmts);
    UpsertAllKeys(once, stmts);
    forall k | k in twice ensures twice[k] == once[k] {
      if k in Keys(stmts) {
        UpsertAllLastWins(m, stmts, k);
        UpsertAllLastWins(once, stmts, k);
        var i :| IsLastWith(stmts, k, i) && once[k] == stmts[i].1;
        var j :| IsLastWith(stmts, k, j) && twice[k] == stmts[j].1;
        assert i == j;
      } else {
        UpsertAllOthers(once, stmts, k);
      }
    }
  }

  // ---------------------------------------------------------------------------
  // Transactions

  /** An empty batch opens no transaction and leaves the table as it was, whatever the database would do. */
  lemma EmptyBatchIsNoOp<R>(m: map<Int64, R>, fault: TxFault)
    ensures Transact(m, [], fault) == (None, m)
  {
  }

  /** All or nothing: a failed batch leaves the table exactly as before; a successful one applies every statement. */
  lemma TransactAllOrNothing<R>(m: map<Int64, R>, stmts: seq<(Int64, R)>, fault: TxFault)
    ensures Transact(m, stmts, fault).0.Some? ==> Transact(m, stmts, fault).1 == m
    ensures Transact(m, stmts, fault).0.None? ==> Transact(m, stmts, fault).1 == UpsertAll(m, stmts)
    ensures Transact(m, stmts, fault).0.None? <==> (stmts == [] || fault.NoFault? || (fault.ExecFails? && fault.at >= |stmts|))
  {
  }

  /** After a successful entry batch every entry's id holds that entry's column values
      (the last one's, for an id given twice); every other row is unchanged. */
  lemma SyncedEntriesAreStored(m: map<Int64, EntryRow>, batch: seq<TimeEntry>, fault: TxFault)
    requires Transact(m, EntryStatements(batch), fault).0.None?
    ensures var m' := Transact(m, EntryStatements(batch), fault).1;
      && m'.Keys == m.Keys + (set e | e in batch :: e.id)
      && (forall i :: 0 <= i < |batch| && (forall j :: i < j < |batch| ==> batch[j].id != batch[i].id) ==>
            m'[batch[i].id] == EntryRowOf(batch[i]))
      && (forall k :: k in m && k !in (set e | e in batch :: e.id) ==> m'[k] == m[k])
  {
    var stmts := EntryStatements(batch);
    var m' := UpsertAll(m, stmts);
    assert Keys(stmts) == set e | e in batch :: e.id by {
      forall k | k in Keys(stmts) ensures k in set e | e in batch :: e.id {
        var i :| 0 <= i < |stmts| && stmts[i].0 == k;
        assert batch[i] in batch;
      }
      forall k | k in set e | e in batch :: e.id ensures k in Keys(stmts) {
        var e :| e in batch && e.id == k;
        var i :| 0 <= i < |batch| && batch[i] == e;
        assert stmts[i].0 == k;
      }
    }
    if stmts != [] {
      UpsertAllKeys(m, stmts);
    }
    forall i | 0 <= i < |batch| && (forall j :: i < j < |batch| ==> batch[j].id != batch[i].id)
      ensures m'[batch[i].id] == EntryRowOf(batch[i])
    {
      assert stmts[i].0 == batch[i].id;
      UpsertAllLastWins(m, stmts, batch[i].id);
      var l :| IsLastWith(stmts, batch[i].id, l) && m'[batch[i].id] == stmts[l].1;
      assert l == i;
    }
    forall k | k in m && k !in (set e | e in batch :: e.id) ensures m'[k] == m[k] {
      UpsertAllOthers(m, stmts, k);
    }
  }

  /** Re-applying the same entry batch after a successful one leaves the row count and every value unchanged. */
  lemma ResyncEntriesIdempotent(m: map<Int64, EntryRow>, batch: seq<TimeEntry>, f1: TxFault, f2: TxFault)
    requires Transact(m, EntryStatements(batch), f1).0.None?
    requires Transact(Transact(m, EntryStatements(batch), f1).1, EntryStatements(batch), f2).0.None?
    ensures var once := Transact(m, EntryStatements(batch), f1).1;
      Transact(once, EntryStatements(batch), f2).1 == once
  {
    UpsertAllIdempotent(m, EntryStatements(batch));
  }

  /** The same for a project batch. */
  lemma ResyncProjectsIdempotent(m: map<Int64, ProjectRow>, batch: seq<Project>, f1: TxFault, f2: TxFault)
    requires Transact(m, ProjectStatements(batch), f1).0.None?
    requires Transact(Transact(m, ProjectStatements(batch), f1).1, ProjectStatements(batch), f2).0.None?
    ensures var once := Transact(m, ProjectStatements(batch), f1).1;
      Transact(once, ProjectStatements(batch), f2).1 == once
  {
    UpsertAllIdempotent(m, ProjectStatements(batch));
  }

  /** Re-observing an entry with an edited field overwrites the stored row: one row, the latest values. */
  lemma ReobservationOverwrites(m: map<Int64, EntryRow>, a: TimeEntry, b: TimeEntry)
    requires a.id == b.id
    ensures var m1 := Transact(m, EntryStatements([a]), NoFault).1;
      var m2 := Transact(m1, EntryStatements([b]), NoFault).1;
      m2.Keys == m.Keys + {a.id} && m2[a.id] == EntryRowOf(b)
  {
    var sa, sb := EntryStatements([a]), EntryStatements([b]);
    assert sa == [(a.id, EntryRowOf(a))] && sa[..0] == [];
    assert sb == [(b.id, EntryRowOf(b))] && sb[..0] == [];
    var m1 := UpsertAll(m, sa);
    assert UpsertAll(m, sa[..0]) == m;
    assert m1 == UpsertAll(m, sa[..0])[sa[0].0 := sa[0].1];
    assert UpsertAll(m1, sb[..0]) == m1;
    assert UpsertAll(m1, sb) == m1[b.id := EntryRowOf(b)];
  }
}
