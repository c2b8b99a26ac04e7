/** `migrate.Run`: applies the bundled schema scripts in file-name order, skipping
    the versions already in the `schema_migrations` ledger and recording each
    version right after its script succeeds. SQL execution, file reading and
    inserts are abstracted into the `DbOracle`, whose answers may be failures. */
module Migrate {
  import opened Wrappers
  import opened Civil
  import opened Domain
  import Decimal
  import Boundary
  import Quoting

  // ---------------------------------------------------------------------------
  // File names

  /** `strings.IndexByte(s, c)`: the first index of c, or -1. */
  function IndexByte(s: string, c: char): (r: int)
    ensures -1 <= r < |s|
    ensures r == -1 <==> c !in s
    ensures r >= 0 ==> s[r] == c && c !in s[..r]
    decreases |s|
  {
    if s == [] then -1
    else if s[0] == c then 0
    else
      var r := IndexByte(s[1..], c);
      assert s[1..][..if r < 0 then 0 else r] == s[1..1 + (if r < 0 then 0 else r)];
      if r < 0 then -1 else r + 1
  }

  const MissingPrefixError: string := "missing prefix number"

  /** `parseVersion`: the number before the first underscore, as `strconv.Atoi` reads it. */
  function ParseVersion(name: string): (r: Result<Int64>)
    ensures '_' !in name ==> r == Err(MissingPrefixError)
    ensures name != [] && name[0] == '_' ==> r == Err(MissingPrefixError)
    ensures '_' in name && name[0] != '_' ==>
      var i := IndexByte(name, '_');
      0 < i && '_' !in name[..i] && r == Decimal.Atoi(name[..i])
  {
    var i := IndexByte(name, '_');
    if i <= 0 then Err(MissingPrefixError)
    else Decimal.Atoi(name[..i])
  }

  lemma {:induction false} IndexByteAt(s: string, c: char, i: int)
    requires 0 <= i < |s| && s[i] == c && c !in s[..i]
    ensures IndexByte(s, c) == i
  {
    var r := IndexByte(s, c);
    forall k | 0 <= k < i ensures s[k] != c {
      assert s[..i][k] == s[k];
    }
    assert r >= 0;
    forall k | 0 <= k < r ensures s[k] != c {
      assert s[..r][k] == s[k];
    }
  }

  /** A name with a digit-only prefix before its first underscore has that number as its version. */
  lemma VersionOfPrefix(name: string, i: int)
    requires 0 < i < |name| && name[i] == '_' && '_' !in name[..i]
    requires Decimal.AllDigits(name[..i]) && Decimal.DigitsValue(name[..i]) <= MaxInt64
    ensures ParseVersion(name) == Ok(Decimal.DigitsValue(name[..i]))
  {
    IndexByteAt(name, '_', i);
    Decimal.AtoiOfDigits(name[..i]);
  }

  /** A zero-padded four-digit prefix `000d` is worth its last digit. */
  lemma PaddedDigit(d: char)
    requires Boundary.IsDigit(d)
    ensures Decimal.AllDigits("000" + [d]) && Decimal.DigitsValue("000" + [d]) == Boundary.DigitValue(d)
  {
    var s := "000" + [d];
    assert s[..3] == "000" && "000"[..2] == "00" && "00"[..1] == "0" && "0"[..0] == "";
  }

  /** A name that starts `000d_` is version d. */
  lemma PaddedVersion(name: string, d: char)
    requires 4 < |name| && name[..4] == "000" + [d] && name[4] == '_' && Boundary.IsDigit(d)
    ensures ParseVersion(name) == Ok(Boundary.DigitValue(d))
  {
    PaddedDigit(d);
    VersionOfPrefix(name, 4);
  }

  /** A name whose text before the first underscore is not a number is rejected. */
  lemma NonNumericVersion(name: string, i: int)
    requires 0 < i < |name| && name[i] == '_' && '_' !in name[..i] && !Decimal.DecimalShaped(name[..i])
    ensures ParseVersion(name).Err?
  {
    IndexByteAt(name, '_', i);
    Decimal.ParseInt64Spec(name[..i]);
  }

  /** `0001_init.sql` is version 1. */
  lemma ParseVersionInit()
    ensures ParseVersion("0001_init.sql") == Ok(1)
  {
    var name := "0001_init.sql";
    assert name[..4] == "000" + ['1'];
    PaddedVersion(name, '1');
  }

  lemma ParseVersionProjects()
    ensures ParseVersion("0002_projects.sql") == Ok(2)
  {
    var name := "0002_projects.sql";
    assert name[..4] == "000" + ['2'];
    PaddedVersion(name, '2');
  }

  /** A non-numeric prefix is an error. */
  lemma ParseVersionNonNumeric()
    ensures ParseVersion("v1_init.sql").Err?
  {
    var name := "v1_init.sql";
    assert name[..2] == "v1";
    NonNumericVersion(name, 2);
  }

  // ---------------------------------------------------------------------------
  // sort.Strings

  /** Go's string order `a <= b`: byte-wise lexicographic (code-point order on characters). */
  predicate LexLe(a: string, b: string)
    decreases |a|
  {
    a == [] || (b != [] && (a[0] < b[0] || (a[0] == b[0] && LexLe(a[1..], b[1..]))))
  }

  lemma {:induction false} LexLeTotal(a: string, b: string)
    ensures LexLe(a, b) || LexLe(b, a)
    decreases |a|
  {
    if a != [] && b != [] && a[0] == b[0] {
      LexLeTotal(a[1..], b[1..]);
    }
  }

  lemma {:induction false} LexLeTransitive(a: string, b: string, c: string)
    requires LexLe(a, b) && LexLe(b, c)
    ensures LexLe(a, c)
    decreases |a|
  {
    if a != [] && a[0] == b[0] && b[0] == c[0] {
      LexLeTransitive(a[1..], b[1..], c[1..]);
    }
  }

  ghost predicate Sorted(s: seq<string>) {
    forall i, j :: 0 <= i < j < |s| ==> LexLe(s[i], s[j])
  }

  /** An element no greater than the head of a sorted list can go in front of it. */
  lemma InsertFront(x: string, s: seq<string>)
    requires s != [] && LexLe(x, s[0]) && Sorted(s)
    ensures Sorted([x] + s)
  {
    forall j | 0 < j < |[x] + s| ensures LexLe(x, ([x] + s)[j]) {
      if j > 1 { LexLeTransitive(x, s[0], s[j - 1]); }
    }
  }

  /** The head of a sorted list, greater than x, can go in front of the tail with x inserted. */
  lemma InsertBehind(x: string, s: seq<string>, rest: seq<string>)
    requires s != [] && !LexLe(x, s[0]) && Sorted(s)
    requires multiset(rest) == multiset(s[1..]) + multiset{x} && Sorted(rest)
    ensures Sorted([s[0]] + rest)
  {
    LexLeTotal(x, s[0]);
    forall y | y in rest ensures LexLe(s[0], y) {
      assert y in multiset(rest);
      if y != x {
        assert y in multiset(s[1..]);
        var k :| 0 <= k < |s[1..]| && s[1..][k] == y;
        assert s[k + 1] == y;
      }
    }
    forall i, j | 0 <= i < j < |[s[0]] + rest| ensures LexLe(([s[0]] + rest)[i], ([s[0]] + rest)[j]) {
      if i == 0 { assert ([s[0]] + rest)[j] in rest; }
    }
  }

  function Insert(x: string, s: seq<string>): (r: seq<string>)
    ensures multiset(r) == multiset(s) + multiset{x}
    ensures Sorted(s) ==> Sorted(r)
    decreases |s|
  {
    if s == [] then [x]
    else if LexLe(x, s[0]) then
      assert Sorted(s) ==> Sorted([x] + s) by {
        if Sorted(s) { InsertFront(x, s); }
      }
      [x] + s
    else
      var rest := Insert(x, s[1..]);
      assert s == [s[0]] + s[1..];
      assert Sorted(s) ==> Sorted([s[0]] + rest) by {
        if Sorted(s) { InsertBehind(x, s, rest); }
      }
      [s[0]] + rest
  }

  /** `sort.Strings`: the names in ascending string order. */
  function SortStrings(s: seq<string>): (r: seq<string>)
    ensures multiset(r) == multiset(s)
    ensures Sorted(r)
    decreases |s|
  {
    if s == [] then [] else
      assert s == [s[0]] + s[1..];
      Insert(s[0], SortStrings(s[1..]))
  }

  /** Ordering is by name, not by number: "10_..." runs before "9_...". */
  lemma LexicographicNotNumeric()
    ensures SortStrings(["9_b.sql", "10_a.sql"]) == ["10_a.sql", "9_b.sql"]
  {
    assert LexLe("10_a.sql", "9_b.sql");
    assert !LexLe("9_b.sql", "10_a.sql");
    assert SortStrings(["10_a.sql"]) == ["10_a.sql"];
  }

  // ---------------------------------------------------------------------------
  // The ledger and the database

  datatype LedgerRow = LedgerRow(version: Int64, appliedAt: Instant)

  function Versions(rows: seq<LedgerRow>): set<int> {
    set i | 0 <= i < |rows| :: rows[i].version as int
  }

  /** The answers of the abstracted database and file system. `insert` is the failure,
      if any, of a ledger insert that does not collide with an existing version. */
  datatype DbOracle = DbOracle(
    ensureTable: Option<string>,
    query: Option<string>,
    readFile: string -> Result<string>,
    exec: string -> Option<string>,
    insert: Int64 -> Option<string>,
    duplicate: Int64 -> string)

  /** The error, if any, of `recordApplied`: the ledger's primary key is the version, and a
      collision is reported with the database's own message for that version. */
  function InsertError(rows: seq<LedgerRow>, v: Int64, db: DbOracle): Option<string> {
    if v as int in Versions(rows) then Some(db.duplicate(v)) else db.insert(v)
  }

  /** What a run over some files produced: its error, the scripts it executed, and the ledger after it. */
  datatype Outcome = Outcome(err: Option<string>, executed: seq<string>, rows: seq<LedgerRow>)

  function Prepend(done: seq<string>, o: Outcome): Outcome {
    Outcome(o.err, done + o.executed, o.rows)
  }

  /** What the loop does with one file: skip it, stop with an error (after running its
      script, when `ran`), or run its script and record version v. */
  datatype Step = Skip | Stop(err: string, ran: bool) | Recorded(v: Int64)

  /** The error `Run` returns for a name `parseVersion` rejects; `%q` quotes the name. */
  function InvalidNameError(f: string, e: string): string {
    "invalid migration filename " + Quoting.Quote(f) + ": " + e
  }

  /** The file `f` has a new version, its script can be read, and executing it succeeds. */
  predicate ScriptRuns(f: string, applied: set<int>, db: DbOracle) {
    && ParseVersion(f).Ok? && ParseVersion(f).value as int !in applied
    && db.readFile(f).Ok? && db.exec(db.readFile(f).value).None?
  }

  function StepOf(f: string, applied: set<int>, rows: seq<LedgerRow>, db: DbOracle): (r: Step)
    ensures r.Skip? <==> ParseVersion(f).Ok? && ParseVersion(f).value as int in applied
    ensures r.Recorded? ==> ParseVersion(f) == Ok(r.v) && r.v as int !in applied && InsertError(rows, r.v, db).None?
    ensures r.Stop? && r.ran ==> ParseVersion(f).Ok? && ParseVersion(f).value as int !in applied
  {
    match ParseVersion(f)
    case Err(e) => Stop(InvalidNameError(f, e), false)
    case Ok(v) =>
      if v as int in applied then Skip
      else match db.readFile(f)
        case Err(e) => Stop(e, false)
        case Ok(script) =>
          match db.exec(script)
          case Some(e) => Stop("applying " + f + ": " + e, false)
          case None =>
            match InsertError(rows, v, db)
            case Some(e) => Stop(e, true)
            case None => Recorded(v)
  }

  /** Each way a step can end, and exactly when. */
  lemma StepOfOutcomes(f: string, applied: set<int>, rows: seq<LedgerRow>, db: DbOracle)
    ensures var r := StepOf(f, applied, rows, db);
      // a name without a version prefix stops the run before anything is read
      && (ParseVersion(f).Err? ==> r == Stop(InvalidNameError(f, ParseVersion(f).msg), false))
      // the script ran: recorded when the ledger insert succeeds, otherwise stopped with the insert's error
      && (r.Recorded? <==> ScriptRuns(f, applied, db) && InsertError(rows, ParseVersion(f).value, db).None?)
      && (r.Recorded? ==> r.v == ParseVersion(f).value)
      && (r.Stop? && r.ran <==> ScriptRuns(f, applied, db) && InsertError(rows, ParseVersion(f).value, db).Some?)
      && (r.Stop? && r.ran ==> r.err == InsertError(rows, ParseVersion(f).value, db).value)
      // a bad name, or a new file whose read or exec fails, stops the run with nothing executed
      && (r.Stop? && !r.ran <==>
            || ParseVersion(f).Err?
            || (ParseVersion(f).value as int !in applied && (db.readFile(f).Err? || db.exec(db.readFile(f).value).Some?)))
  {
  }

  /** The loop over `files`, with `applied` the versions loaded before it started. */
  function Apply(files: seq<string>, applied: set<int>, rows: seq<LedgerRow>, db: DbOracle, now: Instant): Outcome
    decreases |files|
  {
    if files == [] then Outcome(None, [], rows)
    else match StepOf(files[0], applied, rows, db)
      case Skip => Apply(files[1..], applied, rows, db, now)
      case Stop(e, ran) => Outcome(Some(e), if ran then [files[0]] else [], rows)
      case Recorded(v) => Prepend([files[0]], Apply(files[1..], applied, rows + [LedgerRow(v, now)], db, now))
  }

  /** One turn of the loop: what the run over `files` is, given how its first file's step ends. */
  lemma ApplyStep(files: seq<string>, applied: set<int>, rows: seq<LedgerRow>, db: DbOracle, now: Instant, step: Step)
    requires files != [] && step == StepOf(files[0], applied, rows, db)
    ensures step.Skip? ==> Apply(files, applied, rows, db, now) == Apply(files[1..], applied, rows, db, now)
    ensures step.Stop? ==> Apply(files, applied, rows, db, now) == Outcome(Some(step.err), if step.ran then [files[0]] else [], rows)
    ensures step.Recorded? ==>
      Apply(files, applied, rows, db, now) == Prepend([files[0]], Apply(files[1..], applied, rows + [LedgerRow(step.v, now)], db, now))
  {
  }

  lemma ConcatAssoc(a: seq<string>, b: seq<string>, c: seq<string>)
    ensures a + (b + c) == (a + b) + c
  {
  }

  /** The whole of `migrate.Run` after the connection is up. */
  function Migration(files: seq<string>, rows: seq<LedgerRow>, db: DbOracle, now: Instant): Outcome {
    if db.ensureTable.Some? then Outcome(db.ensureTable, [], rows)
    else if db.query.Some? then Outcome(db.query, [], rows)
    else Apply(SortStrings(files), Versions(rows), rows, db, now)
  }

  /** The migration state of the database. `executed` lists, in order, the files
      whose scripts have been run against the schema. */
  class Ledger {
    var tableExists: bool
    var rows: seq<LedgerRow>
    var executed: seq<string>

    constructor (tableExists: bool, rows: seq<LedgerRow>)
      ensures this.tableExists == tableExists && this.rows == rows && executed == []
    {
      this.tableExists := tableExists;
      this.rows := rows;
      executed := [];
    }

    /** `ensureMigrationsTable`: CREATE TABLE IF NOT EXISTS. */
    method EnsureMigrationsTable(db: DbOracle) returns (err: Option<string>)
      modifies this`tableExists
      ensures err == db.ensureTable
      ensures tableExists == (old(tableExists) || err.None?)
    {
      err := db.ensureTable;
      if err.None? {
        tableExists := true;
      }
    }

    /** `loadApplied`: reads every ledger row into the set of applied versions. */
    method LoadApplied(db: DbOracle) returns (applied: set<int>, err: Option<string>)
      ensures err == db.query
      ensures err.None? ==> applied == Versions(rows)
    {
      if db.query.Some? {
        return {}, db.query;
      }
      applied := {};
      var i := 0;
      while i < |rows|
        invariant 0 <= i <= |rows|
        invariant applied == Versions(rows[..i])
      {
        assert Versions(rows[..i + 1]) == Versions(rows[..i]) + {rows[i].version as int} by {
          assert forall k :: 0 <= k < i ==> rows[..i + 1][k] == rows[..i][k];
        }
        applied := applied + {rows[i].version as int};
        i := i + 1;
      }
      assert rows[..i] == rows;
      return applied, None;
    }

    /** `recordApplied`: inserts one ledger row. */
    method RecordApplied(v: Int64, now: Instant, db: DbOracle) returns (err: Option<string>)
      modifies this`rows
      ensures err == InsertError(old(rows), v, db)
      ensures rows == if err.None? then old(rows) + [LedgerRow(v, now)] else old(rows)
    {
      err := InsertError(rows, v, db);
      if err.None? {
        rows := rows + [LedgerRow(v, now)];
      }
    }

    /** One turn of the loop of `migrate.Run`: parse the name, skip an applied version,
        read and execute the script, and record its version. */
    method RunFile(f: string, applied: set<int>, db: DbOracle, now: Instant) returns (step: Step)
      modifies this`rows, this`executed
      ensures step == StepOf(f, applied, old(rows), db)
      ensures executed == old(executed) + (if step.Recorded? || (step.Stop? && step.ran) then [f] else [])
      ensures rows == if step.Recorded? then old(rows) + [LedgerRow(step.v, now)] else old(rows)
    {
      var ver := ParseVersion(f);
      if ver.Err? {
        return Stop(InvalidNameError(f, ver.msg), false);
      }
      if ver.value as int in applied {
        return Skip;
      }
      var b := db.readFile(f);
      if b.Err? {
        return Stop(b.msg, false);
      }
      var e := db.exec(b.value);
      if e.Some? {
        return Stop("applying " + f + ": " + e.value, false);
      }
      executed := executed + [f];
      var err := RecordApplied(ver.value, now, db);
      if err.Some? {
        return Stop(err.value, true);
      }
      return Recorded(ver.value);
    }

    /** The loop of `migrate.Run` over the sorted names, with `applied` loaded before it. */
    method ApplyPending(sorted: seq<string>, applied: set<int>, db: DbOracle, now: Instant) returns (err: Option<string>)
      modifies this`rows, this`executed
      ensures var o := Apply(sorted, applied, old(rows), db, now);
        err == o.err && executed == old(executed) + o.executed && rows == o.rows
    {
      ghost var done: seq<string> := [];
      var i := 0;
      assert sorted[0..] == sorted && [] + Apply(sorted, applied, rows, db, now).executed == Apply(sorted, applied, rows, db, now).executed;
      while i < |sorted|
        invariant 0 <= i <= |sorted|
        invariant Apply(sorted, applied, old(rows), db, now) == Prepend(done, Apply(sorted[i..], applied, rows, db, now))
        invariant executed == old(executed) + done
      {
        var f := sorted[i];
        ghost var rest := sorted[i..];
        assert rest[0] == f && rest[1..] == sorted[i + 1..];
        ghost var before, ran := rows, executed;
        var step := RunFile(f, applied, db, now);
        ApplyStep(rest, applied, before, db, now, step);
        if step.Stop? {
          ghost var tail: seq<string> := if step.ran then [f] else [];
          assert executed == ran + tail;
          ConcatAssoc(old(executed), done, tail);
          return Some(step.err);
        }
        if step.Recorded? {
          ConcatAssoc(old(executed), done, [f]);
          ConcatAssoc(done, [f], Apply(sorted[i + 1..], applied, rows, db, now).executed);
          done := done + [f];
        }
        i := i + 1;
      }
      return None;
    }

    method Run(files: seq<string>, db: DbOracle, now: Instant) returns (err: Option<string>)
      modifies this
      ensures var o := Migration(files, old(rows), db, now);
        err == o.err && executed == old(executed) + o.executed && rows == o.rows
      ensures tableExists == (old(tableExists) || db.ensureTable.None?)
    {
      err := EnsureMigrationsTable(db);
      if err.Some? {
        return;
      }
      var sorted := SortStrings(files);
      var applied;
      applied, err := LoadApplied(db);
      if err.Some? {
        return;
      }
      err := ApplyPending(sorted, applied, db, now);
    }
  }

  // ---------------------------------------------------------------------------
  // Properties of a run

  /** Running A then B is running A, and then, only if A succeeded, B on the ledger A left. */
  lemma {:induction false} ApplyConcat(a: seq<string>, b: seq<string>, applied: set<int>, rows: seq<LedgerRow>, db: DbOracle, now: Instant)
    ensures var oa := Apply(a, applied, rows, db, now);
      Apply(a + b, applied, rows, db, now) ==
        if oa.err.Some? then oa else Prepend(oa.executed, Apply(b, applied, oa.rows, db, now))
    decreases |a|
  {
    if a == [] {
      assert a + b == b;
    } else {
      assert (a + b)[0] == a[0] && (a + b)[1..] == a[1..] + b;
      match StepOf(a[0], applied, rows, db)
      case Skip =>
        ApplyConcat(a[1..], b, applied, rows, db, now);
      case Stop(_, _) =>
      case Recorded(v) =>
        ApplyConcat(a[1..], b, applied, rows + [LedgerRow(v, now)], db, now);
        var o1 := Apply(a[1..], applied, rows + [LedgerRow(v, now)], db, now);
        if o1.err.None? {
          assert [a[0]] + (o1.executed + Apply(b, applied, o1.rows, db, now).executed)
              == ([a[0]] + o1.executed) + Apply(b, applied, o1.rows, db, now).executed;
        }
    }
  }

  /** The first failure ends the run: files after it are neither executed nor recorded. */
  lemma FailureStopsRun(a: seq<string>, b: seq<string>, applied: set<int>, rows: seq<LedgerRow>, db: DbOracle, now: Instant)
    requires Apply(a, applied, rows, db, now).err.Some?
    ensures Apply(a + b, applied, rows, db, now) == Apply(a, applied, rows, db, now)
  {
    ApplyConcat(a, b, applied, rows, db, now);
  }

  function VersionOf(name: string): int {
    match ParseVersion(name)
    case Ok(v) => v
    case Err(_) => 0
  }

  /** The ledger is only appended to: one row per executed script, recorded in execution order,
      except that the last executed script lacks its row when recording it failed. */
  lemma {:induction false} RecordsFollowExecutions(files: seq<string>, applied: set<int>, rows: seq<LedgerRow>, db: DbOracle, now: Instant)
    ensures var o := Apply(files, applied, rows, db, now);
      && |rows| <= |o.rows|
      && o.rows[..|rows|] == rows
      && (|o.rows| - |rows| == |o.executed| || (o.err.Some? && |o.rows| - |rows| == |o.executed| - 1))
      && (forall i :: |rows| <= i < |o.rows| ==>
            i - |rows| < |o.executed| && o.rows[i] == LedgerRow(o.rows[i].version, now)
            && o.rows[i].version as int == VersionOf(o.executed[i - |rows|]))
      && (forall f :: f in o.executed ==> f in files && ParseVersion(f).Ok? && ParseVersion(f).value as int !in applied)
    decreases |files|
  {
    if files != [] {
      var f := files[0];
      match StepOf(f, applied, rows, db)
      case Skip =>
        RecordsFollowExecutions(files[1..], applied, rows, db, now);
        assert forall g :: g in files[1..] ==> g in files;
      case Stop(_, _) =>
      case Recorded(v) =>
        var rows' := rows + [LedgerRow(v, now)];
        RecordsFollowExecutions(files[1..], applied, rows', db, now);
        var o1 := Apply(files[1..], applied, rows', db, now);
        assert o1.rows[..|rows'|] == rows';
        assert o1.rows[..|rows|] == rows' [..|rows|] == rows;
        forall i | |rows| <= i < |o1.rows|
          ensures i - |rows| < |[f] + o1.executed|
          ensures o1.rows[i].version as int == VersionOf(([f] + o1.executed)[i - |rows|])
        {
          if i == |rows| {
            assert o1.rows[i] == rows'[i];
          }
        }
        assert forall g :: g in files[1..] ==> g in files;
    }
  }

  /** After a successful loop, every file's version is applied or in the ledger. */
  lemma {:induction false} SuccessCoversEveryFile(files: seq<string>, applied: set<int>, rows: seq<LedgerRow>, db: DbOracle, now: Instant)
    requires Apply(files, applied, rows, db, now).err.None?
    ensures forall f :: f in files ==> (ParseVersion(f).Ok?
      && ParseVersion(f).value as int in applied + Versions(Apply(files, applied, rows, db, now).rows))
    decreases |files|
  {
    if files != [] {
      var f := files[0];
      var step := StepOf(f, applied, rows, db);
      if step.Skip? {
        SuccessCoversEveryFile(files[1..], applied, rows, db, now);
        RecordsFollowExecutions(files[1..], applied, rows, db, now);
      } else {
        var v := step.v;
        var rows' := rows + [LedgerRow(v, now)];
        SuccessCoversEveryFile(files[1..], applied, rows', db, now);
        RecordsFollowExecutions(files[1..], applied, rows', db, now);
        var o := Apply(files[1..], applied, rows', db, now);
        assert o.rows[..|rows'|] == rows';
        assert o.rows[|rows|] == rows'[|rows|];
        assert v as int in Versions(o.rows);
      }
      assert forall g :: g in files ==> g == f || g in files[1..];
    }
  }

  /** A loop in which every file's version is already applied executes nothing and records nothing. */
  lemma {:induction false} AllAppliedIsNoOp(files: seq<string>, applied: set<int>, rows: seq<LedgerRow>, db: DbOracle, now: Instant)
    requires forall f :: f in files ==> ParseVersion(f).Ok? && ParseVersion(f).value as int in applied
    ensures Apply(files, applied, rows, db, now) == Outcome(None, [], rows)
    decreases |files|
  {
    if files != [] {
      assert files[0] in files;
      assert forall f :: f in files[1..] ==> f in files;
      AllAppliedIsNoOp(files[1..], applied, rows, db, now);
    }
  }

  /** Once a migration has succeeded, the next one executes nothing and leaves the ledger as it is. */
  lemma SecondRunExecutesNothing(files: seq<string>, rows: seq<LedgerRow>, db: DbOracle, db2: DbOracle, now: Instant, later: Instant)
    requires Migration(files, rows, db, now).err.None?
    requires db2.ensureTable.None? && db2.query.None?
    ensures var o := Migration(files, rows, db, now);
      Migration(files, o.rows, db2, later) == Outcome(None, [], o.rows)
  {
    var sorted := SortStrings(files);
    var o := Apply(sorted, Versions(rows), rows, db, now);
    SuccessCoversEveryFile(sorted, Versions(rows), rows, db, now);
    RecordsFollowExecutions(sorted, Versions(rows), rows, db, now);
    assert Versions(rows) <= Versions(o.rows) by {
      forall x | x in Versions(rows) ensures x in Versions(o.rows) {
        var i :| 0 <= i < |rows| && rows[i].version as int == x;
        assert o.rows[..|rows|][i] == rows[i];
      }
    }
    assert forall f :: f in sorted <==> f in files by {
      forall f ensures f in sorted <==> f in files {
        assert f in sorted <==> f in multiset(sorted);
        assert f in files <==> f in multiset(files);
      }
    }
    AllAppliedIsNoOp(sorted, Versions(o.rows), o.rows, db2, later);
  }

  /** A database on which every call succeeds; each file holds a one-line script. */
  const AllSucceed: DbOracle :=
    DbOracle(None, None, (f: string) => Ok("-- " + f), (s: string) => None, (v: Int64) => None, DuplicateEntry)

  /** MySQL's message, as the Go driver reports it, for a second row with version v. */
  function DuplicateEntry(v: Int64): string {
    "Error 1062 (23000): Duplicate entry '" + Decimal.FormatInt64(v) + "' for key 'schema_migrations.PRIMARY'"
  }

  lemma SingleLedger()
    ensures Versions([LedgerRow(1, 0)]) == {1}
  {
    assert [LedgerRow(1, 0)][0].version == 1;
  }

  /** On the all-succeeding database, a new, unrecorded version is run and recorded. */
  lemma StepOnAllSucceed(f: string, v: Int64, applied: set<int>, rows: seq<LedgerRow>)
    requires ParseVersion(f) == Ok(v) && v as int !in applied && v as int !in Versions(rows)
    ensures StepOf(f, applied, rows, AllSucceed) == Recorded(v)
  {
  }

  /** A single file whose step records version v. */
  lemma ApplyOneRecorded(f: string, v: Int64, applied: set<int>, rows: seq<LedgerRow>, db: DbOracle, now: Instant)
    requires StepOf(f, applied, rows, db) == Recorded(v)
    ensures Apply([f], applied, rows, db, now) == Outcome(None, [f], rows + [LedgerRow(v, now)])
  {
    assert [f][1..] == [];
  }

  lemma StepProjects()
    ensures StepOf("0002_projects.sql", {1}, [LedgerRow(1, 0)], AllSucceed) == Recorded(2)
  {
    ParseVersionProjects();
    SingleLedger();
    StepOnAllSucceed("0002_projects.sql", 2, {1}, [LedgerRow(1, 0)]);
  }

  lemma ApplyAfterFirst(f: string, now: Instant)
    requires StepOf(f, {1}, [LedgerRow(1, 0)], AllSucceed) == Recorded(2)
    ensures Apply([f], {1}, [LedgerRow(1, 0)], AllSucceed, now)
      == Outcome(None, [f], [LedgerRow(1, 0), LedgerRow(2, now)])
  {
    ApplyOneRecorded(f, 2, {1}, [LedgerRow(1, 0)], AllSucceed, now);
    assert [LedgerRow(1, 0)] + [LedgerRow(2, now)] == [LedgerRow(1, 0), LedgerRow(2, now)];
  }

  lemma ApplyProjectsOnly(now: Instant)
    ensures Apply(["0002_projects.sql"], {1}, [LedgerRow(1, 0)], AllSucceed, now)
      == Outcome(None, ["0002_projects.sql"], [LedgerRow(1, 0), LedgerRow(2, now)])
  {
    StepProjects();
    ApplyAfterFirst("0002_projects.sql", now);
  }

  lemma SortInitProjects()
    ensures SortStrings(["0001_init.sql", "0002_projects.sql"]) == ["0001_init.sql", "0002_projects.sql"]
  {
    var files := ["0001_init.sql", "0002_projects.sql"];
    assert LexLe(files[0], files[1]);
    assert SortStrings(files[1..]) == [files[1]];
  }

  lemma StepInitSkipped()
    ensures StepOf("0001_init.sql", {1}, [LedgerRow(1, 0)], AllSucceed) == Skip
  {
    ParseVersionInit();
  }

  /** A migration over two sorted files, the first already recorded and the second new. */
  lemma SkipThenRecord(files: seq<string>, now: Instant)
    requires |files| == 2
    requires StepOf(files[0], {1}, [LedgerRow(1, 0)], AllSucceed) == Skip
    requires StepOf(files[1], {1}, [LedgerRow(1, 0)], AllSucceed) == Recorded(2)
    ensures Apply(files, {1}, [LedgerRow(1, 0)], AllSucceed, now)
      == Outcome(None, [files[1]], [LedgerRow(1, 0), LedgerRow(2, now)])
  {
    assert files[1..] == [files[1]];
    ApplyAfterFirst(files[1], now);
    assert Apply(files, {1}, [LedgerRow(1, 0)], AllSucceed, now)
        == Apply(files[1..], {1}, [LedgerRow(1, 0)], AllSucceed, now);
  }

  /** Scripts 1 and 2 with version 1 already recorded: only script 2 runs and is recorded,
      and a second migration then does nothing. */
  lemma SkipsRecordedVersion(now: Instant, later: Instant)
    ensures var o := Migration(["0001_init.sql", "0002_projects.sql"], [LedgerRow(1, 0)], AllSucceed, now);
      && o == Outcome(None, ["0002_projects.sql"], [LedgerRow(1, 0), LedgerRow(2, now)])
      && Migration(["0001_init.sql", "0002_projects.sql"], o.rows, AllSucceed, later) == Outcome(None, [], o.rows)
  {
    SortInitProjects();
    StepInitSkipped();
    StepProjects();
    SkipThenRecord(["0001_init.sql", "0002_projects.sql"], now);
    SingleLedger();
    SecondRunExecutesNothing(["0001_init.sql", "0002_projects.sql"], [LedgerRow(1, 0)], AllSucceed, AllSucceed, now, later);
  }

  lemma StepFirstOfDuplicate()
    ensures StepOf("0001_a.sql", {}, [], AllSucceed) == Recorded(1)
  {
    var name := "0001_a.sql";
    assert name[..4] == "000" + ['1'];
    PaddedVersion(name, '1');
    StepOnAllSucceed(name, 1, {}, []);
  }

  lemma StepSecondOfDuplicate(now: Instant)
    ensures StepOf("0001_b.sql", {}, [LedgerRow(1, now)], AllSucceed) == Stop(DuplicateEntry(1), true)
  {
    var name := "0001_b.sql";
    assert name[..4] == "000" + ['1'];
    PaddedVersion(name, '1');
    assert [LedgerRow(1, now)][0].version == 1;
    assert 1 in Versions([LedgerRow(1, now)]);
  }

  /** Two files of which the first records version 1 and the second then collides with it. */
  lemma RecordThenCollide(a: string, b: string, now: Instant)
    requires StepOf(a, {}, [], AllSucceed) == Recorded(1)
    requires StepOf(b, {}, [LedgerRow(1, now)], AllSucceed) == Stop(DuplicateEntry(1), true)
    ensures Apply([a, b], {}, [], AllSucceed, now)
      == Outcome(Some(DuplicateEntry(1)), [a, b], [LedgerRow(1, now)])
  {
    assert [a, b][1..] == [b];
    assert [b][1..] == [];
    assert [] + [LedgerRow(1, now)] == [LedgerRow(1, now)];
    assert [a] + [b] == [a, b];
  }

  /** Two files with the same version: the applied set is not updated inside the loop, so the
      second script is executed too, and recording its version then fails on the primary key. */
  lemma DuplicateVersionRunsTwice(now: Instant)
    ensures Apply(["0001_a.sql", "0001_b.sql"], {}, [], AllSucceed, now)
      == Outcome(Some(DuplicateEntry(1)), ["0001_a.sql", "0001_b.sql"], [LedgerRow(1, now)])
  {
    StepFirstOfDuplicate();
    StepSecondOfDuplicate(now);
    RecordThenCollide("0001_a.sql", "0001_b.sql", now);
  }

  /** No script runs and the ledger is untouched unless the ledger table could be ensured first. */
  lemma EnsureComesFirst(files: seq<string>, rows: seq<LedgerRow>, db: DbOracle, now: Instant)
    requires db.ensureTable.Some? || db.query.Some?
    ensures Migration(files, rows, db, now).executed == []
    ensures Migration(files, rows, db, now).rows == rows
    ensures Migration(files, rows, db, now).err.Some?
  {
  }
}
