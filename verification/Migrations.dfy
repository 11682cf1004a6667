/** The versioned migration runner, over a database whose DDL is never rolled back. */
module Migrations {
  import opened Common
  import Sorting

  // ---------------------------------------------------------------- schemas and statements

  /**
   * Tables by name, each with its columns and their definitions. A key or constraint is a
   * named part of its table too, and counts as a column here.
   */
  type Schema = map<string, map<string, string>>

  datatype Statement =
    | CreateTableIfNotExists(table: string, columns: map<string, string>)
    | AddColumn(table: string, column: string, definition: string)
    | ModifyColumn(table: string, column: string, definition: string)
    | DropColumn(table: string, column: string)
    | DropTableIfExists(table: string)

  type Script = seq<Statement>

  predicate HasColumn(schema: Schema, table: string, column: string) {
    table in schema && column in schema[table]
  }

  /** One statement: the new schema, or nothing when MySQL rejects it. */
  function Execute(s: Statement, schema: Schema): Option<Schema> {
    match s
    case CreateTableIfNotExists(t, cs) =>
      Some(if t in schema then schema else schema[t := cs])
    case AddColumn(t, c, d) =>
      if t in schema && c !in schema[t] then Some(schema[t := schema[t][c := d]]) else None
    case ModifyColumn(t, c, d) =>
      if HasColumn(schema, t, c) then Some(schema[t := schema[t][c := d]]) else None
    case DropColumn(t, c) =>
      if HasColumn(schema, t, c) then Some(schema[t := schema[t] - {c}]) else None
    case DropTableIfExists(t) =>
      Some(schema - {t})
  }

  datatype Execution = Execution(schema: Schema, ok: bool)

  /** A script runs up to its first rejected statement; what ran before it stays. */
  function ExecuteScript(script: Script, schema: Schema): Execution {
    if script == [] then Execution(schema, true)
    else
      match Execute(script[0], schema)
      case None => Execution(schema, false)
      case Some(next) => ExecuteScript(script[1..], next)
  }

  // ---------------------------------------------------------------- migrations

  /** A migration by its four-digit version, with the text of its up file. */
  datatype Migration = Migration(version: nat, name: string, up: Script)

  /** A directory entry that ends in `.up.sql`. */
  datatype DirectoryEntry = WellNamed(migration: Migration) | MisnamedUpFile(file: string)

  datatype ListingError = BadFileName(file: string)

  function ByVersion(a: Migration, b: Migration): bool {
    a.version <= b.version
  }

  function ParseEntries(entries: seq<DirectoryEntry>): Result<seq<Migration>, ListingError> {
    if entries == [] then Ok([])
    else
      match entries[0]
      case MisnamedUpFile(file) => Err(BadFileName(file))
      case WellNamed(m) =>
        match ParseEntries(entries[1..])
        case Err(e) => Err(e)
        case Ok(rest) => Ok([m] + rest)
  }

  function ListMigrations(entries: seq<DirectoryEntry>): Result<seq<Migration>, ListingError> {
    match ParseEntries(entries)
    case Err(e) => Err(e)
    case Ok(ms) => Ok(Sorting.Sort(ByVersion, ms))
  }

  /** Strictly increasing versions. */
  predicate Ascending(list: seq<Migration>) {
    forall i, j | 0 <= i < j < |list| :: list[i].version < list[j].version
  }

  predicate DistinctVersions(list: seq<Migration>) {
    forall i, j | 0 <= i < j < |list| :: list[i].version != list[j].version
  }

  /**
   * Listing fails exactly on a misnamed file; otherwise it is the files in version order,
   * strictly ascending exactly when no two files share a version.
   */
  lemma ListingExact(entries: seq<DirectoryEntry>)
    ensures ListMigrations(entries).Ok? <==> forall e | e in entries :: e.WellNamed?
    ensures ListMigrations(entries).Ok? ==>
            var list := ListMigrations(entries).value;
            && (forall m :: m in list <==> WellNamed(m) in entries)
            && |list| == |entries|
            && (Ascending(list) <==> DistinctVersions(list))
  {
    ParsedEntries(entries);
    if ParseEntries(entries).Ok? {
      var ms := ParseEntries(entries).value;
      var list := Sorting.Sort(ByVersion, ms);
      Sorting.SortSorted(ByVersion, ms);
      assert forall i, j | 0 <= i < j < |list| :: ByVersion(list[i], list[j]);
      assert forall m :: m in list <==> m in multiset(list);
      assert forall m :: m in ms <==> m in multiset(ms);
      assert |list| == |multiset(list)| && |ms| == |multiset(ms)|;
    }
  }

  lemma {:induction false} ParsedEntries(entries: seq<DirectoryEntry>)
    ensures ParseEntries(entries).Ok? <==> forall e | e in entries :: e.WellNamed?
    ensures ParseEntries(entries).Ok? ==>
            var ms := ParseEntries(entries).value;
            |ms| == |entries| && forall m :: m in ms <==> WellNamed(m) in entries
  {
    if entries != [] {
      ParsedEntries(entries[1..]);
      assert entries == [entries[0]] + entries[1..];
    }
  }

  // ---------------------------------------------------------------- the database

  /** The schema, and the recorded migrations (the version column is unique). */
  datatype Db = Db(schema: Schema, recorded: map<nat, string>)

  /** What can go wrong around one migration, apart from a rejected statement. */
  datatype Fault =
    | NoFault
    // the connection is lost after some statements, or before the record commits
    | LostAfter(statements: nat)
    // the commit happens but its acknowledgement is lost
    | Unacknowledged

  datatype Change = RecordVersion(version: nat, name: string) | ForgetVersion(version: nat)

  datatype Outcome = Outcome(db: Db, ok: bool)

  function ApplyChange(change: Change, recorded: map<nat, string>): Option<map<nat, string>> {
    match change
    case RecordVersion(v, n) => if v in recorded then None else Some(recorded[v := n])
    case ForgetVersion(v) => Some(recorded - {v})
  }

  function Min(a: nat, b: nat): nat {
    if a < b then a else b
  }

  /** One script and its bookkeeping; only the bookkeeping is rolled back on failure. */
  function RunOne(db: Db, script: Script, change: Change, fault: Fault): Outcome {
    if fault.LostAfter? then
      var partial := script[..Min(fault.statements, |script|)];
      Outcome(db.(schema := ExecuteScript(partial, db.schema).schema), false)
    else
      var run := ExecuteScript(script, db.schema);
      if !run.ok then Outcome(db.(schema := run.schema), false)
      else
        match ApplyChange(change, db.recorded)
        case None => Outcome(db.(schema := run.schema), false)
        case Some(recorded) => Outcome(Db(run.schema, recorded), fault.NoFault?)
  }

  /** The fault that meets the next migration, and the later ones. */
  function Head(faults: seq<Fault>): Fault {
    if faults == [] then NoFault else faults[0]
  }

  function Rest(faults: seq<Fault>): seq<Fault> {
    if faults == [] then [] else faults[1..]
  }

  function UpLoop(db: Db, toRun: seq<Migration>, faults: seq<Fault>): Outcome
    decreases |toRun|
  {
    if toRun == [] then Outcome(db, true)
    else
      var m := toRun[0];
      var one := RunOne(db, m.up, RecordVersion(m.version, m.name), Head(faults));
      if one.ok then UpLoop(one.db, toRun[1..], Rest(faults)) else one
  }

  function Pending(list: seq<Migration>, recorded: map<nat, string>): seq<Migration> {
    if list == [] then []
    else (if list[0].version in recorded then [] else [list[0]]) + Pending(list[1..], recorded)
  }

  /** `steps ? pending.slice(0, steps) : pending`: no number and 0 both mean all. */
  function Chosen(pending: seq<Migration>, steps: Option<int>): (chosen: seq<Migration>)
    ensures chosen <= pending
  {
    if steps.None? || steps.value == 0 then pending
    else
      var stop := if steps.value < 0 then |pending| + steps.value else steps.value;
      if stop < 0 then [] else if stop > |pending| then pending else pending[..stop]
  }

  function Up(db: Db, list: seq<Migration>, steps: Option<int>, faults: seq<Fault>): Outcome {
    UpLoop(db, Chosen(Pending(list, db.recorded), steps), faults)
  }

  datatype Row = Row(version: nat, name: string)

  /** The down files, by version and name. */
  type DownFiles = map<Row, Script>

  /** `SELECT version, name ... ORDER BY version DESC`. */
  function RowsDescending(recorded: map<nat, string>): seq<Row>
    decreases |recorded|
  {
    if recorded == map[] then []
    else
      HasLatest(recorded.Keys);
      var v :| v in recorded && forall w | w in recorded :: w <= v;
      [Row(v, recorded[v])] + RowsDescending(recorded - {v})
  }

  lemma {:induction false} HasLatest(versions: set<nat>)
    requires versions != {}
    ensures exists v :: v in versions && forall w | w in versions :: w <= v
  {
    var u :| u in versions;
    var others := versions - {u};
    if others != {} {
      HasLatest(others);
      var v :| v in others && forall w | w in others :: w <= v;
      var top := if u < v then v else u;
      assert top in versions && forall w | w in versions :: w == u || w in others;
    } else {
      assert forall w | w in versions :: w == u || w in others;
    }
  }

  function DownLoop(db: Db, rows: seq<Row>, files: DownFiles, faults: seq<Fault>): Outcome
    decreases |rows|
  {
    if rows == [] then Outcome(db, true)
    else if rows[0] !in files then Outcome(db, false)
    else
      var one := RunOne(db, files[rows[0]], ForgetVersion(rows[0].version), Head(faults));
      if one.ok then DownLoop(one.db, rows[1..], files, Rest(faults)) else one
  }

  /** `LIMIT steps`: a negative limit is an SQL error. */
  function Down(db: Db, files: DownFiles, steps: int, faults: seq<Fault>): Outcome {
    if steps < 0 then Outcome(db, false)
    else
      var rows := RowsDescending(db.recorded);
      DownLoop(db, rows[..Min(steps, |rows|)], files, faults)
  }

  /** The pending migrations are exactly the unrecorded ones, in the order of the list. */
  lemma {:induction false} PendingExact(list: seq<Migration>, recorded: map<nat, string>)
    ensures forall m :: m in Pending(list, recorded) <==> m in list && m.version !in recorded
    ensures Ascending(list) ==> Ascending(Pending(list, recorded))
  {
    if list != [] {
      PendingExact(list[1..], recorded);
      assert list == [list[0]] + list[1..];
      if Ascending(list) {
        assert Ascending(list[1..]);
        FirstBelow(list, Pending(list[1..], recorded));
      }
    }
  }

  lemma FirstBelow(list: seq<Migration>, rest: seq<Migration>)
    requires list != [] && Ascending(list) && Ascending(rest)
    requires forall m | m in rest :: m in list[1..]
    ensures Ascending([list[0]] + rest)
  {
    forall j | 0 <= j < |rest| ensures list[0].version < rest[j].version {
      assert rest[j] in rest;
      var i :| 0 <= i < |list[1..]| && list[1..][i] == rest[j];
      assert list[i + 1] == rest[j];
    }
  }

  /** No number and 0 choose all, `n` the first `n`, and `-n` all but the last `n`. */
  lemma ChosenExact(pending: seq<Migration>, n: nat)
    ensures Chosen(pending, None) == pending && Chosen(pending, Some(0)) == pending
    ensures 0 < n <= |pending| ==> Chosen(pending, Some(n)) == pending[..n]
    ensures 0 < n <= |pending| ==> Chosen(pending, Some(-(n as int))) == pending[..|pending| - n]
    ensures n > |pending| ==> Chosen(pending, Some(n)) == pending && Chosen(pending, Some(-(n as int))) == []
  {
  }

  /** The rows are exactly the records, the latest version first. */
  lemma {:induction false} RowsExact(recorded: map<nat, string>)
    ensures var rows := RowsDescending(recorded);
            && (forall row :: row in rows <==>
                  row.version in recorded && recorded[row.version] == row.name)
            && forall i, j | 0 <= i < j < |rows| :: rows[i].version > rows[j].version
    decreases |recorded|
  {
    if recorded != map[] {
      HasLatest(recorded.Keys);
      var v :| v in recorded && forall w | w in recorded :: w <= v;
      LatestFirst(recorded, v);
      RowsExact(recorded - {v});
      RowsPut(recorded, v, RowsDescending(recorded - {v}));
    }
  }

  lemma RowsPut(recorded: map<nat, string>, v: nat, rest: seq<Row>)
    requires v in recorded && forall w | w in recorded :: w <= v
    requires forall row :: row in rest <==>
               row.version in recorded - {v} && (recorded - {v})[row.version] == row.name
    requires forall i, j | 0 <= i < j < |rest| :: rest[i].version > rest[j].version
    ensures var rows := [Row(v, recorded[v])] + rest;
            && (forall row :: row in rows <==>
                  row.version in recorded && recorded[row.version] == row.name)
            && forall i, j | 0 <= i < j < |rows| :: rows[i].version > rows[j].version
  {
    assert forall row | row in rest :: row.version < v;
    assert forall j | 0 <= j < |rest| :: rest[j] in rest;
  }

  /** The database as an object that both commands update in place. */
  class Database {
    var schema: Schema
    var recorded: map<nat, string>

    function View(): Db
      reads this
    {
      Db(schema, recorded)
    }

    method ExecuteStatements(script: Script) returns (ok: bool)
      modifies this`schema
      ensures Execution(schema, ok) == ExecuteScript(script, old(schema))
    {
      var i := 0;
      assert script[0..] == script;
      while i < |script|
        invariant 0 <= i <= |script|
        invariant ExecuteScript(script[i..], schema) == ExecuteScript(script, old(schema))
      {
        assert script[i..][1..] == script[i + 1..];
        var next := Execute(script[i], schema);
        if next.None? {
          return false;
        }
        schema := next.value;
        i := i + 1;
      }
      ok := true;
    }

    method RunMigration(script: Script, change: Change, fault: Fault) returns (ok: bool)
      modifies this
      ensures Outcome(View(), ok) == RunOne(old(View()), script, change, fault)
    {
      if fault.LostAfter? {
        var _ := ExecuteStatements(script[..Min(fault.statements, |script|)]);
        return false;
      }
      ok := ExecuteStatements(script);
      if ok {
        var changed := ApplyChange(change, recorded);
        if changed.None? {
          return false;
        }
        recorded := changed.value;
        ok := fault.NoFault?;
      }
    }

    method MigrateUp(list: seq<Migration>, steps: Option<int>, faults: seq<Fault>) returns (ok: bool)
      modifies this
      ensures Outcome(View(), ok) == Up(old(View()), list, steps, faults)
    {
      var toRun := Chosen(Pending(list, recorded), steps);
      var left := faults;
      var i := 0;
      assert toRun[0..] == toRun;
      while i < |toRun|
        invariant 0 <= i <= |toRun|
        invariant UpLoop(View(), toRun[i..], left) == UpLoop(old(View()), toRun, faults)
      {
        assert toRun[i..][1..] == toRun[i + 1..];
        var m := toRun[i];
        var done := RunMigration(m.up, RecordVersion(m.version, m.name), Head(left));
        if !done {
          return false;
        }
        left := Rest(left);
        i := i + 1;
      }
      ok := true;
    }

    method MigrateDown(files: DownFiles, steps: int, faults: seq<Fault>) returns (ok: bool)
      modifies this
      ensures Outcome(View(), ok) == Down(old(View()), files, steps, faults)
    {
      if steps < 0 {
        return false;
      }
      var all := RowsDescending(recorded);
      var rows := all[..Min(steps, |all|)];
      var left := faults;
      var i := 0;
      assert rows[0..] == rows;
      while i < |rows|
        invariant 0 <= i <= |rows|
        invariant DownLoop(View(), rows[i..], files, left) == DownLoop(old(View()), rows, files, faults)
      {
        assert rows[i..][1..] == rows[i + 1..];
        if rows[i] !in files {
          return false;
        }
        var done := RunMigration(files[rows[i]], ForgetVersion(rows[i].version), Head(left));
        if !done {
          return false;
        }
        left := Rest(left);
        i := i + 1;
      }
      ok := true;
    }
  }

  // ---------------------------------------------------------------- the recorded set is a prefix

  /** The records of the first `k` migrations. */
  function Prefix(list: seq<Migration>, k: nat): map<nat, string>
    requires k <= |list|
  {
    if k == 0 then map[]
    else Prefix(list, k - 1)[list[k - 1].version := list[k - 1].name]
  }

  /** The database has recorded the first `k` migrations and no others. */
  predicate HasPrefix(db: Db, list: seq<Migration>, k: nat) {
    k <= |list| && db.recorded == Prefix(list, k)
  }

  /** A migration is recorded by a prefix exactly when it is in it. */
  lemma {:induction false} InPrefix(list: seq<Migration>, k: nat, i: nat)
    requires Ascending(list) && k <= |list| && i < |list|
    ensures list[i].version in Prefix(list, k) <==> i < k
  {
    if k > 0 {
      InPrefix(list, k - 1, i);
    }
  }

  /** No version of a prefix exceeds its last one. */
  lemma {:induction false} PrefixBelow(list: seq<Migration>, k: nat)
    requires Ascending(list) && 0 < k <= |list|
    ensures forall v | v in Prefix(list, k) :: v <= list[k - 1].version
  {
    if k > 1 {
      PrefixBelow(list, k - 1);
    }
  }

  lemma PendingAfterPrefix(list: seq<Migration>, k: nat)
    requires Ascending(list) && k <= |list|
    ensures Pending(list, Prefix(list, k)) == list[k..]
  {
    PendingSuffix(list, k, 0);
    assert list[0..] == list;
  }

  lemma {:induction false} PendingSuffix(list: seq<Migration>, k: nat, i: nat)
    requires Ascending(list) && k <= |list| && i <= |list|
    ensures Pending(list[i..], Prefix(list, k)) == list[if i < k then k else i..]
    decreases |list| - i
  {
    if i < |list| {
      PendingSuffix(list, k, i + 1);
      InPrefix(list, k, i);
      assert list[i..][1..] == list[i + 1..];
      assert list[i..][0] == list[i];
      if i >= k {
        assert list[i..] == [list[i]] + list[i + 1..];
      }
    }
  }

  lemma {:induction false} PrefixRows(list: seq<Migration>, k: nat)
    requires Ascending(list) && k <= |list|
    ensures RowsDescending(Prefix(list, k)) == Newest(list, k)
  {
    if k > 0 {
      PrefixBelow(list, k);
      LatestFirst(Prefix(list, k), list[k - 1].version);
      PrefixWithoutLast(list, k);
      PrefixRows(list, k - 1);
    }
  }

  lemma LatestFirst(recorded: map<nat, string>, v: nat)
    requires v in recorded && forall w | w in recorded :: w <= v
    ensures RowsDescending(recorded) == [Row(v, recorded[v])] + RowsDescending(recorded - {v})
  {
  }

  /** The rows of the first `k` migrations, newest first. */
  function Newest(list: seq<Migration>, k: nat): (rows: seq<Row>)
    requires k <= |list|
    ensures |rows| == k
  {
    if k == 0 then [] else [Row(list[k - 1].version, list[k - 1].name)] + Newest(list, k - 1)
  }

  // ---------------------------------------------------------------- which scripts ran

  /** The up files of the migrations from `k` up to `e`, one after another. */
  function UpText(list: seq<Migration>, k: nat, e: nat): Script
    requires k <= e <= |list|
    decreases e - k
  {
    if k == e then [] else list[k].up + UpText(list, k + 1, e)
  }

  /** The file that undoes a migration; empty when it is missing. */
  function DownScript(m: Migration, files: DownFiles): Script {
    if Row(m.version, m.name) in files then files[Row(m.version, m.name)] else []
  }

  /** The down files of the first `k` migrations but the first `e`, the newest first. */
  function DownText(list: seq<Migration>, k: nat, e: nat, files: DownFiles): Script
    requires e <= k <= |list|
    decreases k
  {
    if k == e then [] else DownScript(list[k - 1], files) + DownText(list, k - 1, e, files)
  }

  /** From one schema to the other ran `text` in full, and then `part`. */
  ghost predicate Ran(text: Script, part: Script, before: Schema, after: Schema) {
    var run := ExecuteScript(text, before);
    run.ok && after == ExecuteScript(part, run.schema).schema
  }

  lemma {:induction false} ExecuteConcat(a: Script, b: Script, schema: Schema)
    ensures ExecuteScript(a + b, schema) ==
            if ExecuteScript(a, schema).ok
            then ExecuteScript(b, ExecuteScript(a, schema).schema)
            else ExecuteScript(a, schema)
    decreases |a|
  {
    if a == [] {
      assert a + b == b;
    } else {
      assert (a + b)[0] == a[0] && (a + b)[1..] == a[1..] + b;
      var next := Execute(a[0], schema);
      if next.Some? {
        ExecuteConcat(a[1..], b, next.value);
      }
    }
  }

  lemma RanAnother(
    first: Script, text: Script, part: Script, before: Schema, mid: Schema, after: Schema)
    requires ExecuteScript(first, before) == Execution(mid, true) && Ran(text, part, mid, after)
    ensures Ran(first + text, part, before, after)
  {
    ExecuteConcat(first, text, before);
  }

  /** What one migration runs of its script: all of it, unless the connection is lost. */
  lemma OneRan(db: Db, script: Script, change: Change, fault: Fault) returns (part: Script)
    ensures var one := RunOne(db, script, change, fault);
            && part <= script && one.db.schema == ExecuteScript(part, db.schema).schema
            && (one.ok || one.db.recorded != db.recorded ==>
                  part == script && ExecuteScript(script, db.schema).ok)
  {
    part := if fault.LostAfter? then script[..Min(fault.statements, |script|)] else script;
  }

  /**
   * An upward loop over the next migrations ends on a longer prefix, whose files ran, and at
   * most a beginning of the file after it; on success, on the full one.
   */
  lemma {:induction false} UpLoopPrefix(db: Db, list: seq<Migration>, k: nat, e: nat, faults: seq<Fault>)
    returns (k': nat, part: Script)
    requires Ascending(list) && HasPrefix(db, list, k) && k <= e <= |list|
    ensures k <= k' <= e && (part == [] || (k' < e && part <= list[k'].up))
    ensures var out := UpLoop(db, list[k..e], faults);
            && HasPrefix(out.db, list, k') && (out.ok ==> k' == e)
            && Ran(UpText(list, k, k'), part, db.schema, out.db.schema)
    decreases e - k
  {
    if k == e {
      k', part := k, [];
    } else {
      SliceStep(list, k, e);
      var one := UpStep(db, list, k, faults);
      part := OneRan(db, list[k].up, RecordVersion(list[k].version, list[k].name), Head(faults));
      if one.ok {
        k', part := UpLoopPrefix(one.db, list, k + 1, e, Rest(faults));
        var out := UpLoop(one.db, list[k + 1..e], Rest(faults));
        RanAnother(list[k].up, UpText(list, k + 1, k'), part, db.schema, one.db.schema,
                   out.db.schema);
      } else if one.db.recorded == db.recorded {
        k' := k;
      } else {
        k', part := k + 1, [];
        RanAnother(list[k].up, [], [], db.schema, one.db.schema, one.db.schema);
      }
    }
  }

  lemma SliceStep(list: seq<Migration>, k: nat, e: nat)
    requires k < e <= |list|
    ensures list[k..e][0] == list[k] && list[k..e][1..] == list[k + 1..e]
  {
  }

  /** Migration `k` either gets its record or leaves the records as they were. */
  lemma UpStep(db: Db, list: seq<Migration>, k: nat, faults: seq<Fault>) returns (one: Outcome)
    requires Ascending(list) && HasPrefix(db, list, k) && k < |list|
    ensures one == RunOne(db, list[k].up, RecordVersion(list[k].version, list[k].name), Head(faults))
    ensures HasPrefix(one.db, list, k + 1) || (one.db.recorded == db.recorded && !one.ok)
  {
    one := RunOne(db, list[k].up, RecordVersion(list[k].version, list[k].name), Head(faults));
    InPrefix(list, k, k);
    assert Prefix(list, k + 1) == Prefix(list, k)[list[k].version := list[k].name];
  }

  /**
   * A downward loop over the newest rows ends on a shorter prefix, and ran the down files of
   * what it lost, and at most a beginning of the one after them; on success, `n` of them.
   */
  lemma {:induction false} DownLoopPrefix(
      db: Db, list: seq<Migration>, k: nat, n: nat, files: DownFiles, faults: seq<Fault>,
      out: Outcome)
    returns (k': nat, part: Script)
    requires Ascending(list) && HasPrefix(db, list, k) && n <= k
    requires out == DownLoop(db, Newest(list, k)[..n], files, faults)
    ensures k - n <= k' <= k
    ensures part == [] || (k - n < k' && part <= DownScript(list[k' - 1], files))
    ensures HasPrefix(out.db, list, k') && (out.ok ==> k' == k - n)
    ensures Ran(DownText(list, k, k', files), part, db.schema, out.db.schema)
    decreases n
  {
    if n == 0 {
      k', part := k, [];
    } else {
      var row := Row(list[k - 1].version, list[k - 1].name);
      DownLoopStep(db, list, k, n, files, faults);
      if row !in files {
        k', part := k, [];
      } else {
        var one := DownStep(db, list, k, files[row], Head(faults));
        if one.ok {
          part := OneRan(db, files[row], ForgetVersion(row.version), Head(faults));
          k', part := DownLoopPrefix(one.db, list, k - 1, n - 1, files, Rest(faults), out);
          DownRanAnother(list, k, k', files, part, db.schema, one.db.schema, out.db.schema);
        } else {
          k', part := DownStopped(db, list, k, files, Head(faults), one);
        }
      }
    }
  }

  lemma DownRanAnother(
      list: seq<Migration>, k: nat, e: nat, files: DownFiles, part: Script, before: Schema,
      mid: Schema, after: Schema)
    requires e < k <= |list|
    requires ExecuteScript(DownScript(list[k - 1], files), before) == Execution(mid, true)
    requires Ran(DownText(list, k - 1, e, files), part, mid, after)
    ensures Ran(DownText(list, k, e, files), part, before, after)
  {
    RanAnother(DownScript(list[k - 1], files), DownText(list, k - 1, e, files), part, before, mid,
               after);
  }

  /** A downward run that stops in the script of its first row, or right after it. */
  lemma DownStopped(
      db: Db, list: seq<Migration>, k: nat, files: DownFiles, fault: Fault, one: Outcome)
    returns (k': nat, part: Script)
    requires Ascending(list) && HasPrefix(db, list, k) && 0 < k
    requires var script := DownScript(list[k - 1], files);
             one == RunOne(db, script, ForgetVersion(list[k - 1].version), fault) && !one.ok
    ensures HasPrefix(one.db, list, k')
    ensures (k' == k - 1 && part == []) || (k' == k && part <= DownScript(list[k - 1], files))
    ensures Ran(DownText(list, k, k', files), part, db.schema, one.db.schema)
  {
    var script, change := DownScript(list[k - 1], files), ForgetVersion(list[k - 1].version);
    part := OneRan(db, script, change, fault);
    var _ := DownStep(db, list, k, script, fault);
    if one.db.recorded == db.recorded {
      k' := k;
    } else {
      k', part := k - 1, [];
      RanAnother(script, [], [], db.schema, one.db.schema, one.db.schema);
    }
  }

  /** The downward loop at its first row. */
  lemma DownLoopStep(
      db: Db, list: seq<Migration>, k: nat, n: nat, files: DownFiles, faults: seq<Fault>)
    requires 0 < n <= k <= |list|
    ensures var row := Row(list[k - 1].version, list[k - 1].name);
            DownLoop(db, Newest(list, k)[..n], files, faults) ==
            if row !in files then Outcome(db, false)
            else
              var one := RunOne(db, files[row], ForgetVersion(row.version), Head(faults));
              if one.ok
              then DownLoop(one.db, Newest(list, k - 1)[..n - 1], files, Rest(faults)) else one
  {
    NewestFirst(list, k, n);
  }

  lemma NewestFirst(list: seq<Migration>, k: nat, n: nat)
    requires 0 < n <= k <= |list|
    ensures var rows := Newest(list, k)[..n];
            && rows[0] == Row(list[k - 1].version, list[k - 1].name)
            && rows[1..] == Newest(list, k - 1)[..n - 1]
  {
  }

  /** The last recorded migration either loses its record or leaves the records as they were. */
  lemma DownStep(db: Db, list: seq<Migration>, k: nat, script: Script, fault: Fault)
    returns (one: Outcome)
    requires Ascending(list) && HasPrefix(db, list, k) && 0 < k
    ensures one == RunOne(db, script, ForgetVersion(list[k - 1].version), fault)
    ensures HasPrefix(one.db, list, k - 1) || (one.db.recorded == db.recorded && !one.ok)
  {
    one := RunOne(db, script, ForgetVersion(list[k - 1].version), fault);
    PrefixWithoutLast(list, k);
  }

  lemma PrefixWithoutLast(list: seq<Migration>, k: nat)
    requires Ascending(list) && 0 < k <= |list|
    ensures Prefix(list, k) - {list[k - 1].version} == Prefix(list, k - 1)
  {
    InPrefix(list, k - 1, k - 1);
  }

  datatype Command =
    | UpCommand(upSteps: Option<int>, upFaults: seq<Fault>)
    | DownCommand(downSteps: int, downFaults: seq<Fault>)

  function RunCommand(db: Db, list: seq<Migration>, files: DownFiles, c: Command): Outcome {
    match c
    case UpCommand(steps, faults) => Up(db, list, steps, faults)
    case DownCommand(steps, faults) => Down(db, files, steps, faults)
  }

  function RunCommands(db: Db, list: seq<Migration>, files: DownFiles, cs: seq<Command>): Db
    decreases |cs|
  {
    if cs == [] then db
    else RunCommands(RunCommand(db, list, files, cs[0]).db, list, files, cs[1..])
  }

  lemma UpKeepsPrefix(db: Db, list: seq<Migration>, steps: Option<int>, faults: seq<Fault>, k: nat)
    returns (k': nat)
    requires Ascending(list) && HasPrefix(db, list, k)
    ensures HasPrefix(Up(db, list, steps, faults).db, list, k')
    ensures Up(db, list, steps, faults).ok ==> k' == k + |Chosen(list[k..], steps)|
  {
    var e := UpIsLoop(db, list, steps, faults, k);
    var part: Script;
    k', part := UpLoopPrefix(db, list, k, e, faults);
  }

  /** From a prefix, `up` loops over a slice of the list that starts where the prefix ends. */
  lemma UpIsLoop(db: Db, list: seq<Migration>, steps: Option<int>, faults: seq<Fault>, k: nat)
    returns (e: nat)
    requires Ascending(list) && HasPrefix(db, list, k)
    ensures k <= e <= |list| && e == k + |Chosen(list[k..], steps)|
    ensures Up(db, list, steps, faults) == UpLoop(db, list[k..e], faults)
  {
    PendingAfterPrefix(list, k);
    e := k + |Chosen(list[k..], steps)|;
    FrontSlice(list, k, Chosen(list[k..], steps));
  }

  lemma FrontSlice<T>(s: seq<T>, k: nat, front: seq<T>)
    requires k <= |s| && front <= s[k..]
    ensures front == s[k..k + |front|]
  {
  }

  lemma DownKeepsPrefix(
      db: Db, list: seq<Migration>, files: DownFiles, steps: int, faults: seq<Fault>, k: nat)
    returns (k': nat)
    requires Ascending(list) && HasPrefix(db, list, k)
    ensures HasPrefix(Down(db, files, steps, faults).db, list, k')
    ensures Down(db, files, steps, faults).ok ==> steps >= 0 && k' == k - Min(steps, k)
  {
    PrefixRows(list, k);
    k' := k;
    if steps >= 0 {
      var part: Script;
      k', part := DownLoopPrefix(
      db, list, k, Min(steps, k), files, faults, Down(db, files, steps, faults));
    }
  }

  lemma CommandKeepsPrefix(db: Db, list: seq<Migration>, files: DownFiles, c: Command, k: nat)
    returns (k': nat)
    requires Ascending(list) && HasPrefix(db, list, k)
    ensures HasPrefix(RunCommand(db, list, files, c).db, list, k')
  {
    match c
    case UpCommand(steps, faults) => k' := UpKeepsPrefix(db, list, steps, faults, k);
    case DownCommand(steps, faults) => k' := DownKeepsPrefix(db, list, files, steps, faults, k);
  }

  /**
   * From a prefix of the sorted list, every sequence of up and down commands, failing
   * anywhere, leaves a prefix recorded.
   */
  lemma {:induction false} CommandsKeepPrefix(
      db: Db, list: seq<Migration>, files: DownFiles, cs: seq<Command>, k: nat)
    returns (k': nat)
    requires Ascending(list) && HasPrefix(db, list, k)
    ensures HasPrefix(RunCommands(db, list, files, cs), list, k')
    decreases |cs|
  {
    if cs == [] {
      k' := k;
    } else {
      var next := CommandKeepsPrefix(db, list, files, cs[0], k);
      k' := CommandsKeepPrefix(RunCommand(db, list, files, cs[0]).db, list, files, cs[1..], next);
    }
  }

  /**
   * Whatever happens, `up` from a prefix runs the up files of the next migrations in order,
   * each in full before its record, and at most a beginning of one that has no record.
   */
  lemma UpRunsScripts(
      db: Db, list: seq<Migration>, steps: Option<int>, faults: seq<Fault>, k: nat, e: nat)
    returns (k': nat, part: Script)
    requires Ascending(list) && HasPrefix(db, list, k)
    requires e == k + |Chosen(list[k..], steps)|
    ensures k <= k' <= e <= |list| && (part == [] || (k' < e && part <= list[k'].up))
    ensures Up(db, list, steps, faults).ok ==> k' == e
    ensures var out := Up(db, list, steps, faults);
            HasPrefix(out.db, list, k')
            && Ran(UpText(list, k, k'), part, db.schema, out.db.schema)
  {
    var end := UpIsLoop(db, list, steps, faults, k);
    k', part := UpLoopPrefix(db, list, k, end, faults);
  }

  /** Likewise `down` runs the down files of the last migrations, the newest first. */
  lemma DownRunsScripts(
      db: Db, list: seq<Migration>, files: DownFiles, steps: nat, faults: seq<Fault>, k: nat)
    returns (k': nat, part: Script)
    requires Ascending(list) && HasPrefix(db, list, k)
    ensures var e := k - Min(steps, k);
            && e <= k' <= k && (Down(db, files, steps, faults).ok ==> k' == e)
            && (part == [] || (e < k' && part <= DownScript(list[k' - 1], files)))
    ensures var out := Down(db, files, steps, faults);
            HasPrefix(out.db, list, k')
            && Ran(DownText(list, k, k', files), part, db.schema, out.db.schema)
  {
    PrefixRows(list, k);
    k', part := DownLoopPrefix(
      db, list, k, Min(steps, k), files, faults, Down(db, files, steps, faults));
  }

  lemma {:induction false} UpLoopCompletes(
      db: Db, list: seq<Migration>, k: nat, e: nat, out: Outcome)
    requires Ascending(list) && HasPrefix(db, list, k) && k <= e <= |list|
    requires out == UpLoop(db, list[k..e], [])
    ensures out.ok <==> ExecuteScript(UpText(list, k, e), db.schema).ok
    decreases e - k
  {
    if k < e {
      SliceStep(list, k, e);
      var one := UpStep(db, list, k, []);
      InPrefix(list, k, k);
      ExecuteConcat(list[k].up, UpText(list, k + 1, e), db.schema);
      if one.ok {
        UpLoopCompletes(one.db, list, k + 1, e, out);
      }
    }
  }

  /** An undisturbed `up` completes exactly when the chosen files run one after another. */
  lemma UpCompletesExactly(db: Db, list: seq<Migration>, steps: Option<int>, k: nat)
    returns (e: nat)
    requires Ascending(list) && HasPrefix(db, list, k)
    ensures k <= e <= |list| && e == k + |Chosen(list[k..], steps)|
    ensures Up(db, list, steps, []).ok <==> ExecuteScript(UpText(list, k, e), db.schema).ok
  {
    e := UpIsLoop(db, list, steps, [], k);
    UpLoopCompletes(db, list, k, e, Up(db, list, steps, []));
  }

  /** The down files are there of the migrations from `e` up to `k`. */
  predicate FilesExist(list: seq<Migration>, e: nat, k: nat, files: DownFiles)
    requires e <= k <= |list|
  {
    forall i | e <= i < k :: Row(list[i].version, list[i].name) in files
  }

  lemma {:induction false} DownLoopCompletes(
      db: Db, list: seq<Migration>, k: nat, e: nat, n: nat, files: DownFiles, out: Outcome)
    requires Ascending(list) && HasPrefix(db, list, k) && e <= k && n == k - e
    requires out == DownLoop(db, Newest(list, k)[..n], files, [])
    ensures out.ok <==> FilesExist(list, e, k, files)
                        && ExecuteScript(DownText(list, k, e, files), db.schema).ok
    decreases n
  {
    if n > 0 {
      DownLoopStep(db, list, k, n, files, []);
      var row := Row(list[k - 1].version, list[k - 1].name);
      if row in files {
        var one := DownStep(db, list, k, files[row], NoFault);
        ExecuteConcat(files[row], DownText(list, k - 1, e, files), db.schema);
        if one.ok {
          DownLoopCompletes(one.db, list, k - 1, e, n - 1, files, out);
        }
      }
    }
  }

  /**
   * An undisturbed `down` completes exactly when the down files are there and run one after
   * another; a negative number of steps is rejected before anything runs.
   */
  lemma DownCompletesExactly(
      db: Db, list: seq<Migration>, files: DownFiles, steps: int, k: nat, e: nat)
    requires Ascending(list) && HasPrefix(db, list, k)
    requires steps >= 0 ==> e == k - Min(steps, k)
    ensures steps < 0 ==> Down(db, files, steps, []) == Outcome(db, false)
    ensures steps >= 0 ==>
              (Down(db, files, steps, []).ok <==>
                 FilesExist(list, e, k, files)
                 && ExecuteScript(DownText(list, k, e, files), db.schema).ok)
  {
    if steps >= 0 {
      PrefixRows(list, k);
      DownLoopCompletes(db, list, k, e, k - e, files, Down(db, files, steps, []));
    }
  }

  /** Migration `i`'s down file undoes its up file on the schema that its up file meets. */
  ghost predicate UndoneAt(
    list: seq<Migration>, files: DownFiles, k: nat, i: nat, schema: Schema)
    requires k <= i < |list|
  {
    var met := ExecuteScript(UpText(list, k, i), schema);
    var left := ExecuteScript(list[i].up, met.schema);
    met.ok && left.ok ==>
      ExecuteScript(DownScript(list[i], files), left.schema) == Execution(met.schema, true)
  }

  ghost predicate AllUndone(
    list: seq<Migration>, files: DownFiles, k: nat, e: nat, schema: Schema)
    requires k <= e <= |list|
  {
    forall i | k <= i < e :: UndoneAt(list, files, k, i, schema)
  }

  lemma {:induction false} UpTextLast(list: seq<Migration>, k: nat, e: nat)
    requires k < e <= |list|
    ensures UpText(list, k, e) == UpText(list, k, e - 1) + list[e - 1].up
    decreases e - k
  {
    if k < e - 1 {
      UpTextLast(list, k + 1, e);
    }
  }

  /** Then the down files run back through the schemas that the up files ran through. */
  lemma {:induction false} TextUndone(
      list: seq<Migration>, files: DownFiles, k: nat, e: nat, before: Schema, after: Schema)
    requires k <= e <= |list|
    requires AllUndone(list, files, k, e, before)
    requires ExecuteScript(UpText(list, k, e), before) == Execution(after, true)
    ensures ExecuteScript(DownText(list, e, k, files), after) == Execution(before, true)
    decreases e
  {
    if k < e {
      UpTextLast(list, k, e);
      ExecuteConcat(UpText(list, k, e - 1), list[e - 1].up, before);
      var mid := ExecuteScript(UpText(list, k, e - 1), before).schema;
      TextUndone(list, files, k, e - 1, before, mid);
      assert UndoneAt(list, files, k, e - 1, before);
      ExecuteConcat(DownScript(list[e - 1], files), DownText(list, e - 1, k, files), after);
    }
  }

  lemma ChosenReaches(list: seq<Migration>, k: nat, e: nat, n: nat)
    requires k < e <= |list| && n == e - k
    ensures e == k + |Chosen(list[k..], Some(n))|
  {
    ChosenExact(list[k..], n);
  }

  /** A successful `up(n)` has run all its files. */
  lemma UpRanAll(
      db: Db, list: seq<Migration>, k: nat, e: nat, n: nat, faults: seq<Fault>, out: Outcome)
    requires Ascending(list) && HasPrefix(db, list, k) && k < e <= |list| && n == e - k
    requires out == Up(db, list, Some(n), faults) && out.ok
    ensures HasPrefix(out.db, list, e)
    ensures ExecuteScript(UpText(list, k, e), db.schema) == Execution(out.db.schema, true)
  {
    ChosenReaches(list, k, e, n);
    var k', part := UpRunsScripts(db, list, Some(n), faults, k, e);
  }

  /** So has a successful `down(n)`. */
  lemma DownRanAll(
      db: Db, list: seq<Migration>, files: DownFiles, k: nat, e: nat, n: nat, faults: seq<Fault>,
      out: Outcome)
    requires Ascending(list) && HasPrefix(db, list, k) && e <= k && n == k - e
    requires out == Down(db, files, n, faults) && out.ok
    ensures HasPrefix(out.db, list, e)
    ensures ExecuteScript(DownText(list, k, e, files), db.schema) == Execution(out.db.schema, true)
  {
    var k', part := DownRunsScripts(db, list, files, n, faults, k);
  }

  /**
   * A successful `up` from migration `k` to `e` and then a successful `down` by as many restore
   * the recorded set; they have run the up files in order and then the down files in the
   * opposite order.
   */
  lemma UpThenDown(
      db: Db, list: seq<Migration>, files: DownFiles, k: nat, e: nat, n: nat,
      upFaults: seq<Fault>, downFaults: seq<Fault>, up: Outcome, down: Outcome)
    requires Ascending(list) && HasPrefix(db, list, k) && k < e <= |list| && n == e - k
    requires up == Up(db, list, Some(n), upFaults) && up.ok
    requires down == Down(up.db, files, n, downFaults) && down.ok
    ensures up.db.recorded == Prefix(list, e) && down.db.recorded == db.recorded
    ensures ExecuteScript(UpText(list, k, e), db.schema) == Execution(up.db.schema, true)
    ensures ExecuteScript(DownText(list, e, k, files), up.db.schema) ==
            Execution(down.db.schema, true)
  {
    UpRanAll(db, list, k, e, n, upFaults, up);
    DownRanAll(up.db, list, files, e, k, n, downFaults, down);
  }

  /** They restore the schema too, when each down file undoes its up file where that ran. */
  lemma UpThenDownRestores(
      db: Db, list: seq<Migration>, files: DownFiles, k: nat, e: nat, n: nat,
      upFaults: seq<Fault>, downFaults: seq<Fault>, up: Outcome, down: Outcome)
    requires Ascending(list) && HasPrefix(db, list, k) && k < e <= |list| && n == e - k
    requires up == Up(db, list, Some(n), upFaults) && up.ok
    requires down == Down(up.db, files, n, downFaults) && down.ok
    requires AllUndone(list, files, k, e, db.schema)
    ensures down.db.recorded == db.recorded && down.db.schema == db.schema
  {
    UpThenDown(db, list, files, k, e, n, upFaults, downFaults, up, down);
    BackToSchema(list, files, k, e, db.schema, up.db.schema, down.db.schema);
  }

  lemma BackToSchema(
      list: seq<Migration>, files: DownFiles, k: nat, e: nat, before: Schema, mid: Schema,
      after: Schema)
    requires k <= e <= |list| && AllUndone(list, files, k, e, before)
    requires ExecuteScript(UpText(list, k, e), before) == Execution(mid, true)
    requires ExecuteScript(DownText(list, e, k, files), mid) == Execution(after, true)
    ensures after == before
  {
    TextUndone(list, files, k, e, before, mid);
  }

  /** `up 0` is not a no-op: it means the same as `up` without a number. */
  lemma UpZeroRunsAll(db: Db, list: seq<Migration>, faults: seq<Fault>)
    ensures Up(db, list, Some(0), faults) == Up(db, list, None, faults)
  {
  }
}
