/** Which up files can be run again after a run that stopped partway. */
module MigrationRepeats {
  import opened Common
  import opened Migrations
  import opened SchemaCells

  /** An earlier statement drops the table this one is about, so it meets it as in the first run. */
  predicate Sheltered(script: Script, k: nat)
    requires k < |script|
  {
    exists d | 0 <= d < k :: script[d] == DropTableIfExists(script[k].table)
  }

  /** What a stretch of the script that begins by dropping the table leaves of a column. */
  predicate FindsColumn(before: Script, t: string, c: string, left: Option<Cell>) {
    match left
    case Some(NoColumn) => false
    case Some(NoTable) => Brings(before, t, c)
    case _ => true
  }

  /**
   * Statement `k` runs again whatever part of the script has run: it is guarded, or sheltered;
   * or it modifies a column that is never missing from its table once the script has dropped
   * it, and that the script brings back with the table.
   */
  predicate CanRepeat(script: Script, k: nat)
    requires k < |script|
  {
    Sheltered(script, k)
    || match script[k]
       case AddColumn(_, _, _) => false
       case DropColumn(_, _) => false
       case ModifyColumn(t, c, _) =>
         forall d, j | 0 <= d < j <= |script| && script[d] == DropTableIfExists(t) ::
           FindsColumn(script[..k], t, c, CellRun(script[d..j], t, c, NoTable))
       case _ => true
  }

  predicate Repeatable(script: Script) {
    forall k | 0 <= k < |script| :: CanRepeat(script, k)
  }

  predicate NoTableDropped(script: Script) {
    forall s | s in script :: !s.DropTableIfExists?
  }

  /** For a script that drops no table: it adds and drops no column either. */
  lemma RepeatableWithoutDrops(script: Script)
    requires NoTableDropped(script)
    ensures Repeatable(script) <==> forall s | s in script :: !s.AddColumn? && !s.DropColumn?
  {
    forall k | 0 <= k < |script|
      ensures CanRepeat(script, k) <==> !script[k].AddColumn? && !script[k].DropColumn?
    {
      forall d | 0 <= d < |script| ensures !script[d].DropTableIfExists? {
        assert script[d] in script;
      }
    }
  }

  // ---------------------------------------------------------------- a repeatable script

  /** The index of the first drop of a table, or the length. */
  function FirstDrop(script: Script, t: string): (d: nat)
    ensures d <= |script|
    ensures forall i | 0 <= i < d :: script[i] != DropTableIfExists(t)
    ensures d < |script| ==> script[d] == DropTableIfExists(t)
  {
    if script == [] || script[0] == DropTableIfExists(t) then 0
    else
      var d := FirstDrop(script[1..], t);
      assert forall i | 0 < i < 1 + d :: script[i] == script[1..][i - 1];
      1 + d
  }

  lemma QuietBeforeDrop(script: Script, t: string, c: string)
    requires Repeatable(script)
    ensures Quiet(script[..FirstDrop(script, t)], t, c)
  {
    var d := FirstDrop(script, t);
    forall k | 0 <= k < d ensures !Unsettling(script[..d][k], t, c) {
      assert CanRepeat(script, k);
      assert script[k] != DropTableIfExists(t);
    }
  }

  /** A run that begins by dropping the table forgets what there was. */
  lemma DropForgets(script: Script, t: string, c: string, x: Cell, y: Cell)
    requires script != [] && script[0] == DropTableIfExists(t)
    ensures CellRun(script, t, c, x) == CellRun(script, t, c, y)
  {
  }

  /** What the statements before the drop find when the script is run again after it. */
  lemma RunsBeforeDrop(script: Script, t: string, c: string, j: nat)
    requires Repeatable(script) && FirstDrop(script, t) < j <= |script|
    requires CellRun(script[FirstDrop(script, t)..j], t, c, NoTable).Some?
    ensures var d := FirstDrop(script, t);
            CellRun(script[..d], t, c, CellRun(script[d..j], t, c, NoTable).value).Some?
  {
    var d := FirstDrop(script, t);
    var before := script[..d];
    var left := CellRun(script[d..j], t, c, NoTable);
    QuietBeforeDrop(script, t, c);
    forall k | 0 <= k < d && ModifiesCell(before[k], t, c)
      ensures FindsColumn(before[..k], t, c, left)
    {
      assert CanRepeat(script, k) && before[..k] == script[..k];
    }
    match left.value
    case Defined(e) => QuietDefined(before, t, c, e);
    case NoColumn => QuietMissing(before, t, c);
    case NoTable => QuietFromNothing(before, t, c);
  }

  /** One cell of a repeatable script, run again after its first `j` statements. */
  lemma RepeatCell(script: Script, j: nat, t: string, c: string, x: Cell)
    requires Repeatable(script) && j <= |script| && CellRun(script, t, c, x).Some?
    ensures CellRun(script[..j], t, c, x).Some?
    ensures CellRun(script, t, c, CellRun(script[..j], t, c, x).value) == CellRun(script, t, c, x)
  {
    var d := FirstDrop(script, t);
    QuietBeforeDrop(script, t, c);
    CellRunSplit(script, j, t, c, x);
    CellRunSplit(script, d, t, c, x);
    var y := CellRun(script[..j], t, c, x).value;
    CellRunSplit(script, d, t, c, y);
    if j <= d {
      assert script[..d][..j] == script[..j];
      QuietAbsorbs(script[..d], j, t, c, x);
    } else {
      assert script[..j][..d] == script[..d] && script[..j][d..] == script[d..j];
      CellRunSplit(script[..j], d, t, c, x);
      DropForgets(script[d..j], t, c, CellRun(script[..d], t, c, x).value, NoTable);
      RunsBeforeDrop(script, t, c, j);
    }
    if d < |script| {
      DropForgets(script[d..], t, c, CellRun(script[..d], t, c, x).value,
                  CellRun(script[..d], t, c, y).value);
    }
  }

  lemma {:induction false} PrefixRuns(script: Script, j: nat, schema: Schema)
    requires ExecuteScript(script, schema).ok && j <= |script|
    ensures ExecuteScript(script[..j], schema).ok
    decreases |script|
  {
    if j > 0 {
      assert script[..j][1..] == script[1..][..j - 1];
      PrefixRuns(script[1..], j - 1, Execute(script[0], schema).value);
    }
  }

  /** A repeatable script that runs can be run after any first part of it, with the result of one run. */
  lemma RepeatsExactly(script: Script, j: nat, schema: Schema)
    requires Repeatable(script) && ExecuteScript(script, schema).ok && j <= |script|
    ensures ExecuteScript(script, ExecuteScript(script[..j], schema).schema)
         == ExecuteScript(script, schema)
  {
    PrefixRuns(script, j, schema);
    var part := ExecuteScript(script[..j], schema).schema;
    if !ExecuteScript(script, part).ok {
      var t, c := FailingCell(script, part);
      AgainByCell(script, j, schema, t, c);
      assert false;
    }
    forall t, c
      ensures CellOf(ExecuteScript(script, part).schema, t, c)
           == CellOf(ExecuteScript(script, schema).schema, t, c)
    {
      AgainByCell(script, j, schema, t, c);
      RunByCell(script, part, t, c);
      RunByCell(script, schema, t, c);
    }
    SchemaByCells(ExecuteScript(script, part).schema, ExecuteScript(script, schema).schema);
  }

  lemma AgainByCell(script: Script, j: nat, schema: Schema, t: string, c: string)
    requires Repeatable(script) && ExecuteScript(script, schema).ok && j <= |script|
    requires ExecuteScript(script[..j], schema).ok
    ensures CellRun(script, t, c, CellOf(ExecuteScript(script[..j], schema).schema, t, c))
         == Some(CellOf(ExecuteScript(script, schema).schema, t, c))
  {
    RunByCell(script, schema, t, c);
    RunByCell(script[..j], schema, t, c);
    RepeatCell(script, j, t, c, CellOf(schema, t, c));
  }

  // ---------------------------------------------------------------- a script that jams

  /** The cell is in a state from which statement `k` fails, and the ones before it keep it so. */
  predicate JamCell(script: Script, k: nat, x: Cell)
    requires k < |script|
  {
    match script[k]
    case AddColumn(_, _, _) => x.Defined?
    case DropColumn(_, _) => x.NoColumn?
    case ModifyColumn(t, c, _) => x.NoColumn? || (x.NoTable? && !Brings(script[..k], t, c))
    case _ => false
  }

  /** Statement `k` will never run again: its column is jammed, and nothing before unsettles it. */
  predicate Jammed(script: Script, k: nat, schema: Schema) {
    && k < |script|
    && (script[k].AddColumn? || script[k].DropColumn? || script[k].ModifyColumn?)
    && Quiet(script[..k], script[k].table, script[k].column)
    && JamCell(script, k, CellOf(schema, script[k].table, script[k].column))
  }

  lemma FirstCreationInPart(script: Script, i: nat, t: string)
    requires i <= |script|
    ensures FirstCreation(script[..i], t).Some? ==> FirstCreation(script, t) == FirstCreation(script[..i], t)
  {
    if i > 0 && !(script[0].CreateTableIfNotExists? && script[0].table == t) {
      assert script[..i][1..] == script[1..][..i - 1];
      FirstCreationInPart(script[1..], i - 1, t);
    }
  }

  /** Statements up to the jammed one leave its cell jammed. */
  lemma JamStays(script: Script, k: nat, i: nat, x: Cell)
    requires k < |script| && i <= k && JamCell(script, k, x)
    requires Quiet(script[..k], script[k].table, script[k].column)
    requires CellRun(script[..i], script[k].table, script[k].column, x).Some?
    ensures JamCell(script, k, CellRun(script[..i], script[k].table, script[k].column, x).value)
  {
    var t, c := script[k].table, script[k].column;
    assert forall n | 0 <= n < i :: script[..i][n] == script[..k][n];
    match x
    case Defined(d) => QuietDefined(script[..i], t, c, d);
    case NoColumn => QuietMissing(script[..i], t, c);
    case NoTable =>
      QuietFromNothing(script[..i], t, c);
      assert script[..k][..i] == script[..i];
      FirstCreationInPart(script[..k], i, t);
  }

  /** A jammed statement fails. */
  lemma JamFails(script: Script, k: nat, x: Cell)
    requires k < |script| && JamCell(script, k, x)
    requires Quiet(script[..k], script[k].table, script[k].column)
    ensures CellRun(script[..k + 1], script[k].table, script[k].column, x).None?
  {
    var t, c := script[k].table, script[k].column;
    assert script[..k + 1][..k] == script[..k] && script[..k + 1][k..] == [script[k]];
    CellRunSplit(script[..k + 1], k, t, c, x);
    if CellRun(script[..k], t, c, x).Some? {
      if x.NoTable? {
        QuietFromNothing(script[..k], t, c);
      }
      JamStays(script, k, k, x);
    }
  }

  /** What a run that may fail has executed. */
  lemma {:induction false} Executed(script: Script, schema: Schema) returns (i: nat)
    ensures i <= |script| && ExecuteScript(script[..i], schema).ok
    ensures ExecuteScript(script, schema).schema == ExecuteScript(script[..i], schema).schema
    ensures ExecuteScript(script, schema).ok ==> i == |script|
    decreases |script|
  {
    if script == [] || Execute(script[0], schema).None? {
      i := 0;
    } else {
      var n := Executed(script[1..], Execute(script[0], schema).value);
      i := n + 1;
      assert script[..i][1..] == script[1..][..n];
    }
  }

  /** A run of any part of a jammed script leaves it jammed, and none gets past the statement. */
  lemma JammedStays(script: Script, k: nat, schema: Schema, j: nat)
    requires Jammed(script, k, schema) && j <= |script|
    ensures Jammed(script, k, ExecuteScript(script[..j], schema).schema)
    ensures ExecuteScript(script[..j], schema).ok ==> j <= k
  {
    var t, c := script[k].table, script[k].column;
    var i := Executed(script[..j], schema);
    assert script[..j][..i] == script[..i];
    if i > k {
      PrefixRuns(script[..i], k + 1, schema);
      assert script[..i][..k + 1] == script[..k + 1];
      RunByCell(script[..k + 1], schema, t, c);
      JamFails(script, k, CellOf(schema, t, c));
    }
    RunByCell(script[..i], schema, t, c);
    JamStays(script, k, i, CellOf(schema, t, c));
  }

  /** A script that runs but is not repeatable has a first part after which it is jammed. */
  lemma JamPoint(script: Script, schema: Schema) returns (k: nat, j: nat)
    requires ExecuteScript(script, schema).ok && !Repeatable(script)
    ensures j <= |script| && Jammed(script, k, ExecuteScript(script[..j], schema).schema)
  {
    k := FirstUnrepeatable(script);
    var t, c := script[k].table, script[k].column;
    QuietBeforeUnrepeatable(script, k);
    if script[k].ModifyColumn? {
      var d, e :| 0 <= d < e <= |script| && script[d] == DropTableIfExists(t)
                  && !FindsColumn(script[..k], t, c, CellRun(script[d..e], t, c, NoTable));
      j := e;
      AfterDrop(script, schema, d, e, t, c);
    } else {
      j := k + 1;
      JammedByItself(script, schema, k);
    }
  }

  function FirstUnrepeatable(script: Script): (k: nat)
    requires !Repeatable(script)
    ensures k < |script| && !CanRepeat(script, k)
    ensures forall i | 0 <= i < k :: CanRepeat(script, i)
  {
    FirstUnrepeatableFrom(script, 0)
  }

  function FirstUnrepeatableFrom(script: Script, from: nat): (k: nat)
    requires from <= |script| && !Repeatable(script)
    requires forall i | 0 <= i < from :: CanRepeat(script, i)
    ensures from <= k < |script| && !CanRepeat(script, k)
    ensures forall i | 0 <= i < k :: CanRepeat(script, i)
    decreases |script| - from
  {
    if CanRepeat(script, from) then FirstUnrepeatableFrom(script, from + 1) else from
  }

  lemma QuietBeforeUnrepeatable(script: Script, k: nat)
    requires k < |script| && !CanRepeat(script, k)
    requires forall i | 0 <= i < k :: CanRepeat(script, i)
    requires script[k].AddColumn? || script[k].DropColumn? || script[k].ModifyColumn?
    ensures Quiet(script[..k], script[k].table, script[k].column)
  {
    assert forall d | 0 <= d < k :: script[d] != DropTableIfExists(script[k].table);
    forall i | 0 <= i < k ensures !Unsettling(script[..k][i], script[k].table, script[k].column) {
      assert CanRepeat(script, i);
    }
  }

  /** Adding or dropping a column leaves the cell so that it cannot be done again. */
  lemma JammedByItself(script: Script, schema: Schema, k: nat)
    requires ExecuteScript(script, schema).ok && k < |script|
    requires script[k].AddColumn? || script[k].DropColumn?
    requires Quiet(script[..k], script[k].table, script[k].column)
    ensures Jammed(script, k, ExecuteScript(script[..k + 1], schema).schema)
  {
    var t, c := script[k].table, script[k].column;
    PrefixRuns(script, k + 1, schema);
    RunByCell(script[..k + 1], schema, t, c);
    assert script[..k + 1][k..] == [script[k]];
    CellRunSplit(script[..k + 1], k, t, c, CellOf(schema, t, c));
  }

  /** After a drop at `d`, the cell is what the statements from there on make of nothing. */
  lemma AfterDrop(script: Script, schema: Schema, d: nat, j: nat, t: string, c: string)
    requires ExecuteScript(script, schema).ok && d < j <= |script|
    requires script[d] == DropTableIfExists(t)
    ensures CellRun(script[d..j], t, c, NoTable)
         == Some(CellOf(ExecuteScript(script[..j], schema).schema, t, c))
  {
    PrefixRuns(script, j, schema);
    RunByCell(script[..j], schema, t, c);
    assert script[..j][d..] == script[d..j];
    var x := CellOf(schema, t, c);
    CellRunSplit(script[..j], d, t, c, x);
    DropForgets(script[d..j], t, c, CellRun(script[..j][..d], t, c, x).value, NoTable);
  }

  /**
   * A file that runs can be run again after every partial run exactly when it is repeatable;
   * and then every such run ends on the schema of one.
   */
  lemma RerunExact(script: Script, schema: Schema)
    requires ExecuteScript(script, schema).ok
    ensures (forall j | 0 <= j <= |script| ::
               ExecuteScript(script, ExecuteScript(script[..j], schema).schema).ok)
            <==> Repeatable(script)
    ensures Repeatable(script) ==>
            forall j | 0 <= j <= |script| ::
              ExecuteScript(script, ExecuteScript(script[..j], schema).schema).schema
              == ExecuteScript(script, schema).schema
  {
    if Repeatable(script) {
      forall j | 0 <= j <= |script|
        ensures ExecuteScript(script, ExecuteScript(script[..j], schema).schema)
             == ExecuteScript(script, schema)
      {
        RepeatsExactly(script, j, schema);
      }
    } else {
      var k, j := JamPoint(script, schema);
      var part := ExecuteScript(script[..j], schema).schema;
      JammedStays(script, k, part, |script|);
      assert script[..|script|] == script;
      assert !ExecuteScript(script, ExecuteScript(script[..j], schema).schema).ok;
    }
  }
}
