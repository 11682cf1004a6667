/**
 * A schema taken apart into cells, one for each table and column: what a script does to one
 * cell, and when it can do it again.
 */
module SchemaCells {
  import opened Common
  import opened Migrations

  datatype Cell = NoTable | NoColumn | Defined(definition: string)

  function CellOf(schema: Schema, t: string, c: string): Cell {
    if t !in schema then NoTable
    else if c !in schema[t] then NoColumn
    else Defined(schema[t][c])
  }

  /** What one statement makes of a cell, or nothing when the cell makes it fail. */
  function CellStep(s: Statement, t: string, c: string, x: Cell): Option<Cell> {
    match s
    case CreateTableIfNotExists(t', cs) =>
      Some(if t' == t && x.NoTable? then (if c in cs then Defined(cs[c]) else NoColumn) else x)
    case AddColumn(t', c', d) =>
      if t' != t || c' != c then Some(x) else if x.NoColumn? then Some(Defined(d)) else None
    case ModifyColumn(t', c', d) =>
      if t' != t || c' != c then Some(x) else if x.Defined? then Some(Defined(d)) else None
    case DropColumn(t', c') =>
      if t' != t || c' != c then Some(x) else if x.Defined? then Some(NoColumn) else None
    case DropTableIfExists(t') => Some(if t' == t then NoTable else x)
  }

  function CellRun(script: Script, t: string, c: string, x: Cell): Option<Cell>
    decreases |script|
  {
    if script == [] then Some(x)
    else
      match CellStep(script[0], t, c, x)
      case None => None
      case Some(y) => CellRun(script[1..], t, c, y)
  }

  // ---------------------------------------------------------------- schemas by cells

  lemma SchemaByCells(a: Schema, b: Schema)
    requires forall t, c :: CellOf(a, t, c) == CellOf(b, t, c)
    ensures a == b
  {
    forall t ensures t in a <==> t in b {
      assert CellOf(a, t, "") == CellOf(b, t, "");
    }
    forall t | t in a ensures a[t] == b[t] {
      forall c ensures c in a[t] <==> c in b[t] {
        assert CellOf(a, t, c) == CellOf(b, t, c);
      }
      forall c | c in a[t] ensures a[t][c] == b[t][c] {
        assert CellOf(a, t, c) == CellOf(b, t, c);
      }
    }
  }

  lemma StepByCell(s: Statement, schema: Schema, t: string, c: string)
    requires Execute(s, schema).Some?
    ensures CellStep(s, t, c, CellOf(schema, t, c)) == Some(CellOf(Execute(s, schema).value, t, c))
  {
  }

  /** A script that runs does to each cell what it does to the schema. */
  lemma {:induction false} RunByCell(script: Script, schema: Schema, t: string, c: string)
    requires ExecuteScript(script, schema).ok
    ensures CellRun(script, t, c, CellOf(schema, t, c))
         == Some(CellOf(ExecuteScript(script, schema).schema, t, c))
    decreases |script|
  {
    if script != [] {
      StepByCell(script[0], schema, t, c);
      RunByCell(script[1..], Execute(script[0], schema).value, t, c);
    }
  }

  /** A script that fails is made to by one cell. */
  lemma {:induction false} FailingCell(script: Script, schema: Schema) returns (t: string, c: string)
    requires !ExecuteScript(script, schema).ok
    ensures CellRun(script, t, c, CellOf(schema, t, c)).None?
    decreases |script|
  {
    match Execute(script[0], schema)
    case None => t, c := script[0].table, script[0].column;
    case Some(next) =>
      t, c := FailingCell(script[1..], next);
      StepByCell(script[0], schema, t, c);
  }

  lemma {:induction false} CellRunConcat(a: Script, b: Script, t: string, c: string, x: Cell)
    ensures CellRun(a + b, t, c, x) ==
            match CellRun(a, t, c, x) case None => None case Some(y) => CellRun(b, t, c, y)
    decreases |a|
  {
    if a == [] {
      assert a + b == b;
    } else {
      assert (a + b)[1..] == a[1..] + b;
      var y := CellStep(a[0], t, c, x);
      if y.Some? {
        CellRunConcat(a[1..], b, t, c, y.value);
      }
    }
  }

  /** A run split at a statement. */
  lemma CellRunSplit(script: Script, i: nat, t: string, c: string, x: Cell)
    requires i <= |script|
    ensures CellRun(script, t, c, x) ==
            match CellRun(script[..i], t, c, x)
            case None => None
            case Some(y) => CellRun(script[i..], t, c, y)
  {
    assert script == script[..i] + script[i..];
    CellRunConcat(script[..i], script[i..], t, c, x);
  }

  // ---------------------------------------------------------------- scripts quiet about a cell

  predicate Unsettling(s: Statement, t: string, c: string) {
    match s
    case AddColumn(t', c', _) => t' == t && c' == c
    case DropColumn(t', c') => t' == t && c' == c
    case DropTableIfExists(t') => t' == t
    case _ => false
  }

  predicate ModifiesCell(s: Statement, t: string, c: string) {
    s.ModifyColumn? && s.table == t && s.column == c
  }

  /** The cell is at most created with its table, and modified. */
  predicate Quiet(script: Script, t: string, c: string) {
    forall i | 0 <= i < |script| :: !Unsettling(script[i], t, c)
  }

  predicate NeverModified(script: Script, t: string, c: string) {
    forall i | 0 <= i < |script| :: !ModifiesCell(script[i], t, c)
  }

  lemma QuietRest(script: Script, t: string, c: string)
    requires Quiet(script, t, c) && script != []
    ensures Quiet(script[1..], t, c) && !Unsettling(script[0], t, c)
    ensures NeverModified(script, t, c) <==>
            !ModifiesCell(script[0], t, c) && NeverModified(script[1..], t, c)
  {
    assert forall i | 0 <= i < |script[1..]| :: script[1..][i] == script[i + 1];
    if !ModifiesCell(script[0], t, c) && NeverModified(script[1..], t, c) {
      forall i | 0 <= i < |script| ensures !ModifiesCell(script[i], t, c) {
        assert i > 0 ==> script[i] == script[1..][i - 1];
      }
    }
  }

  /** The definition a quiet script leaves: the last one it sets, or the one there was. */
  function LastDefinition(script: Script, t: string, c: string, d: string): string {
    if script == [] then d
    else
      LastDefinition(script[1..], t, c,
                     if ModifiesCell(script[0], t, c) then script[0].definition else d)
  }

  lemma {:induction false} QuietDefined(script: Script, t: string, c: string, d: string)
    requires Quiet(script, t, c)
    ensures CellRun(script, t, c, Defined(d)) == Some(Defined(LastDefinition(script, t, c, d)))
    decreases |script|
  {
    if script != [] {
      QuietRest(script, t, c);
      QuietDefined(script[1..], t, c, if ModifiesCell(script[0], t, c) then script[0].definition else d);
    }
  }

  lemma {:induction false} QuietMissing(script: Script, t: string, c: string)
    requires Quiet(script, t, c)
    ensures CellRun(script, t, c, NoColumn) ==
            if NeverModified(script, t, c) then Some(NoColumn) else None
    decreases |script|
  {
    if script != [] {
      QuietRest(script, t, c);
      QuietMissing(script[1..], t, c);
    }
  }

  /** Only the last modification counts. */
  lemma {:induction false} DefinitionForgotten(script: Script, t: string, c: string, d: string, e: string)
    requires Quiet(script, t, c)
    ensures NeverModified(script, t, c) ==> LastDefinition(script, t, c, d) == d
    ensures !NeverModified(script, t, c) ==>
              LastDefinition(script, t, c, d) == LastDefinition(script, t, c, e)
    decreases |script|
  {
    if script != [] {
      QuietRest(script, t, c);
      if !ModifiesCell(script[0], t, c) {
        DefinitionForgotten(script[1..], t, c, d, e);
      }
    }
  }

  /** Running a quiet script after any first part of it is the same as running it once. */
  lemma {:induction false} QuietAbsorbs(script: Script, i: nat, t: string, c: string, x: Cell)
    requires Quiet(script, t, c) && i <= |script| && CellRun(script, t, c, x).Some?
    ensures CellRun(script[..i], t, c, x).Some?
    ensures CellRun(script, t, c, CellRun(script[..i], t, c, x).value) == CellRun(script, t, c, x)
    decreases |script|
  {
    CellRunSplit(script, i, t, c, x);
    var part := script[..i];
    match x
    case Defined(d) =>
      QuietDefined(part, t, c, d);
      QuietDefined(script, t, c, d);
      var e := LastDefinition(part, t, c, d);
      QuietDefined(script, t, c, e);
      DefinitionForgotten(script, t, c, d, e);
      DefinitionForgotten(script, t, c, e, e);
      DefinitionForgotten(part, t, c, d, d);
    case NoColumn =>
      QuietMissing(script, t, c);
      QuietMissing(part, t, c);
    case NoTable =>
      if i > 0 {
        var s, rest := script[0], script[1..];
        QuietRest(script, t, c);
        assert part[0] == s && part[1..] == rest[..i - 1];
        var y := CellStep(s, t, c, NoTable).value;
        QuietAbsorbs(rest, i - 1, t, c, y);
        var w := CellRun(rest[..i - 1], t, c, y).value;
        if y != NoTable {
          TableStays(rest[..i - 1], t, c, y);
        }
        assert CellStep(s, t, c, w) == Some(w);
      }
  }

  lemma {:induction false} TableStays(script: Script, t: string, c: string, x: Cell)
    requires Quiet(script, t, c) && x != NoTable && CellRun(script, t, c, x).Some?
    ensures CellRun(script, t, c, x).value != NoTable
    decreases |script|
  {
    if script != [] {
      QuietRest(script, t, c);
      TableStays(script[1..], t, c, CellStep(script[0], t, c, x).value);
    }
  }

  /** The columns with which a script first creates a table. */
  function FirstCreation(script: Script, t: string): Option<map<string, string>> {
    if script == [] then None
    else if script[0].CreateTableIfNotExists? && script[0].table == t then Some(script[0].columns)
    else FirstCreation(script[1..], t)
  }

  /** When the table is missing, the script creates it with the column. */
  predicate Brings(script: Script, t: string, c: string) {
    FirstCreation(script, t).Some? && c in FirstCreation(script, t).value
  }

  /** From a missing table, a quiet script fails exactly at a modification it has not brought the column for. */
  lemma {:induction false} QuietFromNothing(script: Script, t: string, c: string)
    requires Quiet(script, t, c)
    ensures CellRun(script, t, c, NoTable).Some? <==>
            forall k | 0 <= k < |script| && ModifiesCell(script[k], t, c) :: Brings(script[..k], t, c)
    ensures CellRun(script, t, c, NoTable).Some? ==>
            var y := CellRun(script, t, c, NoTable).value;
            && (y.Defined? <==> Brings(script, t, c))
            && (y.NoTable? <==> FirstCreation(script, t).None?)
    decreases |script|
  {
    if script != [] {
      var s, rest := script[0], script[1..];
      QuietRest(script, t, c);
      forall k | 0 < k < |script|
        ensures script[k] == rest[k - 1]
        ensures FirstCreation(script[..k], t) ==
                if s.CreateTableIfNotExists? && s.table == t then Some(s.columns)
                else FirstCreation(rest[..k - 1], t)
      {
        assert script[..k][1..] == rest[..k - 1];
      }
      if s.CreateTableIfNotExists? && s.table == t {
        CreatedFirst(script, t, c);
      } else {
        QuietFromNothing(rest, t, c);
        NotCreatedFirst(script, t, c);
      }
    }
  }

  lemma CreatedFirst(script: Script, t: string, c: string)
    requires Quiet(script, t, c) && script != []
    requires script[0].CreateTableIfNotExists? && script[0].table == t
    ensures CellRun(script, t, c, NoTable).Some? <==>
            forall k | 0 <= k < |script| && ModifiesCell(script[k], t, c) :: Brings(script[..k], t, c)
    ensures CellRun(script, t, c, NoTable).Some? ==>
            CellRun(script, t, c, NoTable).value.Defined? == (c in script[0].columns)
            && !CellRun(script, t, c, NoTable).value.NoTable?
  {
    var columns := script[0].columns;
    QuietRest(script, t, c);
    assert forall k | 0 < k <= |script| :: FirstCreation(script[..k], t) == Some(columns);
    if c in columns {
      QuietDefined(script[1..], t, c, columns[c]);
    } else {
      QuietMissing(script[1..], t, c);
    }
  }

  lemma NotCreatedFirst(script: Script, t: string, c: string)
    requires Quiet(script, t, c) && script != []
    requires !(script[0].CreateTableIfNotExists? && script[0].table == t)
    ensures (forall k | 0 <= k < |script| && ModifiesCell(script[k], t, c) :: Brings(script[..k], t, c))
            <==> !ModifiesCell(script[0], t, c)
                 && forall k | 0 <= k < |script[1..]| && ModifiesCell(script[1..][k], t, c) ::
                      Brings(script[1..][..k], t, c)
  {
    var rest := script[1..];
    assert script[..0] == [] && !Brings([], t, c);
    forall k | 0 < k < |script|
      ensures script[k] == rest[k - 1]
      ensures Brings(script[..k], t, c) == Brings(rest[..k - 1], t, c)
    {
      assert script[..k][1..] == rest[..k - 1];
    }
    if !ModifiesCell(script[0], t, c)
       && (forall k | 0 <= k < |rest| && ModifiesCell(rest[k], t, c) :: Brings(rest[..k], t, c))
    {
      forall k | 0 <= k < |script| && ModifiesCell(script[k], t, c) ensures Brings(script[..k], t, c) {
        assert ModifiesCell(rest[k - 1], t, c);
      }
    }
    if forall k | 0 <= k < |script| && ModifiesCell(script[k], t, c) :: Brings(script[..k], t, c) {
      forall k | 0 <= k < |rest| && ModifiesCell(rest[k], t, c) ensures Brings(rest[..k], t, c) {
        assert ModifiesCell(script[k + 1], t, c);
      }
    }
  }
}
