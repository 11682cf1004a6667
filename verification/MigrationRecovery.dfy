/** What re-running `up` does after migrations that failed partway. */
module MigrationRecovery {
  import opened Common
  import opened Migrations
  import opened MigrationRepeats
  import SchemaCells

  // ---------------------------------------------------------------- many failing runs

  /** One call of `up`: its step count and the faults it meets. */
  datatype Attempt = Attempt(steps: Option<int>, faults: seq<Fault>)

  function RunUps(db: Db, list: seq<Migration>, attempts: seq<Attempt>): Db
    decreases |attempts|
  {
    if attempts == [] then db
    else RunUps(Up(db, list, attempts[0].steps, attempts[0].faults).db, list, attempts[1..])
  }

  /** The schema after running the remaining migrations to their end, if they run. */
  function Finish(ms: seq<Migration>, schema: Schema): Option<Schema>
    decreases |ms|
  {
    if ms == [] then Some(schema)
    else
      var run := ExecuteScript(ms[0].up, schema);
      if run.ok then Finish(ms[1..], run.schema) else None
  }

  predicate AllRepeatable(list: seq<Migration>, k: nat) {
    forall i | k <= i < |list| :: Repeatable(list[i].up)
  }

  /** `k` migrations are recorded, and finishing the rest gives the schema `goal`. */
  ghost predicate OnTrack(db: Db, list: seq<Migration>, k: nat, goal: Schema) {
    HasPrefix(db, list, k) && Finish(list[k..], db.schema) == Some(goal)
  }

  lemma FinishStep(list: seq<Migration>, k: nat, schema: Schema)
    requires k < |list|
    ensures Finish(list[k..], schema) ==
            var run := ExecuteScript(list[k].up, schema);
            if run.ok then Finish(list[k + 1..], run.schema) else None
  {
    assert list[k..][0] == list[k] && list[k..][1..] == list[k + 1..];
  }

  /** One migration, whatever happens to it, stays on track. */
  lemma StepOnTrack(db: Db, list: seq<Migration>, k: nat, goal: Schema, faults: seq<Fault>)
    returns (one: Outcome)
    requires Ascending(list) && OnTrack(db, list, k, goal) && k < |list|
    requires Repeatable(list[k].up)
    ensures one == RunOne(db, list[k].up, RecordVersion(list[k].version, list[k].name), Head(faults))
    ensures if one.db.recorded == db.recorded then !one.ok && OnTrack(one.db, list, k, goal)
            else OnTrack(one.db, list, k + 1, goal)
    ensures Head(faults).NoFault? ==> one.ok
  {
    one := UpStep(db, list, k, faults);
    var script := list[k].up;
    FinishStep(list, k, db.schema);
    FinishStep(list, k, one.db.schema);
    InPrefix(list, k, k);
    if Head(faults).LostAfter? {
      RepeatsExactly(script, Min(Head(faults).statements, |script|), db.schema);
    }
  }

  lemma {:induction false} LoopOnTrack(
      db: Db, list: seq<Migration>, k: nat, e: nat, goal: Schema, faults: seq<Fault>)
    returns (k': nat)
    requires Ascending(list) && AllRepeatable(list, k) && OnTrack(db, list, k, goal) && k <= e <= |list|
    ensures k <= k' && OnTrack(UpLoop(db, list[k..e], faults).db, list, k', goal)
    ensures UpLoop(db, list[k..e], faults).ok ==> k' == e
    ensures faults == [] ==> UpLoop(db, list[k..e], faults).ok
    decreases e - k
  {
    if k == e {
      k' := k;
    } else {
      SliceStep(list, k, e);
      var one := StepOnTrack(db, list, k, goal, faults);
      if one.ok {
        k' := LoopOnTrack(one.db, list, k + 1, e, goal, Rest(faults));
      } else {
        k' := if one.db.recorded == db.recorded then k else k + 1;
      }
    }
  }

  lemma {:induction false} UpsOnTrack(
      db: Db, list: seq<Migration>, k: nat, goal: Schema, attempts: seq<Attempt>)
    returns (k': nat)
    requires Ascending(list) && AllRepeatable(list, k) && OnTrack(db, list, k, goal)
    ensures k <= k' && OnTrack(RunUps(db, list, attempts), list, k', goal)
    decreases |attempts|
  {
    if attempts == [] {
      k' := k;
    } else {
      var Attempt(steps, faults) := attempts[0];
      var e := UpIsLoop(db, list, steps, faults, k);
      var next := LoopOnTrack(db, list, k, e, goal, faults);
      k' := UpsOnTrack(Up(db, list, steps, faults).db, list, next, goal, attempts[1..]);
    }
  }

  /** An undisturbed `up` from a state on track completes, on the goal and with every record. */
  lemma CompleteUp(db: Db, list: seq<Migration>, k: nat, goal: Schema)
    requires Ascending(list) && AllRepeatable(list, k) && OnTrack(db, list, k, goal)
    ensures Up(db, list, None, []) == Outcome(Db(goal, Prefix(list, |list|)), true)
  {
    UpAll(db, list, [], k);
    var k' := LoopOnTrack(db, list, k, |list|, goal, []);
    EndOfTrack(UpLoop(db, list[k..|list|], []).db, list, goal);
  }

  lemma AllChosen(list: seq<Migration>, k: nat)
    requires k <= |list|
    ensures k + |Chosen(list[k..], None)| == |list|
  {
  }

  /** `up` without a number loops over all that the prefix leaves. */
  lemma UpAll(db: Db, list: seq<Migration>, faults: seq<Fault>, k: nat)
    requires Ascending(list) && HasPrefix(db, list, k)
    ensures Up(db, list, None, faults) == UpLoop(db, list[k..|list|], faults)
  {
    var e := UpIsLoop(db, list, None, faults, k);
    AllChosen(list, k);
  }

  lemma EndOfTrack(db: Db, list: seq<Migration>, goal: Schema)
    requires OnTrack(db, list, |list|, goal)
    ensures db == Db(goal, Prefix(list, |list|))
  {
    assert list[|list|..] == [];
  }

  /** An undisturbed `up` that completes has run every pending file. */
  lemma {:induction false} CompletedFinish(db: Db, list: seq<Migration>, k: nat)
    requires Ascending(list) && HasPrefix(db, list, k)
    requires UpLoop(db, list[k..], []).ok
    ensures Finish(list[k..], db.schema) == Some(UpLoop(db, list[k..], []).db.schema)
    decreases |list| - k
  {
    if k < |list| {
      FinishStep(list, k, db.schema);
      assert list[k..][0] == list[k] && list[k..][1..] == list[k + 1..];
      var one := UpStep(db, list, k, []);
      CompletedFinish(one.db, list, k + 1);
    }
  }

  /**
   * When every pending file is repeatable and an undisturbed `up` would complete: after any
   * number of `up` calls that fail anywhere, the next undisturbed one completes, on the schema
   * and records of that one uninterrupted `up`; and a further `up` changes nothing.
   */
  lemma FailuresLeaveNoTrace(db: Db, list: seq<Migration>, k: nat, attempts: seq<Attempt>)
    requires Ascending(list) && HasPrefix(db, list, k) && AllRepeatable(list, k)
    requires Up(db, list, None, []).ok
    ensures Up(RunUps(db, list, attempts), list, None, []) == Up(db, list, None, [])
    ensures var done := Up(db, list, None, []).db;
            Up(done, list, None, []) == Outcome(done, true)
  {
    UpAll(db, list, [], k);
    assert list[k..|list|] == list[k..];
    CompletedFinish(db, list, k);
    var goal := Finish(list[k..], db.schema).value;
    var k' := UpsOnTrack(db, list, k, goal, attempts);
    CompleteUp(RunUps(db, list, attempts), list, k', goal);
    CompleteUp(db, list, k, goal);
    PendingAfterPrefix(list, |list|);
  }

  // ---------------------------------------------------------------- files that are not repeatable

  /** The next migration is jammed, and so it stays through any `up`. */
  lemma JammedUp(db: Db, list: seq<Migration>, k: nat, s: nat, steps: Option<int>, faults: seq<Fault>)
    requires Ascending(list) && HasPrefix(db, list, k) && k < |list|
    requires Jammed(list[k].up, s, db.schema)
    ensures var after := Up(db, list, steps, faults).db;
            after.recorded == db.recorded && Jammed(list[k].up, s, after.schema)
    ensures steps.None? ==> !Up(db, list, steps, faults).ok
  {
    var e := UpIsLoop(db, list, steps, faults, k);
    if e > k {
      SliceStep(list, k, e);
      JammedOne(db, list[k], s, Head(faults));
    }
    AllChosen(list, k);
  }

  lemma JammedOne(db: Db, m: Migration, s: nat, fault: Fault)
    requires Jammed(m.up, s, db.schema)
    ensures var one := RunOne(db, m.up, RecordVersion(m.version, m.name), fault);
            !one.ok && one.db.recorded == db.recorded && Jammed(m.up, s, one.db.schema)
  {
    JammedStays(m.up, s, db.schema, |m.up|);
    assert m.up[..|m.up|] == m.up;
    if fault.LostAfter? {
      JammedStays(m.up, s, db.schema, Min(fault.statements, |m.up|));
    }
  }

  /** No sequence of `up` calls records the next migration or completes. */
  ghost predicate Stuck(db: Db, list: seq<Migration>, k: nat)
    requires k < |list|
  {
    forall attempts ::
      && list[k].version !in RunUps(db, list, attempts).recorded
      && !Up(RunUps(db, list, attempts), list, None, []).ok
  }

  lemma {:induction false} JammedForever(
      db: Db, list: seq<Migration>, k: nat, s: nat, attempts: seq<Attempt>)
    requires Ascending(list) && HasPrefix(db, list, k) && k < |list|
    requires Jammed(list[k].up, s, db.schema)
    ensures var after := RunUps(db, list, attempts);
            after.recorded == db.recorded && Jammed(list[k].up, s, after.schema)
    decreases |attempts|
  {
    if attempts != [] {
      JammedUp(db, list, k, s, attempts[0].steps, attempts[0].faults);
      JammedForever(Up(db, list, attempts[0].steps, attempts[0].faults).db, list, k, s, attempts[1..]);
    }
  }

  lemma JammedIsStuck(db: Db, list: seq<Migration>, k: nat, s: nat)
    requires Ascending(list) && HasPrefix(db, list, k) && k < |list|
    requires Jammed(list[k].up, s, db.schema)
    ensures Stuck(db, list, k)
  {
    forall attempts
      ensures list[k].version !in RunUps(db, list, attempts).recorded
      ensures !Up(RunUps(db, list, attempts), list, None, []).ok
    {
      JammedForever(db, list, k, s, attempts);
      InPrefix(list, k, k);
      JammedUp(RunUps(db, list, attempts), list, k, s, None, []);
    }
  }

  /** An `up` whose connection is lost in its first file has executed a part of that file. */
  lemma LostUp(db: Db, list: seq<Migration>, k: nat, n: nat)
    requires Ascending(list) && HasPrefix(db, list, k) && k < |list|
    ensures Up(db, list, None, [LostAfter(n)]).db ==
            db.(schema := ExecuteScript(list[k].up[..Min(n, |list[k].up|)], db.schema).schema)
  {
    var e := UpIsLoop(db, list, None, [LostAfter(n)], k);
    AllChosen(list, k);
    SliceStep(list, k, e);
  }

  /**
   * For a next file that runs: a lost connection can leave the runner stuck at it for good,
   * exactly when the file is not repeatable.
   */
  lemma StuckExactly(db: Db, list: seq<Migration>, k: nat)
    requires Ascending(list) && HasPrefix(db, list, k) && k < |list|
    requires ExecuteScript(list[k].up, db.schema).ok
    ensures (exists n: nat :: Stuck(Up(db, list, None, [LostAfter(n)]).db, list, k)) <==>
            !Repeatable(list[k].up)
  {
    var script := list[k].up;
    if Repeatable(script) {
      forall n: nat ensures !Stuck(Up(db, list, None, [LostAfter(n)]).db, list, k) {
        RecordedNext(db, list, k, n);
      }
    } else {
      var s, j := JamPoint(script, db.schema);
      LostUp(db, list, k, j);
      JammedIsStuck(Up(db, list, None, [LostAfter(j)]).db, list, k, s);
    }
  }

  /** After losing a repeatable file, an undisturbed `up 1` records it. */
  lemma RecordedNext(db: Db, list: seq<Migration>, k: nat, n: nat)
    requires Ascending(list) && HasPrefix(db, list, k) && k < |list|
    requires ExecuteScript(list[k].up, db.schema).ok && Repeatable(list[k].up)
    ensures !Stuck(Up(db, list, None, [LostAfter(n)]).db, list, k)
  {
    LostUp(db, list, k, n);
    var lost := Up(db, list, None, [LostAfter(n)]).db;
    RepeatsExactly(list[k].up, Min(n, |list[k].up|), db.schema);
    var e := UpIsLoop(lost, list, Some(1), [], k);
    assert e == k + 1;
    SliceStep(list, k, e);
    InPrefix(list, k, k);
    var attempts := [Attempt(Some(1), [])];
    var after := Up(lost, list, Some(1), []).db;
    assert list[k].version in after.recorded;
    assert attempts[1..] == [];
    assert RunUps(after, list, []) == after;
    assert RunUps(lost, list, attempts) == after;
  }

  /**
   * Migration 0014 and every file of its shape: guarded creations, then a column added without
   * a guard, then statements that do not take it away. Losing the connection anywhere after
   * that column leaves the runner stuck.
   */
  lemma UnguardedColumnSticks(
      db: Db, list: seq<Migration>, k: nat, creations: Script, t: string, c: string, d: string,
      rest: Script, n: nat)
    requires Ascending(list) && HasPrefix(db, list, k) && k < |list|
    requires list[k].up == creations + [AddColumn(t, c, d)] + rest
    requires forall s | s in creations :: s.CreateTableIfNotExists?
    requires forall s | s in rest :: !SchemaCells.Unsettling(s, t, c)
    requires ExecuteScript(list[k].up, db.schema).ok && |creations| < n
    ensures Stuck(Up(db, list, None, [LostAfter(n)]).db, list, k)
  {
    var script := list[k].up;
    var s, m := |creations|, Min(n, |script|);
    assert forall i | 0 <= i < s :: script[i] == creations[i] && creations[i] in creations;
    assert script[s] == AddColumn(t, c, d);
    var between := script[s + 1..m];
    forall i | 0 <= i < |between| ensures !SchemaCells.Unsettling(between[i], t, c) {
      assert between[i] == rest[i] && rest[i] in rest;
    }
    JammedByItself(script, db.schema, s);
    StaysDefined(script, s + 1, m, db.schema, t, c);
    LostUp(db, list, k, n);
    JammedIsStuck(Up(db, list, None, [LostAfter(n)]).db, list, k, s);
  }

  /** A column that is there stays there through statements that do not unsettle it. */
  lemma StaysDefined(script: Script, i: nat, j: nat, schema: Schema, t: string, c: string)
    requires i <= j <= |script| && ExecuteScript(script, schema).ok
    requires SchemaCells.CellOf(ExecuteScript(script[..i], schema).schema, t, c).Defined?
    requires SchemaCells.Quiet(script[i..j], t, c)
    ensures SchemaCells.CellOf(ExecuteScript(script[..j], schema).schema, t, c).Defined?
  {
    var x := SchemaCells.CellOf(schema, t, c);
    PrefixRuns(script, i, schema);
    PrefixRuns(script, j, schema);
    SchemaCells.RunByCell(script[..i], schema, t, c);
    SchemaCells.RunByCell(script[..j], schema, t, c);
    assert script[..j][..i] == script[..i] && script[..j][i..] == script[i..j];
    SchemaCells.CellRunSplit(script[..j], i, t, c, x);
    SchemaCells.QuietDefined(script[i..j], t, c,
      SchemaCells.CellOf(ExecuteScript(script[..i], schema).schema, t, c).definition);
  }
}
