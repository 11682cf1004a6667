/** What the transactions on holds leave behind: hold rows, bookings, and a ledger that adds up. */
module CapacityCommits {
  import opened Common
  import opened CapacityHolds

  // ---------------------------------------------------------------- who may remove a hold

  /** A live hold row of this user that has not run out. */
  predicate ActiveFor(s: State, id: nat, userId: nat) {
    && id < |s.holds| && s.holds[id].live
    && s.holds[id].hold.userId == userId && s.clock < s.holds[id].hold.expiresAt
  }

  predicate RanOut(s: State, id: nat) {
    id < |s.holds| && s.holds[id].live && s.holds[id].hold.expiresAt <= s.clock
  }

  predicate NoneTwice(ids: seq<nat>) {
    forall i, j | 0 <= i < |ids| && 0 <= j < |ids| && ids[i] == ids[j] :: i == j
  }

  /** A transaction begins that has read these hold rows. */
  predicate BeganWith(s: State, t: State, ids: seq<nat>) {
    && |t.txs| == |s.txs| + 1
    && var x := t.txs[|s.txs|];
    && x.status == Working && |x.taken| == |ids|
    && forall i | 0 <= i < |ids| ::
         ids[i] < |s.holds| && x.taken[i] == Taken(ids[i], s.holds[ids[i]].hold.span)
  }

  predicate AllActiveFor(s: State, ids: seq<nat>, userId: nat) {
    NoneTwice(ids) && forall i | 0 <= i < |ids| :: ActiveFor(s, ids[i], userId)
  }

  lemma ActiveExact(s: State, ids: seq<nat>, userId: nat)
    ensures AllActive(s, ids, userId) <==> AllActiveFor(s, ids, userId)
  {
  }

  /**
   * Holds are released exactly by their owner, all of them active and none named twice;
   * otherwise nothing happens.
   */
  lemma ReleaseBeginsExactly(s: State, ids: seq<nat>, userId: nat)
    ensures var t := Step(s, BeginRelease(ids, userId));
            if AllActiveFor(s, ids, userId)
            then BeganWith(s, t, ids) && t.txs[|s.txs|].purpose == Restore else t == s
  {
    ActiveExact(s, ids, userId);
  }

  /** Likewise they are consumed. */
  lemma ConsumeBeginsExactly(s: State, ids: seq<nat>, userId: nat)
    ensures var t := Step(s, BeginConsume(ids, userId));
            if AllActiveFor(s, ids, userId)
            then BeganWith(s, t, ids) && t.txs[|s.txs|].purpose == Consume else t == s
  {
    ActiveExact(s, ids, userId);
  }

  /** The sweep takes exactly rows that have run out, anybody's. */
  lemma SweepBeginsExactly(s: State, ids: seq<nat>)
    ensures var t := Step(s, BeginSweep(ids));
            if NoneTwice(ids) && (forall i | 0 <= i < |ids| :: RanOut(s, ids[i]))
            then BeganWith(s, t, ids) && t.txs[|s.txs|].purpose == Restore else t == s
  {
  }

  // ---------------------------------------------------------------- a write

  /**
   * The next write of a transaction whose row is free: a reservation of more than it sees there
   * ends; any other locks the row, and then sees it changed by that much and no other row.
   */
  lemma AdvanceExact(s: State, tx: nat, slot: Slot, delta: int)
    requires IsWorking(s, tx) && s.txs[tx].done < |s.txs[tx].work|
    requires s.txs[tx].work[s.txs[tx].done] == Write(slot, delta)
    requires slot !in s.locks || s.locks[slot] == tx
    ensures var x, t := s.txs[tx], Step(s, Advance(tx));
            var refused := x.purpose.Reserve? && Seen(s, x, slot) < x.purpose.quantity;
            && |t.txs| == |s.txs| && t.rows == s.rows && t.holds == s.holds && t.ledger == s.ledger
            && (t.txs[tx].status == Aborted <==> refused)
            && (!refused ==>
                  && t.txs[tx].status == Working && t.txs[tx].done == x.done + 1
                  && t.locks == s.locks[slot := tx]
                  && forall o :: Seen(t, t.txs[tx], o) ==
                                 Seen(s, x, o) + (if o == slot then delta else 0))
  {
  }

  // ---------------------------------------------------------------- a commit

  predicate ReadBy(t: Tx, id: nat) {
    exists k | 0 <= k < |t.taken| :: t.taken[k].id == id
  }

  lemma {:induction false} DeletedExact(
      holds: seq<HoldRow>, taken: seq<Taken>, n: nat, id: nat)
    requires n <= |taken| && (forall k | 0 <= k < |taken| :: taken[k].id < |holds|) && id < |holds|
    ensures var r := Deleted(holds, taken, n);
            && r[id].hold == holds[id].hold
            && (r[id].live <==>
                  holds[id].live && forall k | 0 <= k < n :: taken[k].id != id)
    decreases n
  {
    if n > 0 {
      DeletedExact(holds, taken, n - 1, id);
    }
  }

  /** Ready to commit. */
  predicate AtEnd(s: State, tx: nat) {
    IsWorking(s, tx) && s.txs[tx].done == |s.txs[tx].work|
    && forall k | 0 <= k < |s.txs[tx].taken| :: s.txs[tx].taken[k].id < |s.holds|
  }

  /**
   * A commit writes the rows as the transaction sees them, appends its entries to the ledger and
   * frees exactly its locks.
   */
  lemma CommitWrites(s: State, tx: nat)
    requires AtEnd(s, tx)
    ensures var t := Step(s, Commit(tx));
            && |t.txs| == |s.txs| && t.txs[tx].status == Committed
            && t.ledger == s.ledger + s.txs[tx].entries
            && t.locks == Unlocked(s.locks, tx) && t.capacity == s.capacity
            && forall slot :: Available(t, slot) == Seen(s, s.txs[tx], slot)
  {
    var x, t := s.txs[tx], Step(s, Commit(tx));
    CommittedRows(s, tx);
    forall slot ensures Available(t, slot) == Seen(s, x, slot) {
      RowAfter(s, t, x.buffer, slot);
    }
  }

  /** Ending a transaction frees exactly its locks. */
  lemma UnlockedExact(locks: map<Slot, nat>, tx: nat, slot: Slot)
    ensures slot in Unlocked(locks, tx) <==> slot in locks && locks[slot] != tx
    ensures slot in Unlocked(locks, tx) ==> Unlocked(locks, tx)[slot] == locks[slot]
  {
  }

  /** A reservation leaves as many new hold rows as it asked for, and the others as they were. */
  lemma ReservationCommits(s: State, tx: nat)
    requires AtEnd(s, tx) && s.txs[tx].purpose.Reserve?
    ensures var p, t := s.txs[tx].purpose, Step(s, Commit(tx));
            && s.holds <= t.holds && |t.holds| == |s.holds| + p.quantity && t.booked == s.booked
            && forall i | |s.holds| <= i < |t.holds| ::
                 t.holds[i] == HoldRow(Hold(p.span, p.userId, p.expiresAt), true)
  {
  }

  /** A removal deletes exactly the hold rows it has read; consuming them books their spans. */
  lemma RemovalCommits(s: State, tx: nat)
    requires AtEnd(s, tx) && !s.txs[tx].purpose.Reserve?
    ensures var x, t := s.txs[tx], Step(s, Commit(tx));
            && |t.holds| == |s.holds|
            && (forall id: nat | id < |s.holds| ::
                  t.holds[id].hold == s.holds[id].hold
                  && (t.holds[id].live <==> s.holds[id].live && !ReadBy(x, id)))
            && (x.purpose.Restore? ==> t.booked == s.booked)
            && (x.purpose.Consume? ==>
                  && |t.booked| == |s.booked| + |x.taken| && s.booked <= t.booked
                  && forall k | 0 <= k < |x.taken| :: t.booked[|s.booked| + k] == x.taken[k].span)
  {
    var x := s.txs[tx];
    forall id: nat | id < |s.holds|
      ensures var r := Deleted(s.holds, x.taken, |x.taken|);
              r[id].hold == s.holds[id].hold && (r[id].live <==> s.holds[id].live && !ReadBy(x, id))
    {
      DeletedExact(s.holds, x.taken, |x.taken|, id);
    }
  }

  // ---------------------------------------------------------------- the ledger's trail

  /** Each entry says what its row held before and after it, by the entries before. */
  predicate LedgerOk(s: State) {
    forall k | 0 <= k < |s.ledger| ::
      var e := s.ledger[k];
      && e.before == Capacity(s, e.slot) + EntrySum(s.ledger, k, e.slot)
      && e.after == e.before + e.delta
  }

  /** An entry to come, by the committed row, which is locked, and the entries before it. */
  predicate EntryTrail(s: State, tx: nat, t: Tx, k: nat)
    requires k < |t.entries|
  {
    var e := t.entries[k];
    && e.slot in s.locks && s.locks[e.slot] == tx
    && e.before == Available(s, e.slot) + EntrySum(t.entries, k, e.slot)
    && e.after == e.before + e.delta
  }

  predicate TxTrail(s: State, tx: nat, t: Tx) {
    t.status == Working ==> forall k | 0 <= k < |t.entries| :: EntryTrail(s, tx, t, k)
  }

  predicate TrailOk(s: State) {
    LedgerOk(s) && forall i | 0 <= i < |s.txs| :: TxTrail(s, i, s.txs[i])
  }

  lemma {:induction false} EntrySumSame(a: seq<Entry>, b: seq<Entry>, n: nat, slot: Slot)
    requires n <= |a| && n <= |b| && forall i | 0 <= i < n :: a[i] == b[i]
    ensures EntrySum(a, n, slot) == EntrySum(b, n, slot)
  {
    if n > 0 {
      EntrySumSame(a, b, n - 1, slot);
    }
  }

  /** Steps that leave the ledger, and what a transaction at work has locked and written. */
  lemma TrailStays(s: State, t: State)
    requires TrailOk(s) && t.ledger == s.ledger && t.capacity == s.capacity && t.rows == s.rows
    requires |s.txs| <= |t.txs|
    requires forall i | 0 <= i < |t.txs| && t.txs[i].status == Working ::
               if i < |s.txs| then
                 && s.txs[i] == t.txs[i]
                 && forall slot | slot in s.locks && s.locks[slot] == i ::
                      slot in t.locks && t.locks[slot] == i
               else t.txs[i].entries == []
    ensures TrailOk(t)
  {
    forall i | 0 <= i < |t.txs| ensures TxTrail(t, i, t.txs[i]) {
      if t.txs[i].status == Working && i < |s.txs| {
        assert TxTrail(s, i, s.txs[i]);
        forall k | 0 <= k < |t.txs[i].entries| ensures EntryTrail(t, i, t.txs[i], k) {
          assert EntryTrail(s, i, s.txs[i], k);
        }
      }
    }
  }

  lemma SeenBySum(s: State, tx: nat, slot: Slot)
    requires Inv(s) && IsWorking(s, tx)
    ensures var x := s.txs[tx];
            Seen(s, x, slot) == Available(s, slot) + EntrySum(x.entries, |x.entries|, slot)
  {
    var x := s.txs[tx];
    assert TxOk(s, tx, x);
    EntriesSum(x.entries, x.work, x.done, slot);
  }

  lemma WriteKeepsTrail(s: State, tx: nat)
    requires Inv(s) && TrailOk(s) && IsWorking(s, tx) && s.txs[tx].done < |s.txs[tx].work|
    requires CanLock(s, tx, s.txs[tx].work[s.txs[tx].done].slot)
    ensures var x := s.txs[tx];
            var slot := x.work[x.done].slot;
            TrailOk(WithTx(s, tx, Written(x, Seen(s, x, slot))).(locks := s.locks[slot := tx]))
  {
    var x := s.txs[tx];
    var slot := x.work[x.done].slot;
    var next := Written(x, Seen(s, x, slot));
    var t := WithTx(s, tx, next).(locks := s.locks[slot := tx]);
    SeenBySum(s, tx, slot);
    WrittenTrail(s, t, tx, next);
    forall i | 0 <= i < |t.txs| && i != tx ensures TxTrail(t, i, t.txs[i]) {
      assert TxTrail(s, i, s.txs[i]);
      if t.txs[i].status == Working {
        forall k | 0 <= k < |t.txs[i].entries| ensures EntryTrail(t, i, t.txs[i], k) {
          assert EntryTrail(s, i, s.txs[i], k);
        }
      }
    }
  }

  lemma WrittenTrail(s: State, t: State, tx: nat, next: Tx)
    requires IsWorking(s, tx) && s.txs[tx].done < |s.txs[tx].work| && TxTrail(s, tx, s.txs[tx])
    requires var x := s.txs[tx];
             var slot := x.work[x.done].slot;
             && next == Written(x, Seen(s, x, slot)) && t.locks == s.locks[slot := tx]
             && Seen(s, x, slot) == Available(s, slot) + EntrySum(x.entries, |x.entries|, slot)
    requires t.rows == s.rows && t.capacity == s.capacity
    ensures TxTrail(t, tx, next)
  {
    var x := s.txs[tx];
    forall k | 0 <= k < |next.entries| ensures EntryTrail(t, tx, next, k) {
      EntrySumSame(x.entries, next.entries, k, next.entries[k].slot);
      if k < |x.entries| {
        assert EntryTrail(s, tx, x, k) && next.entries[k] == x.entries[k];
      }
    }
  }

  lemma AppendedLedger(s: State, t: State, tx: nat)
    requires LedgerOk(s) && IsWorking(s, tx) && TxTrail(s, tx, s.txs[tx])
    requires forall slot :: Balanced(s, slot)
    requires t.capacity == s.capacity && t.ledger == s.ledger + s.txs[tx].entries
    ensures LedgerOk(t)
  {
    var x := s.txs[tx];
    forall k | 0 <= k < |t.ledger|
      ensures var e := t.ledger[k];
              && e.before == Capacity(t, e.slot) + EntrySum(t.ledger, k, e.slot)
              && e.after == e.before + e.delta
    {
      var slot := t.ledger[k].slot;
      if k < |s.ledger| {
        EntrySumSame(s.ledger, t.ledger, k, slot);
      } else {
        var j := k - |s.ledger|;
        assert t.ledger[k] == x.entries[j];
        AppendedEntry(s, t, tx, j);
      }
    }
  }

  lemma AppendedEntry(s: State, t: State, tx: nat, j: nat)
    requires IsWorking(s, tx) && j < |s.txs[tx].entries| && EntryTrail(s, tx, s.txs[tx], j)
    requires Balanced(s, s.txs[tx].entries[j].slot)
    requires t.ledger == s.ledger + s.txs[tx].entries
    ensures var e := s.txs[tx].entries[j];
            && e.before == Capacity(s, e.slot) + EntrySum(t.ledger, |s.ledger| + j, e.slot)
            && e.after == e.before + e.delta
  {
    EntrySumConcat(s.ledger, s.txs[tx].entries, j, s.txs[tx].entries[j].slot);
  }

  lemma CommitKeepsTrail(s: State, tx: nat)
    requires Inv(s) && TrailOk(s) && AtEnd(s, tx)
    ensures TrailOk(Step(s, Commit(tx)))
  {
    var x, t := s.txs[tx], Step(s, Commit(tx));
    assert TxTrail(s, tx, x) && TxOk(s, tx, x);
    CommitWrites(s, tx);
    AppendedLedger(s, t, tx);
    forall i | 0 <= i < |t.txs| ensures TxTrail(t, i, t.txs[i]) {
      assert TxTrail(s, i, s.txs[i]);
      if i != tx && t.txs[i].status == Working {
        forall k | 0 <= k < |t.txs[i].entries| ensures EntryTrail(t, i, t.txs[i], k) {
          assert EntryTrail(s, i, s.txs[i], k);
          assert t.txs[i].entries[k].slot !in x.buffer;
        }
      }
    }
  }

  lemma EndKeepsTrail(s: State, tx: nat)
    requires TrailOk(s) && IsWorking(s, tx)
    ensures TrailOk(Ended(s, tx, Aborted))
  {
    TrailStays(s, Ended(s, tx, Aborted));
  }

  lemma StartKeepsTrail(s: State, purpose: Purpose, taken: seq<Taken>, work: seq<Write>)
    requires TrailOk(s)
    ensures TrailOk(Started(s, purpose, taken, work))
  {
    TrailStays(s, Started(s, purpose, taken, work));
  }

  lemma BeginKeepsTrail(s: State, a: Action)
    requires TrailOk(s) && (a.BeginReserve? || a.BeginRelease? || a.BeginConsume? || a.BeginSweep?)
    ensures TrailOk(Step(s, a))
  {
    match a
    case BeginReserve(span, quantity, userId, expiresAt) =>
      StartKeepsTrail(s, Reserve(span, quantity, userId, expiresAt), [],
                      SlotWrites(span.slots, 0 - quantity));
    case BeginRelease(ids, userId) =>
      if AllActive(s, ids, userId) {
        StartKeepsTrail(s, Restore, Read(s, ids), RestoreWork(Read(s, ids)));
      }
    case BeginConsume(ids, userId) =>
      if AllActive(s, ids, userId) {
        StartKeepsTrail(s, Consume, Read(s, ids), []);
      }
    case BeginSweep(ids) =>
      if AllExpired(s, ids) {
        StartKeepsTrail(s, Restore, Read(s, ids), RestoreWork(Read(s, ids)));
      }
  }

  lemma AdvanceKeepsTrail(s: State, tx: nat)
    requires Inv(s) && TrailOk(s) && IsWorking(s, tx) && s.txs[tx].done < |s.txs[tx].work|
    requires CanLock(s, tx, s.txs[tx].work[s.txs[tx].done].slot)
    ensures TrailOk(Advanced(s, tx))
  {
    var x := s.txs[tx];
    if x.purpose.Reserve? && Seen(s, x, x.work[x.done].slot) < x.purpose.quantity {
      EndKeepsTrail(s, tx);
    } else {
      WriteKeepsTrail(s, tx);
    }
  }

  lemma StepKeepsTrail(s: State, a: Action)
    requires Inv(s) && TrailOk(s)
    ensures TrailOk(Step(s, a))
  {
    match a
    case Advance(tx) =>
      if IsWorking(s, tx) && s.txs[tx].done < |s.txs[tx].work|
         && CanLock(s, tx, s.txs[tx].work[s.txs[tx].done].slot)
      {
        AdvanceKeepsTrail(s, tx);
      }
    case Commit(tx) =>
      if AtEnd(s, tx) {
        CommitKeepsTrail(s, tx);
      }
    case Abort(tx) =>
      if IsWorking(s, tx) {
        EndKeepsTrail(s, tx);
      }
    case Tick(seconds) =>
      TrailStays(s, s.(clock := s.clock + seconds));
    case _ =>
      BeginKeepsTrail(s, a);
  }

  lemma {:induction false} RunKeepsTrail(s: State, actions: seq<Action>)
    requires Inv(s) && TrailOk(s)
    ensures TrailOk(Run(s, actions))
    decreases |actions|
  {
    if actions != [] {
      StepKeepsInv(s, actions[0]);
      StepKeepsTrail(s, actions[0]);
      RunKeepsTrail(Step(s, actions[0]), actions[1..]);
    }
  }

  /**
   * Over every run, with any transactions interleaved: each ledger entry states the quantity its
   * row had just before it, which is the capacity with all earlier entries of the row, and the
   * quantity after it.
   */
  lemma LedgerAddsUp(capacity: map<nat, nat>, actions: seq<Action>, k: nat)
    requires k < |Run(Init(capacity), actions).ledger|
    ensures var s := Run(Init(capacity), actions);
            var e := s.ledger[k];
            && e.before == Capacity(s, e.slot) + EntrySum(s.ledger, k, e.slot)
            && e.after == e.before + e.delta
  {
    Reachable(capacity, []);
    assert Inv(Init(capacity));
    RunKeepsTrail(Init(capacity), actions);
  }

  // ---------------------------------------------------------------- a reservation by itself

  function Advances(tx: nat, n: nat): seq<Action> {
    if n == 0 then [] else [Advance(tx)] + Advances(tx, n - 1)
  }

  lemma {:induction false} AbortedStays(s: State, tx: nat, n: nat)
    requires tx < |s.txs| && s.txs[tx].status == Aborted
    ensures Run(s, Advances(tx, n)) == s
  {
    if n > 0 {
      assert Advances(tx, n)[1..] == Advances(tx, n - 1);
      AbortedStays(s, tx, n - 1);
    }
  }

  /** A reservation at work whose rows from slot `i` on nobody else has locked. */
  predicate Reserving(s: State, tx: nat, span: Span, quantity: nat, i: nat) {
    && IsWorking(s, tx) && i <= |span.slots|
    && var x := s.txs[tx];
    && x.purpose.Reserve? && x.purpose.span == span && x.purpose.quantity == quantity
    && x.taken == [] && x.work == SlotWrites(span.slots, 0 - quantity) && x.done == i
    && forall j | i <= j < |span.slots| :: CanLock(s, tx, span.slots[j])
  }

  /** It sees at least `quantity` in each of those rows. */
  predicate Enough(s: State, tx: nat, span: Span, quantity: nat, i: nat)
    requires tx < |s.txs|
  {
    forall j | i <= j < |span.slots| :: quantity <= Seen(s, s.txs[tx], span.slots[j])
  }

  predicate DistinctSlots(span: Span) {
    forall i, j | 0 <= i < j < |span.slots| :: span.slots[i] != span.slots[j]
  }

  lemma ReservesOneMore(s: State, tx: nat, span: Span, quantity: nat, i: nat)
    requires Reserving(s, tx, span, quantity, i) && i < |span.slots| && DistinctSlots(span)
    ensures var t := Step(s, Advance(tx));
            && tx < |t.txs|
            && if Seen(s, s.txs[tx], span.slots[i]) < quantity then t.txs[tx].status == Aborted
               else Reserving(t, tx, span, quantity, i + 1)
                    && (Enough(t, tx, span, quantity, i + 1) <==> Enough(s, tx, span, quantity, i))
  {
    AdvanceExact(s, tx, span.slots[i], 0 - quantity);
    var t := Step(s, Advance(tx));
    if t.txs[tx].status == Working {
      forall j | i + 1 <= j < |span.slots|
        ensures CanLock(t, tx, span.slots[j])
        ensures Seen(t, t.txs[tx], span.slots[j]) == Seen(s, s.txs[tx], span.slots[j])
      {
      }
    }
  }

  lemma {:induction false} ReservesAll(s: State, tx: nat, span: Span, quantity: nat, i: nat)
    requires Reserving(s, tx, span, quantity, i) && DistinctSlots(span)
    ensures var t := Run(s, Advances(tx, |span.slots| - i));
            && tx < |t.txs|
            && if Enough(s, tx, span, quantity, i)
               then Reserving(t, tx, span, quantity, |span.slots|)
               else t.txs[tx].status == Aborted
    decreases |span.slots| - i
  {
    var n := |span.slots| - i;
    if n > 0 {
      var t := Step(s, Advance(tx));
      ReservesOneMore(s, tx, span, quantity, i);
      assert Advances(tx, n)[1..] == Advances(tx, n - 1);
      if t.txs[tx].status == Aborted {
        AbortedStays(t, tx, n - 1);
      } else {
        ReservesAll(t, tx, span, quantity, i + 1);
      }
    }
  }

  /**
   * A reservation that nobody disturbs, on rows that nobody has locked, is granted exactly when
   * every day of its range has at least the quantity it asks for.
   */
  lemma GrantedExactly(s: State, span: Span, quantity: nat, userId: nat, expiresAt: nat)
    requires DistinctSlots(span) && forall slot | slot in span.slots :: slot !in s.locks
    ensures var tx := |s.txs|;
            var began := Step(s, BeginReserve(span, quantity, userId, expiresAt));
            var t := Step(Run(began, Advances(tx, |span.slots|)), Commit(tx));
            && tx < |t.txs| && t.txs[tx].status in {Committed, Aborted}
            && (t.txs[tx].status == Committed <==>
                forall slot | slot in span.slots :: quantity <= Available(s, slot))
  {
    var tx := |s.txs|;
    var began := Step(s, BeginReserve(span, quantity, userId, expiresAt));
    forall j | 0 <= j < |span.slots|
      ensures CanLock(began, tx, span.slots[j])
      ensures Seen(began, began.txs[tx], span.slots[j]) == Available(s, span.slots[j])
    {
      assert span.slots[j] in span.slots;
    }
    ReservesAll(began, tx, span, quantity, 0);
    var u := Run(began, Advances(tx, |span.slots|));
    if Enough(began, tx, span, quantity, 0) {
      CommitWrites(u, tx);
    }
  }
}
