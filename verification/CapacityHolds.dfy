/**
 * Reservation holds and the capacity they consume: transactions that lock calendar rows one by
 * one, and that read hold rows without locking them, in any interleaving.
 */
module CapacityHolds {
  import opened Common

  /** One unit's calendar row for one date. */
  datatype Slot = Slot(unit: nat, date: string)

  /** A unit and a requested range, with the slots the range consumes, in date order. */
  datatype Span = Span(unit: nat, dateFrom: string, dateTo: string, slots: seq<Slot>)

  /** One row of `reservation_holds`: one unit of capacity. */
  datatype Hold = Hold(span: Span, userId: nat, expiresAt: nat)

  /** A hold row by its id, which is its index; a deleted one stays as not live. */
  datatype HoldRow = HoldRow(hold: Hold, live: bool)

  datatype Entry = Entry(slot: Slot, delta: int, before: int, after: int)

  datatype Purpose =
    | Reserve(span: Span, quantity: nat, userId: nat, expiresAt: nat)
    // releasing holds and sweeping expired ones: capacity comes back
    | Restore
    // turning holds into a booking: capacity stays consumed
    | Consume

  datatype Status = Working | Committed | Aborted

  /** A hold row as a transaction has read it. */
  datatype Taken = Taken(id: nat, span: Span)

  datatype Write = Write(slot: Slot, delta: int)

  /**
   * A transaction: the hold rows it read, its writes in order, how many of them it has made,
   * and what it has written so far to the rows it has locked.
   */
  datatype Tx = Tx(
    purpose: Purpose, taken: seq<Taken>, work: seq<Write>, done: nat,
    buffer: map<Slot, int>, entries: seq<Entry>, status: Status)

  /** The committed state, with the row locks and the transactions; `phantoms` is history. */
  datatype State = State(
    capacity: map<nat, nat>, rows: map<Slot, int>, holds: seq<HoldRow>, booked: seq<Span>,
    ledger: seq<Entry>, locks: map<Slot, nat>, txs: seq<Tx>, clock: nat, phantoms: seq<Span>)

  function Init(capacity: map<nat, nat>): State {
    State(capacity, map[], [], [], [], map[], [], 0, [])
  }

  // ---------------------------------------------------------------- counting

  function Capacity(s: State, slot: Slot): nat {
    if slot.unit in s.capacity then s.capacity[slot.unit] else 1
  }

  /** A slot without a row has its default capacity. */
  function Available(s: State, slot: Slot): int {
    if slot in s.rows then s.rows[slot] else Capacity(s, slot)
  }

  function Covers(span: Span, slot: Slot): nat {
    multiset(span.slots)[slot]
  }

  /** How many of the first `n` spans cover a slot. */
  function SpanCount(spans: seq<Span>, n: nat, slot: Slot): nat
    requires n <= |spans|
  {
    if n == 0 then 0 else SpanCount(spans, n - 1, slot) + Covers(spans[n - 1], slot)
  }

  function LiveCount(holds: seq<HoldRow>, n: nat, slot: Slot): nat
    requires n <= |holds|
  {
    if n == 0 then 0
    else
      LiveCount(holds, n - 1, slot)
      + (if holds[n - 1].live then Covers(holds[n - 1].hold.span, slot) else 0)
  }

  function Held(s: State, slot: Slot): nat {
    LiveCount(s.holds, |s.holds|, slot)
  }

  function Booked(s: State, slot: Slot): nat {
    SpanCount(s.booked, |s.booked|, slot)
  }

  function Phantoms(s: State, slot: Slot): nat {
    SpanCount(s.phantoms, |s.phantoms|, slot)
  }

  function DeltaSum(work: seq<Write>, n: nat, slot: Slot): int
    requires n <= |work|
  {
    if n == 0 then 0
    else DeltaSum(work, n - 1, slot) + (if work[n - 1].slot == slot then work[n - 1].delta else 0)
  }

  function EntrySum(ledger: seq<Entry>, n: nat, slot: Slot): int
    requires n <= |ledger|
  {
    if n == 0 then 0
    else EntrySum(ledger, n - 1, slot) + (if ledger[n - 1].slot == slot then ledger[n - 1].delta else 0)
  }

  // ---------------------------------------------------------------- what transactions write

  /** One write of `delta` for each slot. */
  function SlotWrites(slots: seq<Slot>, delta: int): (w: seq<Write>)
    ensures |w| == |slots|
  {
    seq(|slots|, i requires 0 <= i < |slots| => Write(slots[i], delta))
  }

  datatype Group = Group(span: Span, count: nat)

  function AddToGroups(groups: seq<Group>, span: Span): seq<Group> {
    if groups == [] then [Group(span, 1)]
    else if groups[0].span == span then [Group(span, groups[0].count + 1)] + groups[1..]
    else [groups[0]] + AddToGroups(groups[1..], span)
  }

  /** `groupHoldsByRange`: one group for each unit and range, in order of first appearance. */
  function Groups(taken: seq<Taken>, n: nat): seq<Group>
    requires n <= |taken|
  {
    if n == 0 then [] else AddToGroups(Groups(taken, n - 1), taken[n - 1].span)
  }

  function GroupWrites(groups: seq<Group>): seq<Write> {
    if groups == [] then []
    else SlotWrites(groups[0].span.slots, groups[0].count) + GroupWrites(groups[1..])
  }

  function RestoreWork(taken: seq<Taken>): seq<Write> {
    GroupWrites(Groups(taken, |taken|))
  }

  // ---------------------------------------------------------------- steps

  datatype Action =
    | BeginReserve(span: Span, quantity: nat, userId: nat, expiresAt: nat)
    | BeginRelease(ids: seq<nat>, userId: nat)
    | BeginConsume(ids: seq<nat>, userId: nat)
    // the ids are those the query for expired rows returned
    | BeginSweep(ids: seq<nat>)
    // lock the next calendar row, check it and write it
    | Advance(tx: nat)
    | Commit(tx: nat)
    // a veto, a conflict elsewhere, a deadlock, a lost connection
    | Abort(tx: nat)
    | Tick(seconds: nat)

  predicate Distinct(ids: seq<nat>) {
    forall i, j | 0 <= i < j < |ids| :: ids[i] != ids[j]
  }

  /** `findActiveByIds` found every id asked for. */
  predicate AllActive(s: State, ids: seq<nat>, userId: nat) {
    Distinct(ids)
    && forall i | 0 <= i < |ids| ::
         ids[i] < |s.holds| && s.holds[ids[i]].live
         && s.holds[ids[i]].hold.userId == userId && s.holds[ids[i]].hold.expiresAt > s.clock
  }

  predicate AllExpired(s: State, ids: seq<nat>) {
    Distinct(ids)
    && forall i | 0 <= i < |ids| ::
         ids[i] < |s.holds| && s.holds[ids[i]].live && s.holds[ids[i]].hold.expiresAt <= s.clock
  }

  function Read(s: State, ids: seq<nat>): (taken: seq<Taken>)
    requires forall i | 0 <= i < |ids| :: ids[i] < |s.holds|
    ensures |taken| == |ids|
  {
    seq(|ids|, i requires 0 <= i < |ids| => Taken(ids[i], s.holds[ids[i]].hold.span))
  }

  function Started(s: State, purpose: Purpose, taken: seq<Taken>, work: seq<Write>): State {
    s.(txs := s.txs + [Tx(purpose, taken, work, 0, map[], [], Working)])
  }

  predicate IsWorking(s: State, tx: nat) {
    tx < |s.txs| && s.txs[tx].status == Working
  }

  /** What a transaction sees in a row it has locked: its own write, or the committed value. */
  function Seen(s: State, t: Tx, slot: Slot): int {
    if slot in t.buffer then t.buffer[slot] else Available(s, slot)
  }

  /** The row is locked by no other transaction. */
  predicate CanLock(s: State, tx: nat, slot: Slot) {
    slot !in s.locks || s.locks[slot] == tx
  }

  /** All locks of a transaction that ends are released. */
  function Unlocked(locks: map<Slot, nat>, tx: nat): map<Slot, nat> {
    map slot | slot in locks && locks[slot] != tx :: locks[slot]
  }

  function WithTx(s: State, tx: nat, t: Tx): State
    requires tx < |s.txs|
  {
    s.(txs := s.txs[tx := t])
  }

  function Ended(s: State, tx: nat, status: Status): State
    requires tx < |s.txs|
  {
    WithTx(s, tx, s.txs[tx].(status := status)).(locks := Unlocked(s.locks, tx))
  }

  /** A transaction after its next write, to a row that held `before`. */
  function Written(t: Tx, before: int): Tx
    requires t.done < |t.work|
  {
    var w := t.work[t.done];
    var after := before + w.delta;
    t.(done := t.done + 1, buffer := t.buffer[w.slot := after],
       entries := t.entries + [Entry(w.slot, w.delta, before, after)])
  }

  /** The next write: a reservation conflicts when the row has less than it asks for. */
  function Advanced(s: State, tx: nat): State
    requires tx < |s.txs| && s.txs[tx].done < |s.txs[tx].work|
  {
    var t := s.txs[tx];
    var slot := t.work[t.done].slot;
    var before := Seen(s, t, slot);
    if t.purpose.Reserve? && before < t.purpose.quantity then Ended(s, tx, Aborted)
    else WithTx(s, tx, Written(t, before)).(locks := s.locks[slot := tx])
  }

  /** Deletes the first `n` hold rows read, those that are still there. */
  function Deleted(holds: seq<HoldRow>, taken: seq<Taken>, n: nat): (r: seq<HoldRow>)
    requires n <= |taken| && forall i | 0 <= i < |taken| :: taken[i].id < |holds|
    ensures |r| == |holds|
  {
    if n == 0 then holds
    else
      var r := Deleted(holds, taken, n - 1);
      r[taken[n - 1].id := r[taken[n - 1].id].(live := false)]
  }

  /** The spans, of the first `n` hold rows read, whose row was gone when it was to be deleted. */
  function Gone(holds: seq<HoldRow>, taken: seq<Taken>, n: nat): seq<Span>
    requires n <= |taken| && forall i | 0 <= i < |taken| :: taken[i].id < |holds|
  {
    if n == 0 then []
    else
      Gone(holds, taken, n - 1)
      + (if Deleted(holds, taken, n - 1)[taken[n - 1].id].live then [] else [taken[n - 1].span])
  }

  function TakenSpans(taken: seq<Taken>): (spans: seq<Span>)
    ensures |spans| == |taken|
  {
    seq(|taken|, i requires 0 <= i < |taken| => taken[i].span)
  }

  function NewRows(p: Purpose): seq<HoldRow>
    requires p.Reserve?
  {
    seq(p.quantity, _ => HoldRow(Hold(p.span, p.userId, p.expiresAt), true))
  }

  predicate TakenInRange(s: State, t: Tx) {
    forall i | 0 <= i < |t.taken| :: t.taken[i].id < |s.holds|
  }

  function CommittedState(s: State, tx: nat): State
    requires tx < |s.txs| && TakenInRange(s, s.txs[tx])
  {
    var t := s.txs[tx];
    var written := Ended(s, tx, Committed).(rows := s.rows + t.buffer, ledger := s.ledger + t.entries);
    match t.purpose
    case Reserve(_, _, _, _) => written.(holds := s.holds + NewRows(t.purpose))
    case Restore =>
      written.(holds := Deleted(s.holds, t.taken, |t.taken|),
               phantoms := s.phantoms + Gone(s.holds, t.taken, |t.taken|))
    case Consume =>
      written.(holds := Deleted(s.holds, t.taken, |t.taken|),
               booked := s.booked + TakenSpans(t.taken),
               phantoms := s.phantoms + Gone(s.holds, t.taken, |t.taken|))
  }

  /** One step; a step that is not possible does nothing. */
  function Step(s: State, a: Action): State {
    match a
    case BeginReserve(span, quantity, userId, expiresAt) =>
      Started(s, Reserve(span, quantity, userId, expiresAt), [], SlotWrites(span.slots, 0 - quantity))
    case BeginRelease(ids, userId) =>
      if AllActive(s, ids, userId)
      then Started(s, Restore, Read(s, ids), RestoreWork(Read(s, ids)))
      else s
    case BeginConsume(ids, userId) =>
      if AllActive(s, ids, userId) then Started(s, Consume, Read(s, ids), []) else s
    case BeginSweep(ids) =>
      if AllExpired(s, ids)
      then Started(s, Restore, Read(s, ids), RestoreWork(Read(s, ids)))
      else s
    case Advance(tx) =>
      if IsWorking(s, tx) && s.txs[tx].done < |s.txs[tx].work|
         && CanLock(s, tx, s.txs[tx].work[s.txs[tx].done].slot)
      then Advanced(s, tx)
      else s
    case Commit(tx) =>
      if IsWorking(s, tx) && s.txs[tx].done == |s.txs[tx].work| && TakenInRange(s, s.txs[tx])
      then CommittedState(s, tx)
      else s
    case Abort(tx) => if IsWorking(s, tx) then Ended(s, tx, Aborted) else s
    case Tick(seconds) => s.(clock := s.clock + seconds)
  }

  function Run(s: State, actions: seq<Action>): State
    decreases |actions|
  {
    if actions == [] then s else Run(Step(s, actions[0]), actions[1..])
  }

  // ---------------------------------------------------------------- sums

  lemma {:induction false} SlotWritesSum(slots: seq<Slot>, delta: int, n: nat, slot: Slot)
    requires n <= |slots|
    ensures DeltaSum(SlotWrites(slots, delta), n, slot) == delta * multiset(slots[..n])[slot]
  {
    if n == 0 {
      assert slots[..0] == [];
    } else {
      SlotWritesSum(slots, delta, n - 1, slot);
      assert slots[..n] == slots[..n - 1] + [slots[n - 1]];
      OneMore(delta, multiset(slots[..n - 1])[slot]);
    }
  }

  lemma OneMore(d: int, k: int)
    ensures d * (k + 1) == d * k + d
  {
  }

  /** The writes for one span sum up to its cover. */
  lemma SpanWritesSum(span: Span, delta: int, slot: Slot)
    ensures DeltaSum(SlotWrites(span.slots, delta), |span.slots|, slot) == delta * Covers(span, slot)
  {
    SlotWritesSum(span.slots, delta, |span.slots|, slot);
    assert span.slots[..|span.slots|] == span.slots;
  }

  lemma {:induction false} DeltaSumPrefix(a: seq<Write>, b: seq<Write>, n: nat, slot: Slot)
    requires n <= |a|
    ensures DeltaSum(a + b, n, slot) == DeltaSum(a, n, slot)
  {
    if n > 0 {
      DeltaSumPrefix(a, b, n - 1, slot);
    }
  }

  lemma {:induction false} DeltaSumConcat(a: seq<Write>, b: seq<Write>, n: nat, slot: Slot)
    requires n <= |b|
    ensures DeltaSum(a + b, |a| + n, slot) == DeltaSum(a, |a|, slot) + DeltaSum(b, n, slot)
  {
    if n == 0 {
      DeltaSumPrefix(a, b, |a|, slot);
    } else {
      DeltaSumConcat(a, b, n - 1, slot);
      assert (a + b)[|a| + n - 1] == b[n - 1];
    }
  }

  function GroupSum(groups: seq<Group>, slot: Slot): nat {
    if groups == [] then 0
    else groups[0].count * Covers(groups[0].span, slot) + GroupSum(groups[1..], slot)
  }

  lemma {:induction false} AddToGroupsSum(groups: seq<Group>, span: Span, slot: Slot)
    ensures GroupSum(AddToGroups(groups, span), slot) == GroupSum(groups, slot) + Covers(span, slot)
  {
    if groups != [] {
      if groups[0].span == span {
        OneMore(Covers(span, slot), groups[0].count);
        assert AddToGroups(groups, span)[1..] == groups[1..];
      } else {
        AddToGroupsSum(groups[1..], span, slot);
        assert AddToGroups(groups, span)[1..] == AddToGroups(groups[1..], span);
      }
    }
  }

  lemma {:induction false} GroupsSum(taken: seq<Taken>, n: nat, slot: Slot)
    requires n <= |taken|
    ensures GroupSum(Groups(taken, n), slot) == SpanCount(TakenSpans(taken), n, slot)
  {
    if n > 0 {
      GroupsSum(taken, n - 1, slot);
      AddToGroupsSum(Groups(taken, n - 1), taken[n - 1].span, slot);
    }
  }

  lemma {:induction false} GroupWritesSum(groups: seq<Group>, slot: Slot)
    ensures DeltaSum(GroupWrites(groups), |GroupWrites(groups)|, slot) == GroupSum(groups, slot)
  {
    if groups != [] {
      var first, rest := SlotWrites(groups[0].span.slots, groups[0].count), GroupWrites(groups[1..]);
      GroupWritesSum(groups[1..], slot);
      SpanWritesSum(groups[0].span, groups[0].count, slot);
      DeltaSumConcat(first, rest, |rest|, slot);
    }
  }

  /** Grouped or not, restoring gives back one for each hold row read and each slot it covers. */
  lemma RestoreWorkSum(taken: seq<Taken>, slot: Slot)
    ensures DeltaSum(RestoreWork(taken), |RestoreWork(taken)|, slot)
         == SpanCount(TakenSpans(taken), |taken|, slot)
  {
    GroupsSum(taken, |taken|, slot);
    GroupWritesSum(Groups(taken, |taken|), slot);
  }

  lemma {:induction false} GroupWritesPositive(groups: seq<Group>)
    ensures forall i | 0 <= i < |GroupWrites(groups)| :: GroupWrites(groups)[i].delta >= 0
  {
    if groups != [] {
      GroupWritesPositive(groups[1..]);
    }
  }

  lemma {:induction false} SpanCountConcat(a: seq<Span>, b: seq<Span>, n: nat, slot: Slot)
    requires n <= |b|
    ensures SpanCount(a + b, |a| + n, slot) == SpanCount(a, |a|, slot) + SpanCount(b, n, slot)
  {
    if n == 0 {
      SpanCountPrefix(a, b, |a|, slot);
    } else {
      SpanCountConcat(a, b, n - 1, slot);
      assert (a + b)[|a| + n - 1] == b[n - 1];
    }
  }

  lemma {:induction false} SpanCountPrefix(a: seq<Span>, b: seq<Span>, n: nat, slot: Slot)
    requires n <= |a|
    ensures SpanCount(a + b, n, slot) == SpanCount(a, n, slot)
  {
    if n > 0 {
      SpanCountPrefix(a, b, n - 1, slot);
    }
  }

  lemma {:induction false} EntrySumConcat(a: seq<Entry>, b: seq<Entry>, n: nat, slot: Slot)
    requires n <= |b|
    ensures EntrySum(a + b, |a| + n, slot) == EntrySum(a, |a|, slot) + EntrySum(b, n, slot)
  {
    if n == 0 {
      EntrySumPrefix(a, b, |a|, slot);
    } else {
      EntrySumConcat(a, b, n - 1, slot);
      assert (a + b)[|a| + n - 1] == b[n - 1];
    }
  }

  lemma {:induction false} EntrySumPrefix(a: seq<Entry>, b: seq<Entry>, n: nat, slot: Slot)
    requires n <= |a|
    ensures EntrySum(a + b, n, slot) == EntrySum(a, n, slot)
  {
    if n > 0 {
      EntrySumPrefix(a, b, n - 1, slot);
    }
  }

  lemma {:induction false} LiveCountSame(a: seq<HoldRow>, b: seq<HoldRow>, n: nat, slot: Slot)
    requires n <= |a| && n <= |b| && forall i | 0 <= i < n :: a[i] == b[i]
    ensures LiveCount(a, n, slot) == LiveCount(b, n, slot)
  {
    if n > 0 {
      LiveCountSame(a, b, n - 1, slot);
    }
  }

  /** Deleting a row takes its cover away, if it was there. */
  lemma {:induction false} LiveCountDeleted(holds: seq<HoldRow>, id: nat, n: nat, slot: Slot)
    requires id < |holds| && n <= |holds|
    ensures LiveCount(holds[id := holds[id].(live := false)], n, slot) ==
            LiveCount(holds, n, slot)
            - (if id < n && holds[id].live then Covers(holds[id].hold.span, slot) else 0)
  {
    if n > 0 {
      LiveCountDeleted(holds, id, n - 1, slot);
    }
  }

  /** `n` times `cover`, by addition. */
  function Times(n: nat, cover: nat): nat {
    if n == 0 then 0 else Times(n - 1, cover) + cover
  }

  lemma {:induction false} TimesIsProduct(n: nat, cover: nat)
    ensures Times(n, cover) == n * cover
  {
    if n > 0 {
      TimesIsProduct(n - 1, cover);
      OneMore(cover, n - 1);
    }
  }

  lemma {:induction false} LiveCountRun(
      rows: seq<HoldRow>, base: nat, n: nat, slot: Slot, cover: nat)
    requires base + n <= |rows|
    requires forall i | base <= i < base + n ::
               rows[i].live && Covers(rows[i].hold.span, slot) == cover
    ensures LiveCount(rows, base + n, slot) == LiveCount(rows, base, slot) + Times(n, cover)
    decreases n
  {
    if n > 0 {
      LiveCountRun(rows, base, n - 1, slot, cover);
      LiveStep(rows, base + n, slot, cover);
    }
  }

  lemma LiveStep(rows: seq<HoldRow>, n: nat, slot: Slot, cover: nat)
    requires 0 < n <= |rows| && rows[n - 1].live && Covers(rows[n - 1].hold.span, slot) == cover
    ensures LiveCount(rows, n, slot) == LiveCount(rows, n - 1, slot) + cover
  {
  }

  lemma LiveCountAdded(holds: seq<HoldRow>, p: Purpose, slot: Slot)
    requires p.Reserve?
    ensures LiveCount(holds + NewRows(p), |holds| + p.quantity, slot) ==
            LiveCount(holds, |holds|, slot) + p.quantity * Covers(p.span, slot)
  {
    var rows := holds + NewRows(p);
    LiveCountSame(rows, holds, |holds|, slot);
    LiveCountRun(rows, |holds|, p.quantity, slot, Covers(p.span, slot));
    TimesIsProduct(p.quantity, Covers(p.span, slot));
  }

  predicate TakenMatch(holds: seq<HoldRow>, taken: seq<Taken>) {
    forall i | 0 <= i < |taken| ::
      taken[i].id < |holds| && holds[taken[i].id].hold.span == taken[i].span
  }

  lemma {:induction false} DeletedKeepsHold(holds: seq<HoldRow>, taken: seq<Taken>, n: nat, i: nat)
    requires n <= |taken| && (forall k | 0 <= k < |taken| :: taken[k].id < |holds|) && i < |holds|
    ensures Deleted(holds, taken, n)[i].hold == holds[i].hold
    decreases n
  {
    if n > 0 {
      DeletedKeepsHold(holds, taken, n - 1, i);
    }
  }

  /** One more deletion: the row's cover goes, or is gone already. */
  lemma DeletedStep(holds: seq<HoldRow>, taken: seq<Taken>, n: nat, slot: Slot)
    requires TakenMatch(holds, taken) && 0 < n <= |taken|
    ensures var r := Deleted(holds, taken, n - 1);
            LiveCount(Deleted(holds, taken, n), |holds|, slot) ==
            LiveCount(r, |holds|, slot)
            - (if r[taken[n - 1].id].live then Covers(taken[n - 1].span, slot) else 0)
  {
    DeletedKeepsHold(holds, taken, n - 1, taken[n - 1].id);
    LiveCountDeleted(Deleted(holds, taken, n - 1), taken[n - 1].id, |holds|, slot);
  }

  lemma GoneStep(holds: seq<HoldRow>, taken: seq<Taken>, n: nat, slot: Slot)
    requires TakenMatch(holds, taken) && 0 < n <= |taken|
    ensures var before, after := Gone(holds, taken, n - 1), Gone(holds, taken, n);
            SpanCount(after, |after|, slot) ==
            SpanCount(before, |before|, slot)
            + (if Deleted(holds, taken, n - 1)[taken[n - 1].id].live then 0
               else Covers(taken[n - 1].span, slot))
  {
    var gone := Gone(holds, taken, n - 1);
    if Deleted(holds, taken, n - 1)[taken[n - 1].id].live {
      assert gone + [] == gone;
    } else {
      SpanCountConcat(gone, [taken[n - 1].span], 1, slot);
      OneSpan(taken[n - 1].span, slot);
    }
  }

  /** What is left after `n` deletions, with what they found, less what was gone. */
  ghost function Accounted(holds: seq<HoldRow>, taken: seq<Taken>, n: nat, slot: Slot): int
    requires TakenMatch(holds, taken) && n <= |taken|
  {
    var gone := Gone(holds, taken, n);
    LiveCount(Deleted(holds, taken, n), |holds|, slot) + SpanCount(TakenSpans(taken), n, slot)
    - SpanCount(gone, |gone|, slot)
  }

  lemma AccountedStep(holds: seq<HoldRow>, taken: seq<Taken>, n: nat, slot: Slot)
    requires TakenMatch(holds, taken) && 0 < n <= |taken|
    ensures Accounted(holds, taken, n, slot) == Accounted(holds, taken, n - 1, slot)
  {
    DeletedStep(holds, taken, n, slot);
    GoneStep(holds, taken, n, slot);
    TakenStep(taken, n, slot);
  }

  lemma AccountedNone(holds: seq<HoldRow>, taken: seq<Taken>, slot: Slot)
    requires TakenMatch(holds, taken)
    ensures Accounted(holds, taken, 0, slot) == LiveCount(holds, |holds|, slot)
  {
    assert Deleted(holds, taken, 0) == holds && Gone(holds, taken, 0) == [];
  }

  lemma TakenStep(taken: seq<Taken>, n: nat, slot: Slot)
    requires 0 < n <= |taken|
    ensures SpanCount(TakenSpans(taken), n, slot) ==
            SpanCount(TakenSpans(taken), n - 1, slot) + Covers(taken[n - 1].span, slot)
  {
  }

  /** What is deleted and what was gone make up what was read. */
  lemma {:induction false} DeletedBalance(holds: seq<HoldRow>, taken: seq<Taken>, n: nat, slot: Slot)
    requires TakenMatch(holds, taken) && n <= |taken|
    ensures Accounted(holds, taken, n, slot) == LiveCount(holds, |holds|, slot)
    decreases n
  {
    if n == 0 {
      AccountedNone(holds, taken, slot);
    } else {
      AccountedStep(holds, taken, n, slot);
      DeletedBalance(holds, taken, n - 1, slot);
    }
  }

  lemma OneSpan(span: Span, slot: Slot)
    ensures SpanCount([span], 1, slot) == Covers(span, slot)
  {
    assert SpanCount([span], 0, slot) == 0;
  }

  // ---------------------------------------------------------------- what every step keeps

  /** The ledger entries to come are the writes made. */
  predicate EntriesOk(t: Tx) {
    && t.done <= |t.work| && |t.entries| == t.done
    && forall k | 0 <= k < t.done ::
         t.entries[k].slot == t.work[k].slot && t.entries[k].delta == t.work[k].delta
         && t.entries[k].after == t.entries[k].before + t.entries[k].delta
  }

  /** What a transaction has written so far, to rows it has locked, against the committed state. */
  ghost predicate BufferOk(s: State, tx: nat, t: Tx)
    requires t.done <= |t.work|
  {
    && (forall slot | slot in t.buffer ::
          && slot in s.locks && s.locks[slot] == tx
          && t.buffer[slot] == Available(s, slot) + DeltaSum(t.work, t.done, slot)
          && t.buffer[slot] >= 0)
    && forall slot | slot !in t.buffer :: DeltaSum(t.work, t.done, slot) == 0
  }

  predicate PurposeOk(t: Tx) {
    match t.purpose
    case Reserve(span, quantity, _, _) =>
      t.taken == [] && t.work == SlotWrites(span.slots, 0 - quantity)
    case Restore => t.work == RestoreWork(t.taken)
    case Consume => t.work == []
  }

  ghost predicate TxOk(s: State, tx: nat, t: Tx) {
    t.status == Working ==>
      PurposeOk(t) && TakenMatch(s.holds, t.taken) && EntriesOk(t) && BufferOk(s, tx, t)
  }

  ghost predicate TxsOk(s: State) {
    forall i | 0 <= i < |s.txs| :: TxOk(s, i, s.txs[i])
  }

  predicate Balanced(s: State, slot: Slot) {
    && Available(s, slot) >= 0
    && Available(s, slot) + Held(s, slot) + Booked(s, slot) == Capacity(s, slot) + Phantoms(s, slot)
    && Available(s, slot) == Capacity(s, slot) + EntrySum(s.ledger, |s.ledger|, slot)
  }

  ghost predicate Inv(s: State) {
    TxsOk(s) && forall slot :: Balanced(s, slot)
  }

  /** What another transaction may do while one is at work. */
  ghost predicate Undisturbed(s: State, t: State, tx: nat) {
    && s.capacity == t.capacity
    && |s.holds| <= |t.holds|
    && (forall i | 0 <= i < |s.holds| :: t.holds[i].hold == s.holds[i].hold)
    && forall slot | slot in s.locks && s.locks[slot] == tx ::
         && slot in t.locks && t.locks[slot] == tx
         && Available(t, slot) == Available(s, slot)
  }

  lemma TxOkUndisturbed(s: State, t: State, tx: nat, x: Tx)
    requires TxOk(s, tx, x) && Undisturbed(s, t, tx)
    ensures TxOk(t, tx, x)
  {
  }

  lemma OthersOk(s: State, t: State, tx: nat)
    requires TxsOk(s) && tx < |s.txs| == |t.txs|
    requires forall i | 0 <= i < |s.txs| && i != tx :: t.txs[i] == s.txs[i] && Undisturbed(s, t, i)
    requires TxOk(t, tx, t.txs[tx])
    ensures TxsOk(t)
  {
    forall i | 0 <= i < |t.txs| ensures TxOk(t, i, t.txs[i]) {
      if i != tx {
        TxOkUndisturbed(s, t, i, s.txs[i]);
      }
    }
  }

  lemma StartKeepsInv(s: State, purpose: Purpose, taken: seq<Taken>, work: seq<Write>)
    requires Inv(s) && TakenMatch(s.holds, taken)
    requires PurposeOk(Tx(purpose, taken, work, 0, map[], [], Working))
    ensures Inv(Started(s, purpose, taken, work))
  {
    var t := Started(s, purpose, taken, work);
    forall i | 0 <= i < |t.txs| ensures TxOk(t, i, t.txs[i]) {
      if i < |s.txs| {
        TxOkUndisturbed(s, t, i, s.txs[i]);
      }
    }
    forall slot ensures Balanced(t, slot) {
      assert Balanced(s, slot);
    }
  }

  lemma EndKeepsInv(s: State, tx: nat)
    requires Inv(s) && IsWorking(s, tx)
    ensures Inv(Ended(s, tx, Aborted))
  {
    var t := Ended(s, tx, Aborted);
    OthersOk(s, t, tx);
    forall slot ensures Balanced(t, slot) {
      assert Balanced(s, slot);
    }
  }

  lemma WrittenEntries(t: Tx, before: int)
    requires EntriesOk(t) && t.done < |t.work|
    ensures EntriesOk(Written(t, before))
  {
    var next := Written(t, before);
    forall k | 0 <= k < next.done
      ensures next.entries[k].slot == next.work[k].slot && next.entries[k].delta == next.work[k].delta
      ensures next.entries[k].after == next.entries[k].before + next.entries[k].delta
    {
      assert k < t.done ==> next.entries[k] == t.entries[k];
    }
  }

  /** A write that is not below zero keeps the buffer in order. */
  lemma WrittenBuffer(s: State, tx: nat, t: Tx)
    requires t.done < |t.work| && BufferOk(s, tx, t)
    requires Seen(s, t, t.work[t.done].slot) + t.work[t.done].delta >= 0
    ensures var slot := t.work[t.done].slot;
            BufferOk(s.(locks := s.locks[slot := tx]), tx, Written(t, Seen(s, t, slot)))
  {
    var w := t.work[t.done];
    var next := Written(t, Seen(s, t, w.slot));
    forall slot ensures DeltaSum(next.work, next.done, slot) ==
                        DeltaSum(t.work, t.done, slot) + (if slot == w.slot then w.delta else 0)
    {
    }
  }

  lemma SeenNotNegative(s: State, tx: nat, slot: Slot)
    requires Inv(s) && IsWorking(s, tx)
    ensures Seen(s, s.txs[tx], slot) >= 0
  {
    assert TxOk(s, tx, s.txs[tx]);
    assert Balanced(s, slot);
  }

  lemma WorkSign(t: Tx, k: nat)
    requires PurposeOk(t) && k < |t.work|
    ensures if t.purpose.Reserve? then t.work[k].delta == 0 - t.purpose.quantity
            else t.work[k].delta >= 0
  {
    if t.purpose.Restore? {
      GroupWritesPositive(Groups(t.taken, |t.taken|));
    }
  }

  /** The write is not below zero: a reservation has checked, and nothing else takes away. */
  lemma WriteNotNegative(s: State, tx: nat)
    requires Inv(s) && IsWorking(s, tx) && s.txs[tx].done < |s.txs[tx].work|
    requires var x := s.txs[tx];
             x.purpose.Reserve? ==> Seen(s, x, x.work[x.done].slot) >= x.purpose.quantity
    ensures var x := s.txs[tx]; Seen(s, x, x.work[x.done].slot) + x.work[x.done].delta >= 0
  {
    var x := s.txs[tx];
    assert TxOk(s, tx, x);
    SeenNotNegative(s, tx, x.work[x.done].slot);
    WorkSign(x, x.done);
  }

  lemma WriteKeepsTx(s: State, tx: nat)
    requires TxsOk(s) && IsWorking(s, tx) && s.txs[tx].done < |s.txs[tx].work|
    requires var x := s.txs[tx];
             && CanLock(s, tx, x.work[x.done].slot)
             && Seen(s, x, x.work[x.done].slot) + x.work[x.done].delta >= 0
    ensures var x := s.txs[tx];
            var slot := x.work[x.done].slot;
            var next := Written(x, Seen(s, x, slot));
            TxOk(WithTx(s, tx, next).(locks := s.locks[slot := tx]), tx, next)
  {
    var x := s.txs[tx];
    var slot := x.work[x.done].slot;
    var next := Written(x, Seen(s, x, slot));
    var t := WithTx(s, tx, next).(locks := s.locks[slot := tx]);
    assert TxOk(s, tx, x);
    WrittenEntries(x, Seen(s, x, slot));
    WrittenBuffer(s, tx, x);
    BufferOfLocks(s.(locks := s.locks[slot := tx]), t, tx, next);
  }

  lemma WriteKeepsInv(s: State, tx: nat)
    requires Inv(s) && IsWorking(s, tx) && s.txs[tx].done < |s.txs[tx].work|
    requires var x := s.txs[tx];
             && CanLock(s, tx, x.work[x.done].slot)
             && (x.purpose.Reserve? ==> Seen(s, x, x.work[x.done].slot) >= x.purpose.quantity)
    ensures var x := s.txs[tx];
            var slot := x.work[x.done].slot;
            Inv(WithTx(s, tx, Written(x, Seen(s, x, slot))).(locks := s.locks[slot := tx]))
  {
    var x := s.txs[tx];
    var slot := x.work[x.done].slot;
    var next := Written(x, Seen(s, x, slot));
    var t := WithTx(s, tx, next).(locks := s.locks[slot := tx]);
    WriteNotNegative(s, tx);
    WriteKeepsTx(s, tx);
    OthersOk(s, t, tx);
    forall o ensures Balanced(t, o) {
      assert Balanced(s, o);
    }
  }

  lemma BufferOfLocks(s: State, t: State, tx: nat, x: Tx)
    requires x.done <= |x.work| && BufferOk(s, tx, x)
    requires s.locks == t.locks && s.rows == t.rows && s.capacity == t.capacity
    ensures BufferOk(t, tx, x)
  {
  }

  lemma AdvanceKeepsInv(s: State, tx: nat)
    requires Inv(s) && IsWorking(s, tx) && s.txs[tx].done < |s.txs[tx].work|
    requires CanLock(s, tx, s.txs[tx].work[s.txs[tx].done].slot)
    ensures Inv(Advanced(s, tx))
  {
    var x := s.txs[tx];
    if x.purpose.Reserve? && Seen(s, x, x.work[x.done].slot) < x.purpose.quantity {
      EndKeepsInv(s, tx);
    } else {
      WriteKeepsInv(s, tx);
    }
  }

  // ---------------------------------------------------------------- commits

  lemma {:induction false} EntriesSum(entries: seq<Entry>, work: seq<Write>, n: nat, slot: Slot)
    requires n <= |entries| && n <= |work|
    requires forall k | 0 <= k < n ::
               entries[k].slot == work[k].slot && entries[k].delta == work[k].delta
    ensures EntrySum(entries, n, slot) == DeltaSum(work, n, slot)
  {
    if n > 0 {
      EntriesSum(entries, work, n - 1, slot);
    }
  }

  /** A commit moves each row by what the transaction wrote. */
  lemma BufferAt(s: State, tx: nat, x: Tx, slot: Slot)
    requires x.done <= |x.work| && BufferOk(s, tx, x) && Available(s, slot) >= 0
    ensures (if slot in x.buffer then x.buffer[slot] else Available(s, slot)) ==
            Available(s, slot) + DeltaSum(x.work, x.done, slot) >= 0
  {
  }

  lemma CommitMovesRow(s: State, tx: nat, slot: Slot)
    requires IsWorking(s, tx) && TakenInRange(s, s.txs[tx])
    requires s.txs[tx].done == |s.txs[tx].work| && BufferOk(s, tx, s.txs[tx])
    requires Available(s, slot) >= 0
    ensures var x := s.txs[tx];
            Available(CommittedState(s, tx), slot) ==
            Available(s, slot) + DeltaSum(x.work, |x.work|, slot) >= 0
  {
    BufferAt(s, tx, s.txs[tx], slot);
    CommittedRows(s, tx);
    RowAfter(s, CommittedState(s, tx), s.txs[tx].buffer, slot);
  }

  lemma CommittedRows(s: State, tx: nat)
    requires IsWorking(s, tx) && TakenInRange(s, s.txs[tx])
    ensures var t := CommittedState(s, tx);
            t.rows == s.rows + s.txs[tx].buffer && t.capacity == s.capacity
  {
  }

  lemma RowAfter(s: State, t: State, buffer: map<Slot, int>, slot: Slot)
    requires t.rows == s.rows + buffer && t.capacity == s.capacity
    ensures Available(t, slot) == if slot in buffer then buffer[slot] else Available(s, slot)
  {
  }

  /** And so it moves the ledger. */
  lemma CommitMovesLedger(s: State, tx: nat, slot: Slot)
    requires IsWorking(s, tx) && TakenInRange(s, s.txs[tx])
    requires s.txs[tx].done == |s.txs[tx].work| && EntriesOk(s.txs[tx])
    ensures var x, t := s.txs[tx], CommittedState(s, tx);
            EntrySum(t.ledger, |t.ledger|, slot) ==
            EntrySum(s.ledger, |s.ledger|, slot) + DeltaSum(x.work, |x.work|, slot)
  {
    var x := s.txs[tx];
    EntrySumConcat(s.ledger, x.entries, |x.entries|, slot);
    EntriesSum(x.entries, x.work, x.done, slot);
  }

  /** What is held and booked, less the phantoms. */
  function Owed(s: State, slot: Slot): int {
    Held(s, slot) + Booked(s, slot) - Phantoms(s, slot)
  }

  lemma ReserveBalances(s: State, tx: nat, slot: Slot)
    requires IsWorking(s, tx) && s.txs[tx].purpose.Reserve? && PurposeOk(s.txs[tx])
    ensures var x := s.txs[tx];
            Owed(CommittedState(s, tx), slot) == Owed(s, slot) - DeltaSum(x.work, |x.work|, slot)
  {
    var p := s.txs[tx].purpose;
    LiveCountAdded(s.holds, p, slot);
    SpanWritesSum(p.span, 0 - p.quantity, slot);
    Negated(p.quantity, Covers(p.span, slot));
  }

  lemma Negated(a: int, b: int)
    ensures (0 - a) * b == 0 - a * b
  {
  }

  /** The state with the rows of a removal deleted. */
  function Removed(s: State, x: Tx): State
    requires TakenMatch(s.holds, x.taken)
  {
    s.(holds := Deleted(s.holds, x.taken, |x.taken|),
       phantoms := s.phantoms + Gone(s.holds, x.taken, |x.taken|))
  }

  lemma RemovalBalances(s: State, x: Tx, slot: Slot)
    requires TakenMatch(s.holds, x.taken)
    ensures Owed(Removed(s, x), slot) ==
            Owed(s, slot) - SpanCount(TakenSpans(x.taken), |x.taken|, slot)
  {
    var gone := Gone(s.holds, x.taken, |x.taken|);
    var t := Removed(s, x);
    DeletedBalance(s.holds, x.taken, |x.taken|, slot);
    PhantomsMore(s.phantoms, gone, slot);
    assert Held(t, slot) == LiveCount(t.holds, |s.holds|, slot);
  }

  lemma PhantomsMore(phantoms: seq<Span>, gone: seq<Span>, slot: Slot)
    ensures SpanCount(phantoms + gone, |phantoms + gone|, slot) ==
            SpanCount(phantoms, |phantoms|, slot) + SpanCount(gone, |gone|, slot)
  {
    SpanCountConcat(phantoms, gone, |gone|, slot);
  }

  lemma RestoreBalances(s: State, tx: nat, slot: Slot)
    requires IsWorking(s, tx) && s.txs[tx].purpose.Restore? && PurposeOk(s.txs[tx])
    requires TakenMatch(s.holds, s.txs[tx].taken)
    ensures var x := s.txs[tx];
            Owed(CommittedState(s, tx), slot) == Owed(s, slot) - DeltaSum(x.work, |x.work|, slot)
  {
    var x := s.txs[tx];
    RestoreWorkSum(x.taken, slot);
    RemovalBalances(s, x, slot);
    assert Owed(CommittedState(s, tx), slot) == Owed(Removed(s, x), slot);
  }

  lemma BookedMore(s: State, spans: seq<Span>, slot: Slot)
    ensures Owed(s.(booked := s.booked + spans), slot) == Owed(s, slot) + SpanCount(spans, |spans|, slot)
  {
    var t := s.(booked := s.booked + spans);
    assert Booked(t, slot) == Booked(s, slot) + SpanCount(spans, |spans|, slot) by {
      SpanCountConcat(s.booked, spans, |spans|, slot);
      assert |s.booked + spans| == |s.booked| + |spans|;
    }
    assert Held(t, slot) == Held(s, slot) && Phantoms(t, slot) == Phantoms(s, slot);
  }

  lemma ConsumeBalances(s: State, tx: nat, slot: Slot)
    requires IsWorking(s, tx) && s.txs[tx].purpose.Consume? && PurposeOk(s.txs[tx])
    requires TakenMatch(s.holds, s.txs[tx].taken)
    ensures var x := s.txs[tx];
            Owed(CommittedState(s, tx), slot) == Owed(s, slot) - DeltaSum(x.work, |x.work|, slot)
  {
    var x := s.txs[tx];
    var u := Removed(s, x);
    RemovalBalances(s, x, slot);
    BookedMore(u, TakenSpans(x.taken), slot);
    assert Owed(CommittedState(s, tx), slot) == Owed(u.(booked := u.booked + TakenSpans(x.taken)), slot);
  }

  /** What is owed moves by the opposite of what a commit writes. */
  lemma CommitBalances(s: State, tx: nat, slot: Slot)
    requires IsWorking(s, tx) && PurposeOk(s.txs[tx]) && TakenMatch(s.holds, s.txs[tx].taken)
    ensures var x := s.txs[tx];
            Owed(CommittedState(s, tx), slot) == Owed(s, slot) - DeltaSum(x.work, |x.work|, slot)
  {
    match s.txs[tx].purpose
    case Reserve(_, _, _, _) => ReserveBalances(s, tx, slot);
    case Restore => RestoreBalances(s, tx, slot);
    case Consume => ConsumeBalances(s, tx, slot);
  }

  lemma CommitKeepsTxs(s: State, tx: nat)
    requires TxsOk(s) && IsWorking(s, tx) && TakenInRange(s, s.txs[tx])
    ensures TxsOk(CommittedState(s, tx))
  {
    var t := CommittedState(s, tx);
    assert TxOk(s, tx, s.txs[tx]);
    forall i | 0 <= i < |s.holds| ensures t.holds[i].hold == s.holds[i].hold {
      DeletedKeepsHold(s.holds, s.txs[tx].taken, |s.txs[tx].taken|, i);
    }
    forall i | 0 <= i < |s.txs| && i != tx ensures Undisturbed(s, t, i) {
      forall slot | slot in s.locks && s.locks[slot] == i ensures Available(t, slot) == Available(s, slot) {
        assert slot !in s.txs[tx].buffer;
      }
    }
    OthersOk(s, t, tx);
  }

  lemma CommitKeepsInv(s: State, tx: nat)
    requires Inv(s) && IsWorking(s, tx) && s.txs[tx].done == |s.txs[tx].work|
    requires TakenInRange(s, s.txs[tx])
    ensures Inv(CommittedState(s, tx))
  {
    assert TxOk(s, tx, s.txs[tx]);
    CommitKeepsTxs(s, tx);
    forall slot ensures Balanced(CommittedState(s, tx), slot) {
      assert Balanced(s, slot);
      CommitMovesRow(s, tx, slot);
      CommitMovesLedger(s, tx, slot);
      CommitBalances(s, tx, slot);
    }
  }

  lemma TickKeepsInv(s: State, seconds: nat)
    requires Inv(s)
    ensures Inv(s.(clock := s.clock + seconds))
  {
    var t := s.(clock := s.clock + seconds);
    forall i | 0 <= i < |s.txs| ensures TxOk(t, i, s.txs[i]) {
      TxOkUndisturbed(s, t, i, s.txs[i]);
    }
    forall slot ensures Balanced(t, slot) {
      assert Balanced(s, slot);
    }
  }

  lemma ReadMatches(s: State, ids: seq<nat>)
    requires forall i | 0 <= i < |ids| :: ids[i] < |s.holds|
    ensures TakenMatch(s.holds, Read(s, ids))
  {
  }

  lemma BeginKeepsInv(s: State, a: Action)
    requires Inv(s) && (a.BeginRelease? || a.BeginConsume? || a.BeginSweep?)
    ensures Inv(Step(s, a))
  {
    match a
    case BeginRelease(ids, userId) =>
      if AllActive(s, ids, userId) {
        ReadMatches(s, ids);
        StartKeepsInv(s, Restore, Read(s, ids), RestoreWork(Read(s, ids)));
      }
    case BeginConsume(ids, userId) =>
      if AllActive(s, ids, userId) {
        ReadMatches(s, ids);
        StartKeepsInv(s, Consume, Read(s, ids), []);
      }
    case BeginSweep(ids) =>
      if AllExpired(s, ids) {
        ReadMatches(s, ids);
        StartKeepsInv(s, Restore, Read(s, ids), RestoreWork(Read(s, ids)));
      }
  }

  /** Every step keeps the balance of every slot and the order of every transaction. */
  lemma StepKeepsInv(s: State, a: Action)
    requires Inv(s)
    ensures Inv(Step(s, a))
  {
    match a
    case BeginReserve(span, quantity, userId, expiresAt) =>
      StartKeepsInv(s, Reserve(span, quantity, userId, expiresAt), [],
                    SlotWrites(span.slots, 0 - quantity));
    case BeginRelease(_, _) => BeginKeepsInv(s, a);
    case BeginConsume(_, _) => BeginKeepsInv(s, a);
    case BeginSweep(_) => BeginKeepsInv(s, a);
    case Advance(tx) =>
      if IsWorking(s, tx) && s.txs[tx].done < |s.txs[tx].work|
         && CanLock(s, tx, s.txs[tx].work[s.txs[tx].done].slot)
      {
        AdvanceKeepsInv(s, tx);
      }
    case Commit(tx) =>
      if IsWorking(s, tx) && s.txs[tx].done == |s.txs[tx].work| && TakenInRange(s, s.txs[tx]) {
        CommitKeepsInv(s, tx);
      }
    case Abort(tx) =>
      if IsWorking(s, tx) {
        EndKeepsInv(s, tx);
      }
    case Tick(seconds) => TickKeepsInv(s, seconds);
  }

  lemma {:induction false} RunKeepsInv(s: State, actions: seq<Action>)
    requires Inv(s)
    ensures Inv(Run(s, actions))
    decreases |actions|
  {
    if actions != [] {
      StepKeepsInv(s, actions[0]);
      RunKeepsInv(Step(s, actions[0]), actions[1..]);
    }
  }

  // ---------------------------------------------------------------- over every run

  lemma Reachable(capacity: map<nat, nat>, actions: seq<Action>)
    ensures Inv(Run(Init(capacity), actions))
  {
    var s := Init(capacity);
    forall slot ensures Balanced(s, slot) {
    }
    RunKeepsInv(s, actions);
  }

  lemma {:induction false} CapacityStays(s: State, actions: seq<Action>)
    ensures Run(s, actions).capacity == s.capacity
    decreases |actions|
  {
    if actions != [] {
      CapacityStays(Step(s, actions[0]), actions[1..]);
    }
  }

  /**
   * Over every run, no calendar row goes below zero, and each is its capacity, 1 for a unit
   * without one, plus its ledger.
   */
  lemma NeverNegative(capacity: map<nat, nat>, actions: seq<Action>, slot: Slot)
    ensures var s := Run(Init(capacity), actions);
            && Available(s, slot) >= 0
            && Available(s, slot) ==
               (if slot.unit in capacity then capacity[slot.unit] else 1)
               + EntrySum(s.ledger, |s.ledger|, slot)
  {
    Reachable(capacity, actions);
    CapacityStays(Init(capacity), actions);
    assert Balanced(Run(Init(capacity), actions), slot);
  }

  /**
   * Over every run, what is available is the capacity less what is held and booked, exactly
   * when no removal covering the slot has found one of its hold rows already deleted; it is
   * more by the number of those.
   */
  lemma ConservedExactly(capacity: map<nat, nat>, actions: seq<Action>, slot: Slot)
    ensures var s := Run(Init(capacity), actions);
            && Available(s, slot) ==
               Capacity(s, slot) - Held(s, slot) - Booked(s, slot) + Phantoms(s, slot)
            && (Available(s, slot) == Capacity(s, slot) - Held(s, slot) - Booked(s, slot) <==>
                forall i | 0 <= i < |s.phantoms| :: slot !in s.phantoms[i].slots)
            && Held(s, slot) + Booked(s, slot) <= Capacity(s, slot) + Phantoms(s, slot)
  {
    Reachable(capacity, actions);
    var s := Run(Init(capacity), actions);
    assert Balanced(s, slot);
    NoneCovers(s.phantoms, |s.phantoms|, slot);
  }

  lemma {:induction false} NoneCovers(spans: seq<Span>, n: nat, slot: Slot)
    requires n <= |spans|
    ensures SpanCount(spans, n, slot) == 0 <==> forall i | 0 <= i < n :: slot !in spans[i].slots
  {
    if n > 0 {
      NoneCovers(spans, n - 1, slot);
      assert slot in spans[n - 1].slots <==> slot in multiset(spans[n - 1].slots);
    }
  }

  // ---------------------------------------------------------------- removals that do not meet

  predicate Takes(t: Tx, id: nat) {
    t.status == Working && exists k | 0 <= k < |t.taken| :: t.taken[k].id == id
  }

  /** No hold row has been read by two transactions that are both at work. */
  predicate Exclusive(s: State) {
    forall i, j, k, n
      | 0 <= i < j < |s.txs| && s.txs[i].status == Working && s.txs[j].status == Working
        && 0 <= k < |s.txs[i].taken| && 0 <= n < |s.txs[j].taken|
      :: s.txs[i].taken[k].id != s.txs[j].taken[n].id
  }

  predicate ExclusiveRun(s: State, actions: seq<Action>)
    decreases |actions|
  {
    Exclusive(s) && (actions != [] ==> ExclusiveRun(Step(s, actions[0]), actions[1..]))
  }

  /** The rows a transaction at work has read are distinct and still there. */
  predicate TakenLive(s: State, t: Tx) {
    t.status == Working ==>
      && (forall k | 0 <= k < |t.taken| ::
            t.taken[k].id < |s.holds| && s.holds[t.taken[k].id].live)
      && forall k, n | 0 <= k < n < |t.taken| :: t.taken[k].id != t.taken[n].id
  }

  predicate NoneGone(s: State) {
    s.phantoms == [] && forall i | 0 <= i < |s.txs| :: TakenLive(s, s.txs[i])
  }

  /** Deleting leaves the other rows. */
  lemma {:induction false} DeletedOthers(holds: seq<HoldRow>, taken: seq<Taken>, n: nat, id: nat)
    requires n <= |taken| && (forall i | 0 <= i < |taken| :: taken[i].id < |holds|) && id < |holds|
    requires forall k | 0 <= k < n :: taken[k].id != id
    ensures Deleted(holds, taken, n)[id] == holds[id]
    decreases n
  {
    if n > 0 {
      DeletedOthers(holds, taken, n - 1, id);
    }
  }

  lemma {:induction false} NothingGone(holds: seq<HoldRow>, taken: seq<Taken>, n: nat)
    requires n <= |taken| && forall i | 0 <= i < |taken| :: taken[i].id < |holds| && holds[taken[i].id].live
    requires forall k, m | 0 <= k < m < |taken| :: taken[k].id != taken[m].id
    ensures Gone(holds, taken, n) == []
    decreases n
  {
    if n > 0 {
      NothingGone(holds, taken, n - 1);
      DeletedOthers(holds, taken, n - 1, taken[n - 1].id);
    }
  }

  lemma OtherStaysLive(s: State, t: State, tx: nat, x: Tx)
    requires IsWorking(s, tx) && TakenInRange(s, s.txs[tx]) && TakenLive(s, x) && x.status == Working
    requires forall k, n | 0 <= k < |x.taken| && 0 <= n < |s.txs[tx].taken| ::
               x.taken[k].id != s.txs[tx].taken[n].id
    requires t.holds == Deleted(s.holds, s.txs[tx].taken, |s.txs[tx].taken|)
             || (|s.holds| <= |t.holds| && s.holds == t.holds[..|s.holds|])
    ensures TakenLive(t, x)
  {
    forall k | 0 <= k < |x.taken|
      ensures x.taken[k].id < |t.holds| && t.holds[x.taken[k].id].live
    {
      if t.holds == Deleted(s.holds, s.txs[tx].taken, |s.txs[tx].taken|) {
        DeletedOthers(s.holds, s.txs[tx].taken, |s.txs[tx].taken|, x.taken[k].id);
      }
    }
  }

  lemma CommitNoneGone(s: State, tx: nat)
    requires Exclusive(s) && NoneGone(s) && IsWorking(s, tx) && TakenInRange(s, s.txs[tx])
    ensures NoneGone(CommittedState(s, tx))
  {
    var x, t := s.txs[tx], CommittedState(s, tx);
    assert TakenLive(s, x);
    NothingGone(s.holds, x.taken, |x.taken|);
    assert t.phantoms == [];
    forall i | 0 <= i < |t.txs| ensures TakenLive(t, t.txs[i]) {
      if i != tx && s.txs[i].status == Working {
        assert TakenLive(s, s.txs[i]);
        OtherStaysLive(s, t, tx, s.txs[i]);
      }
    }
  }

  lemma StartNoneGone(s: State, purpose: Purpose, taken: seq<Taken>, work: seq<Write>)
    requires NoneGone(s)
    requires forall k | 0 <= k < |taken| :: taken[k].id < |s.holds| && s.holds[taken[k].id].live
    requires forall k, n | 0 <= k < n < |taken| :: taken[k].id != taken[n].id
    ensures NoneGone(Started(s, purpose, taken, work))
  {
    var t := Started(s, purpose, taken, work);
    forall i | 0 <= i < |t.txs| ensures TakenLive(t, t.txs[i]) {
      if i < |s.txs| {
        assert TakenLive(s, s.txs[i]);
      }
    }
  }

  lemma StepNoneGone(s: State, a: Action)
    requires Exclusive(s) && NoneGone(s)
    ensures NoneGone(Step(s, a))
  {
    match a
    case BeginReserve(span, quantity, userId, expiresAt) =>
      StartNoneGone(s, Reserve(span, quantity, userId, expiresAt), [],
                    SlotWrites(span.slots, 0 - quantity));
    case BeginRelease(ids, userId) =>
      if AllActive(s, ids, userId) {
        StartNoneGone(s, Restore, Read(s, ids), RestoreWork(Read(s, ids)));
      }
    case BeginConsume(ids, userId) =>
      if AllActive(s, ids, userId) {
        StartNoneGone(s, Consume, Read(s, ids), []);
      }
    case BeginSweep(ids) =>
      if AllExpired(s, ids) {
        StartNoneGone(s, Restore, Read(s, ids), RestoreWork(Read(s, ids)));
      }
    case Commit(tx) =>
      if IsWorking(s, tx) && s.txs[tx].done == |s.txs[tx].work| && TakenInRange(s, s.txs[tx]) {
        CommitNoneGone(s, tx);
      }
    case _ =>
      OtherStepNoneGone(s, a);
  }

  /** A step on one transaction that keeps what it has read, and the hold rows. */
  lemma SameTakenNoneGone(s: State, t: State)
    requires NoneGone(s) && t.holds == s.holds && t.phantoms == s.phantoms && |t.txs| == |s.txs|
    requires forall i | 0 <= i < |s.txs| ::
               t.txs[i].taken == s.txs[i].taken
               && (t.txs[i].status == Working ==> s.txs[i].status == Working)
    ensures NoneGone(t)
  {
    forall i | 0 <= i < |t.txs| ensures TakenLive(t, t.txs[i]) {
      assert TakenLive(s, s.txs[i]);
    }
  }

  lemma OtherStepNoneGone(s: State, a: Action)
    requires NoneGone(s) && (a.Advance? || a.Abort? || a.Tick?)
    ensures NoneGone(Step(s, a))
  {
    var t := Step(s, a);
    assert t.holds == s.holds && t.phantoms == s.phantoms && |t.txs| == |s.txs|;
    if !a.Tick? {
      forall i | 0 <= i < |s.txs|
        ensures t.txs[i].taken == s.txs[i].taken
        ensures t.txs[i].status == Working ==> s.txs[i].status == Working
      {
        OtherStepTx(s, a, i);
      }
    }
    SameTakenNoneGone(s, t);
  }

  lemma OtherStepTx(s: State, a: Action, i: nat)
    requires i < |s.txs| && (a.Advance? || a.Abort?)
    ensures var t := Step(s, a);
            && |t.txs| == |s.txs| && t.txs[i].taken == s.txs[i].taken
            && (t.txs[i].status == Working ==> s.txs[i].status == Working)
  {
  }

  lemma {:induction false} ExclusiveNoneGone(s: State, actions: seq<Action>)
    requires ExclusiveRun(s, actions) && NoneGone(s)
    ensures NoneGone(Run(s, actions))
    decreases |actions|
  {
    if actions != [] {
      StepNoneGone(s, actions[0]);
      ExclusiveNoneGone(Step(s, actions[0]), actions[1..]);
    }
  }

  /**
   * Over every run in which no two transactions at work have read one hold row: capacity is
   * conserved at every slot, and never oversold.
   */
  lemma ExclusiveConserves(capacity: map<nat, nat>, actions: seq<Action>, slot: Slot)
    requires ExclusiveRun(Init(capacity), actions)
    ensures var s := Run(Init(capacity), actions);
            && Available(s, slot) == Capacity(s, slot) - Held(s, slot) - Booked(s, slot)
            && 0 <= Held(s, slot) + Booked(s, slot) <= Capacity(s, slot)
  {
    ExclusiveNoneGone(Init(capacity), actions);
    ConservedExactly(capacity, actions, slot);
    NeverNegative(capacity, actions, slot);
  }

  // ---------------------------------------------------------------- one hold, released twice

  lemma RunThree(s: State, a: Action, b: Action, c: Action)
    ensures Run(s, [a, b, c]) == Step(Step(Step(s, a), b), c)
  {
    assert [a, b, c][1..] == [b, c] && [b, c][1..] == [c] && [c][1..] == [];
    assert Run(Step(Step(s, a), b), [c]) == Run(Step(Step(Step(s, a), b), c), []);
    assert Run(Step(s, a), [b, c]) == Run(Step(Step(s, a), b), [c]);
  }

  lemma {:induction false} RunConcat(s: State, first: seq<Action>, second: seq<Action>)
    ensures Run(s, first + second) == Run(Run(s, first), second)
    decreases |first|
  {
    if first == [] {
      assert first + second == second;
    } else {
      assert (first + second)[1..] == first[1..] + second;
      RunConcat(Step(s, first[0]), first[1..], second);
    }
  }

  /** A hold for a night at the only room. */
  function HoldRoom(span: Span): seq<Action> {
    [BeginReserve(span, 1, 7, 100), Advance(0), Commit(0)]
  }

  /** Two requests to release it read its row before either has deleted it; */
  const BOTH_READ: seq<Action> := [BeginRelease([0], 7), BeginRelease([0], 7), Advance(1)]

  /** they write one after the other. */
  const BOTH_WRITE: seq<Action> := [Commit(1), Advance(2), Commit(2)]

  function OneNight(slot: Slot): Span {
    Span(slot.unit, slot.date, slot.date, [slot])
  }

  function RoomHold(slot: Slot): Hold {
    Hold(OneNight(slot), 7, 100)
  }

  function ReserveTx(slot: Slot): Tx {
    Tx(Reserve(OneNight(slot), 1, 7, 100), [], [Write(slot, -1)], 1, map[slot := 0],
       [Entry(slot, -1, 1, 0)], Committed)
  }

  function ReleaseTx(slot: Slot): Tx {
    Tx(Restore, [Taken(0, OneNight(slot))], [Write(slot, 1)], 0, map[], [], Working)
  }

  function HeldState(slot: Slot): State {
    State(map[slot.unit := 1], map[slot := 0], [HoldRow(RoomHold(slot), true)], [],
          [Entry(slot, -1, 1, 0)], map[], [ReserveTx(slot)], 0, [])
  }

  lemma WrittenOne(t: Tx, slot: Slot, delta: int, before: int)
    requires t.work == [Write(slot, delta)] && t.done == 0 && t.buffer == map[] && t.entries == []
    ensures Written(t, before) ==
            t.(done := 1, buffer := map[slot := before + delta],
               entries := [Entry(slot, delta, before, before + delta)])
  {
    var none: map<Slot, int> := map[];
    assert none[slot := before + delta] == map[slot := before + delta];
  }

  lemma HoldRoomRun(slot: Slot)
    ensures Run(Init(map[slot.unit := 1]), HoldRoom(OneNight(slot))) == HeldState(slot)
  {
    var s0 := Init(map[slot.unit := 1]);
    var span := OneNight(slot);
    RunThree(s0, BeginReserve(span, 1, 7, 100), Advance(0), Commit(0));
    assert SlotWrites([slot], -1) == [Write(slot, -1)];
    var s1 := Step(s0, BeginReserve(span, 1, 7, 100));
    var begun := Tx(Reserve(span, 1, 7, 100), [], [Write(slot, -1)], 0, map[], [], Working);
    assert s1.txs == [begun];
    assert Seen(s1, begun, slot) == 1;
    var s2 := Step(s1, Advance(0));
    var written := ReserveTx(slot).(status := Working);
    WrittenOne(begun, slot, -1, 1);
    assert s2.txs == [written];
    assert s2.locks == map[slot := 0];
    var s3 := Step(s2, Commit(0));
    assert NewRows(written.purpose) == [HoldRow(RoomHold(slot), true)];
    assert s3.txs == [ReserveTx(slot)];
    assert s3.locks == map[];
    assert s3.rows == map[slot := 0];
  }

  lemma OneNightRestored(slot: Slot)
    ensures RestoreWork([Taken(0, OneNight(slot))]) == [Write(slot, 1)]
  {
    var taken := [Taken(0, OneNight(slot))];
    assert Groups(taken, 0) == [];
    var groups := AddToGroups([], OneNight(slot));
    assert Groups(taken, 1) == groups == [Group(OneNight(slot), 1)];
    assert groups[1..] == [];
    assert GroupWrites(groups) == SlotWrites([slot], 1) + [];
    assert SlotWrites([slot], 1) == [Write(slot, 1)];
  }

  /** Both releases at work, the first one holding the row. */
  function ReleasingState(slot: Slot): State {
    HeldState(slot).(
      locks := map[slot := 1],
      txs := [ReserveTx(slot),
              ReleaseTx(slot).(done := 1, buffer := map[slot := 1], entries := [Entry(slot, 1, 0, 1)]),
              ReleaseTx(slot)])
  }

  lemma BothReadRun(slot: Slot)
    ensures Run(HeldState(slot), BOTH_READ) == ReleasingState(slot)
  {
    var s0 := HeldState(slot);
    RunThree(s0, BeginRelease([0], 7), BeginRelease([0], 7), Advance(1));
    OneNightRestored(slot);
    assert Read(s0, [0]) == [Taken(0, OneNight(slot))];
    var s1 := Step(s0, BeginRelease([0], 7));
    assert s1.txs == [ReserveTx(slot), ReleaseTx(slot)];
    assert Read(s1, [0]) == [Taken(0, OneNight(slot))];
    var s2 := Step(s1, BeginRelease([0], 7));
    assert s2.txs == [ReserveTx(slot), ReleaseTx(slot), ReleaseTx(slot)];
    WrittenOne(ReleaseTx(slot), slot, 1, 0);
    var s3 := Step(s2, Advance(1));
    var written := ReleaseTx(slot).(
      done := 1, buffer := map[slot := 1], entries := [Entry(slot, 1, 0, 1)]);
    assert Seen(s2, ReleaseTx(slot), slot) == 0;
    assert s3 == WithTx(s2, 1, written).(locks := s2.locks[slot := 1]);
    assert s3.txs == ReleasingState(slot).txs;
    assert s3.locks == map[slot := 1];
  }

  function GivenBackState(slot: Slot): State {
    ReleasingState(slot).(
      rows := map[slot := 1], locks := map[],
      holds := [HoldRow(RoomHold(slot), false)],
      ledger := [Entry(slot, -1, 1, 0), Entry(slot, 1, 0, 1)],
      txs := [ReserveTx(slot),
              ReleaseTx(slot).(done := 1, buffer := map[slot := 1], entries := [Entry(slot, 1, 0, 1)],
                               status := Committed),
              ReleaseTx(slot)])
  }

  lemma FirstCommit(slot: Slot)
    ensures Step(ReleasingState(slot), Commit(1)) == GivenBackState(slot)
  {
    var s := ReleasingState(slot);
    var taken := [Taken(0, OneNight(slot))];
    assert Deleted(s.holds, taken, 0) == s.holds;
    assert Deleted(s.holds, taken, 1) == GivenBackState(slot).holds;
    assert Gone(s.holds, taken, 0) == [] && Gone(s.holds, taken, 1) == [] + [];
    var t := CommittedState(s, 1);
    assert t.rows == map[slot := 1] && t.locks == map[];
    assert t.txs == GivenBackState(slot).txs;
    assert t.ledger == GivenBackState(slot).ledger;
  }

  function SecondTx(slot: Slot): Tx {
    ReleaseTx(slot).(done := 1, buffer := map[slot := 2], entries := [Entry(slot, 1, 1, 2)])
  }

  lemma SecondAdvance(slot: Slot)
    ensures Step(GivenBackState(slot), Advance(2)) ==
            WithTx(GivenBackState(slot), 2, SecondTx(slot)).(locks := map[slot := 2])
  {
    var s := GivenBackState(slot);
    WrittenOne(ReleaseTx(slot), slot, 1, 1);
    assert Seen(s, ReleaseTx(slot), slot) == 1;
    assert s.locks[slot := 2] == map[slot := 2];
  }

  lemma SecondCommit(slot: Slot)
    ensures var s := Step(WithTx(GivenBackState(slot), 2, SecondTx(slot)).(locks := map[slot := 2]), Commit(2));
            s.rows == map[slot := 2] && s.capacity == map[slot.unit := 1]
            && s.phantoms == [OneNight(slot)]
  {
    var s := WithTx(GivenBackState(slot), 2, SecondTx(slot)).(locks := map[slot := 2]);
    var taken := [Taken(0, OneNight(slot))];
    assert Deleted(s.holds, taken, 0) == s.holds;
    assert Gone(s.holds, taken, 0) == [];
    assert Gone(s.holds, taken, 1) == [] + [OneNight(slot)];
    var t := CommittedState(s, 2);
    assert t.rows == map[slot := 2];
    assert t.phantoms == [] + [OneNight(slot)];
  }

  lemma BothWriteRun(slot: Slot)
    ensures var s := Run(ReleasingState(slot), BOTH_WRITE);
            s.rows == map[slot := 2] && s.capacity == map[slot.unit := 1]
            && s.phantoms == [OneNight(slot)]
  {
    RunThree(ReleasingState(slot), Commit(1), Advance(2), Commit(2));
    FirstCommit(slot);
    SecondAdvance(slot);
    SecondCommit(slot);
  }

  /** Releasing one hold twice at once gives its capacity back twice: more is free than there is. */
  lemma DoubleReleaseOverfills(slot: Slot)
    ensures var s := Run(Init(map[slot.unit := 1]),
                         HoldRoom(OneNight(slot)) + (BOTH_READ + BOTH_WRITE));
            Available(s, slot) == 2 && Capacity(s, slot) == 1 && s.phantoms == [OneNight(slot)]
  {
    RunConcat(Init(map[slot.unit := 1]), HoldRoom(OneNight(slot)), BOTH_READ + BOTH_WRITE);
    RunConcat(HeldState(slot), BOTH_READ, BOTH_WRITE);
    HoldRoomRun(slot);
    BothReadRun(slot);
    BothWriteRun(slot);
  }

  // ---------------------------------------------------------------- the tables as an object

  /** The loop of `groupHoldsByRange`, over an insertion-ordered map of groups. */
  method GroupHoldsByRange(taken: seq<Taken>) returns (groups: seq<Group>)
    ensures groups == Groups(taken, |taken|)
  {
    groups := [];
    var i := 0;
    while i < |taken|
      invariant 0 <= i <= |taken|
      invariant groups == Groups(taken, i)
    {
      groups := AddToGroups(groups, taken[i].span);
      i := i + 1;
    }
  }

  /** The tables, their locks and the transactions on them; one method for each kind of step. */
  class Inventory {
    const capacity: map<nat, nat>
    var rows: map<Slot, int>
    var holds: seq<HoldRow>
    var booked: seq<Span>
    var ledger: seq<Entry>
    var locks: map<Slot, nat>
    var txs: seq<Tx>
    var clock: nat
    ghost var phantoms: seq<Span>

    ghost function View(): State
      reads this
    {
      State(capacity, rows, holds, booked, ledger, locks, txs, clock, phantoms)
    }

    constructor (capacity: map<nat, nat>)
      ensures View() == Init(capacity)
    {
      this.capacity := capacity;
      rows, holds, booked, ledger, locks, txs, clock := map[], [], [], [], map[], [], 0;
      phantoms := [];
    }

    /** The lock on the next row, its check and its update. */
    method LockForCapacity(tx: nat) returns (granted: bool)
      requires IsWorking(View(), tx) && txs[tx].done < |txs[tx].work|
      modifies this
      ensures View() == Step(old(View()), Advance(tx))
      ensures granted <==> CanLock(old(View()), tx, old(txs)[tx].work[old(txs)[tx].done].slot)
    {
      var t := txs[tx];
      var w := t.work[t.done];
      if w.slot in locks && locks[w.slot] != tx {
        return false;
      }
      var before := if w.slot in t.buffer then t.buffer[w.slot]
                    else if w.slot in rows then rows[w.slot]
                    else if w.slot.unit in capacity then capacity[w.slot.unit] else 1;
      if t.purpose.Reserve? && before < t.purpose.quantity {
        RollBack(tx);
        return true;
      }
      txs := txs[tx := t.(done := t.done + 1, buffer := t.buffer[w.slot := before + w.delta],
                          entries := t.entries + [Entry(w.slot, w.delta, before, before + w.delta)])];
      locks := locks[w.slot := tx];
      granted := true;
    }

    method RollBack(tx: nat)
      requires IsWorking(View(), tx)
      modifies this
      ensures View() == Step(old(View()), Abort(tx))
    {
      txs := txs[tx := txs[tx].(status := Aborted)];
      locks := Unlocked(locks, tx);
    }

    /** `releaseHold`, up to its first lock: conflict unless every hold is active and the user's. */
    method ReleaseHold(ids: seq<nat>, userId: nat) returns (tx: Option<nat>)
      modifies this
      ensures View() == Step(old(View()), BeginRelease(ids, userId))
      ensures tx.Some? <==>
              && (forall i, j | 0 <= i < j < |ids| :: ids[i] != ids[j])
              && forall i | 0 <= i < |ids| ::
                   ids[i] < |old(holds)| && old(holds)[ids[i]].live
                   && old(holds)[ids[i]].hold.userId == userId
                   && old(holds)[ids[i]].hold.expiresAt > old(clock)
      ensures tx.Some? ==> tx.value == |old(txs)|
    {
      if !(Distinct(ids) && forall i | 0 <= i < |ids| ::
             ids[i] < |holds| && holds[ids[i]].live
             && holds[ids[i]].hold.userId == userId && holds[ids[i]].hold.expiresAt > clock)
      {
        return None;
      }
      var taken: seq<Taken> := [];
      var i := 0;
      while i < |ids|
        invariant 0 <= i <= |ids|
        invariant taken == Read(View(), ids)[..i]
      {
        taken := taken + [Taken(ids[i], holds[ids[i]].hold.span)];
        i := i + 1;
      }
      assert taken == Read(View(), ids);
      var groups := GroupHoldsByRange(taken);
      tx := Some(|txs|);
      txs := txs + [Tx(Restore, taken, GroupWrites(groups), 0, map[], [], Working)];
    }
  }
}
