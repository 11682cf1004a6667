/**
 * The Redis-caching permission repository as a machine of single steps: any number of lookups,
 * grant changes, clock ticks and cache failures, in any interleaving.
 */
module PermissionCache {
  import opened Common
  import opened PermissionCacheKey

  /** The role tables from the moment they were committed until the next version. */
  datatype Version = Version(grants: Grants, since: nat)

  /** What is stored under a key, until its expiry. */
  datatype Entry =
    | Stored(keys: set<Permission>, expiry: nat, filler: nat)
    | Corrupt(expiry: nat)

  datatype Phase =
    | Started
    | Missed
    // the database has answered; the cache write is not issued yet
    | Answered
    // the cache write is issued and not settled for the caller
    | Storing
    | Returned(keys: set<Permission>, origin: Origin)
    | Rejected

  datatype Origin = NoRoles | FromCache(filler: nat, at: nat) | FromDatabase

  /** The database answer a lookup got, with the version it was read from and the time. */
  datatype Fill = Fill(keys: set<Permission>, version: nat, readAt: nat)

  /** What becomes of a lookup's cache write; an unacknowledged one may take effect late. */
  datatype Write = NotIssued | InFlight | Applied(at: nat) | Lost

  datatype Call = Call(
    roleCodes: seq<string>, startedAt: nat, phase: Phase, fill: Option<Fill>, write: Write)

  datatype State = State(
    ttl: nat, clock: nat, versions: seq<Version>, redis: map<string, Entry>, calls: seq<Call>)

  function Init(ttl: nat, grants: Grants): State {
    State(ttl, 0, [Version(grants, 0)], map[], [])
  }

  datatype Action =
    | Begin(roleCodes: seq<string>)
    | CacheGet(call: nat, fails: bool)
    | ReadDatabase(call: nat, fails: bool)
    | IssueSet(call: nat)
    | ApplyWrite(call: nat)
    | LoseWrite(call: nat)
    | Return(call: nat)
    // the rest of the world
    | Tick(seconds: nat)
    | SetGrants(grants: Grants)
    | Evict(key: string)
    | Spoil(key: string, expiry: nat)

  /** An entry is visible until its expiry. */
  function Visible(s: State, key: string): Option<Entry> {
    if key in s.redis && s.clock < s.redis[key].expiry then Some(s.redis[key]) else None
  }

  /** The lookup after its cache read: a failing read and a corrupt entry fall through. */
  function AfterGet(s: State, call: Call, fails: bool): Call {
    var entry := if fails then None else Visible(s, CacheKey(call.roleCodes));
    if entry.Some? && entry.value.Stored?
    then call.(phase := Returned(entry.value.keys, FromCache(entry.value.filler, s.clock)))
    else call.(phase := Missed)
  }

  function AfterRead(s: State, call: Call, fails: bool): Call
    requires s.versions != []
  {
    if fails then call.(phase := Rejected)
    else
      var version := |s.versions| - 1;
      var keys := Answer(s.versions[version].grants, call.roleCodes);
      call.(phase := Answered, fill := Some(Fill(keys, version, s.clock)))
  }

  predicate InPhase(s: State, call: nat, phase: Phase) {
    call < |s.calls| && s.calls[call].phase == phase
  }

  predicate Writing(s: State, call: nat) {
    call < |s.calls| && s.calls[call].write.InFlight? && s.calls[call].fill.Some?
  }

  function WithCall(s: State, call: nat, after: Call): State
    requires call < |s.calls|
  {
    s.(calls := s.calls[call := after])
  }

  function Began(s: State, roleCodes: seq<string>): Call {
    Call(roleCodes, s.clock,
         if roleCodes == [] then Returned({}, NoRoles) else Started, None, NotIssued)
  }

  /** One step; a step that is not possible yet changes nothing. */
  function Step(s: State, a: Action): State
    requires s.versions != []
    ensures Step(s, a).versions != []
  {
    match a
    case Begin(roleCodes) => s.(calls := s.calls + [Began(s, roleCodes)])
    case CacheGet(c, fails) =>
      if InPhase(s, c, Started) then WithCall(s, c, AfterGet(s, s.calls[c], fails)) else s
    case ReadDatabase(c, fails) =>
      if InPhase(s, c, Missed) then WithCall(s, c, AfterRead(s, s.calls[c], fails)) else s
    case IssueSet(c) =>
      if InPhase(s, c, Answered)
      then WithCall(s, c, s.calls[c].(phase := Storing, write := InFlight))
      else s
    case ApplyWrite(c) =>
      if Writing(s, c) then
        var call := s.calls[c];
        WithCall(s, c, call.(write := Applied(s.clock))).(redis :=
          s.redis[CacheKey(call.roleCodes) := Stored(call.fill.value.keys, s.clock + s.ttl, c)])
      else s
    case LoseWrite(c) =>
      if Writing(s, c) then WithCall(s, c, s.calls[c].(write := Lost)) else s
    case Return(c) =>
      if InPhase(s, c, Storing) && s.calls[c].fill.Some?
      then WithCall(s, c, s.calls[c].(phase := Returned(s.calls[c].fill.value.keys, FromDatabase)))
      else s
    case Tick(seconds) => s.(clock := s.clock + seconds)
    case SetGrants(grants) => s.(versions := s.versions + [Version(grants, s.clock)])
    case Evict(key) => s.(redis := s.redis - {key})
    case Spoil(key, expiry) => s.(redis := s.redis[key := Corrupt(expiry)])
  }

  function Run(s: State, actions: seq<Action>): (r: State)
    requires s.versions != []
    ensures r.versions != []
    decreases |actions|
  {
    if actions == [] then s else Run(Step(s, actions[0]), actions[1..])
  }

  // ---------------------------------------------------------------- what every step keeps

  /** The database held this version at time `t`. */
  predicate HeldAt(versions: seq<Version>, v: nat, t: nat) {
    && v < |versions|
    && versions[v].since <= t
    && (v + 1 < |versions| ==> t <= versions[v + 1].since)
  }

  predicate VersionsOk(s: State) {
    && s.versions != []
    && forall v | 0 <= v < |s.versions| :: s.versions[v].since <= s.clock
  }

  predicate FillOk(s: State, call: Call, fill: Fill) {
    && HeldAt(s.versions, fill.version, fill.readAt)
    && call.startedAt <= fill.readAt <= s.clock
    && fill.keys == Answer(s.versions[fill.version].grants, call.roleCodes)
  }

  /** The entry came from the write of its filler, one time-to-live before its expiry. */
  predicate FilledBy(s: State, key: string, keys: set<Permission>, filler: nat, expiry: nat) {
    && filler < |s.calls|
    && var f := s.calls[filler];
    && f.write.Applied? && f.fill.Some?
    && f.roleCodes != [] && CacheKey(f.roleCodes) == key
    && f.fill.value.keys == keys
    && f.write.at + s.ttl == expiry
  }

  predicate WriteOk(s: State, call: Call) {
    && (!call.write.NotIssued? ==> call.fill.Some?)
    && (call.write.Applied? ==> call.fill.value.readAt <= call.write.at <= s.clock)
  }

  predicate AnswerOk(s: State, call: Call, keys: set<Permission>, origin: Origin) {
    match origin
    case NoRoles => call.roleCodes == [] && keys == {}
    case FromDatabase => call.fill.Some? && call.fill.value.keys == keys
    case FromCache(filler, at) =>
      && filler < |s.calls| && s.calls[filler].write.Applied?
      && var stored := s.calls[filler].write.at;
      && FilledBy(s, CacheKey(call.roleCodes), keys, filler, stored + s.ttl)
      && stored <= at < stored + s.ttl
      && call.startedAt <= at <= s.clock
  }

  predicate CallOk(s: State, call: Call) {
    && call.startedAt <= s.clock
    && (call.roleCodes == [] ==> call.phase == Returned({}, NoRoles) && call.fill.None?)
    && (call.fill.Some? ==> FillOk(s, call, call.fill.value))
    && WriteOk(s, call)
    && (call.phase.Answered? || call.phase.Storing? ==> call.fill.Some?)
    && (call.phase.Started? || call.phase.Missed? ==> call.fill.None?)
    && (call.phase.Answered? ==> call.write.NotIssued?)
    && (call.phase.Returned? ==> AnswerOk(s, call, call.phase.keys, call.phase.origin))
  }

  predicate EntryOk(s: State, key: string, entry: Entry) {
    entry.Stored? ==> FilledBy(s, key, entry.keys, entry.filler, entry.expiry)
                      && s.calls[entry.filler].write.at <= s.clock
  }

  ghost predicate Inv(s: State) {
    && VersionsOk(s)
    && (forall c | 0 <= c < |s.calls| :: CallOk(s, s.calls[c]))
    && (forall key | key in s.redis :: EntryOk(s, key, s.redis[key]))
  }

  /** Time passes, versions are only added, and an applied write is history. */
  ghost predicate Extends(s: State, t: State) {
    && s.ttl == t.ttl && s.clock <= t.clock
    && s.versions <= t.versions
    && (|s.versions| < |t.versions| ==> s.clock <= t.versions[|s.versions|].since)
    && |s.calls| <= |t.calls|
    && forall c | 0 <= c < |s.calls| && s.calls[c].write.Applied? ::
         && t.calls[c].write == s.calls[c].write && t.calls[c].fill == s.calls[c].fill
         && t.calls[c].roleCodes == s.calls[c].roleCodes
  }

  lemma CallOkExtends(s: State, t: State, call: Call)
    requires CallOk(s, call) && Extends(s, t)
    ensures CallOk(t, call)
  {
  }

  lemma EntryOkExtends(s: State, t: State, key: string, entry: Entry)
    requires EntryOk(s, key, entry) && Extends(s, t)
    ensures EntryOk(t, key, entry)
  {
  }

  /** Replacing one call, whose write is not history yet or stays as it is. */
  lemma WithCallKeepsInv(s: State, c: nat, after: Call)
    requires Inv(s) && c < |s.calls| && CallOk(s, after)
    requires s.calls[c].write.Applied? ==>
               after.write == s.calls[c].write && after.fill == s.calls[c].fill
    requires after.roleCodes == s.calls[c].roleCodes
    ensures Extends(s, WithCall(s, c, after)) && Inv(WithCall(s, c, after))
  {
    var t := WithCall(s, c, after);
    forall k | 0 <= k < |t.calls| ensures CallOk(t, t.calls[k]) {
      assert CallOk(s, t.calls[k]);
      CallOkExtends(s, t, t.calls[k]);
    }
    forall key | key in t.redis ensures EntryOk(t, key, t.redis[key]) {
      EntryOkExtends(s, t, key, t.redis[key]);
    }
  }

  /** A step that leaves the calls and the stored entries as they are, or drops entries. */
  lemma WorldKeepsInv(s: State, t: State)
    requires Inv(s) && Extends(s, t) && VersionsOk(t) && t.calls == s.calls
    requires forall key | key in t.redis ::
               t.redis[key].Corrupt? || (key in s.redis && t.redis[key] == s.redis[key])
    ensures Inv(t)
  {
    forall k | 0 <= k < |t.calls| ensures CallOk(t, t.calls[k]) {
      CallOkExtends(s, t, s.calls[k]);
    }
    forall key | key in t.redis ensures EntryOk(t, key, t.redis[key]) {
      if t.redis[key].Stored? {
        EntryOkExtends(s, t, key, s.redis[key]);
      }
    }
  }

  lemma BeginKeepsInv(s: State, roleCodes: seq<string>)
    requires Inv(s)
    ensures Inv(Step(s, Begin(roleCodes))) && Extends(s, Step(s, Begin(roleCodes)))
  {
    var t := Step(s, Begin(roleCodes));
    forall k | 0 <= k < |t.calls| ensures CallOk(t, t.calls[k]) {
      assert CallOk(s, t.calls[k]);
      CallOkExtends(s, t, t.calls[k]);
    }
    forall key | key in t.redis ensures EntryOk(t, key, t.redis[key]) {
      EntryOkExtends(s, t, key, t.redis[key]);
    }
  }

  lemma GetKeepsInv(s: State, c: nat, fails: bool)
    requires Inv(s)
    ensures Inv(Step(s, CacheGet(c, fails))) && Extends(s, Step(s, CacheGet(c, fails)))
  {
    if InPhase(s, c, Started) {
      WithCallKeepsInv(s, c, AfterGet(s, s.calls[c], fails));
    }
  }

  lemma ReadKeepsInv(s: State, c: nat, fails: bool)
    requires Inv(s)
    ensures Inv(Step(s, ReadDatabase(c, fails))) && Extends(s, Step(s, ReadDatabase(c, fails)))
  {
    if InPhase(s, c, Missed) {
      WithCallKeepsInv(s, c, AfterRead(s, s.calls[c], fails));
    }
  }

  lemma ApplyKeepsInv(s: State, c: nat)
    requires Inv(s)
    ensures Inv(Step(s, ApplyWrite(c))) && Extends(s, Step(s, ApplyWrite(c)))
  {
    if Writing(s, c) {
      var call := s.calls[c];
      var after := call.(write := Applied(s.clock));
      WithCallKeepsInv(s, c, after);
      var u, t := WithCall(s, c, after), Step(s, ApplyWrite(c));
      assert Extends(u, t);
      forall k | 0 <= k < |t.calls| ensures CallOk(t, t.calls[k]) {
        CallOkExtends(u, t, u.calls[k]);
      }
      forall key | key in t.redis ensures EntryOk(t, key, t.redis[key]) {
        if key != CacheKey(call.roleCodes) {
          EntryOkExtends(u, t, key, u.redis[key]);
        }
      }
    }
  }

  lemma StepKeepsInv(s: State, a: Action)
    requires Inv(s)
    ensures Inv(Step(s, a)) && Extends(s, Step(s, a))
  {
    match a
    case Begin(roleCodes) => BeginKeepsInv(s, roleCodes);
    case CacheGet(c, fails) => GetKeepsInv(s, c, fails);
    case ReadDatabase(c, fails) => ReadKeepsInv(s, c, fails);
    case IssueSet(c) =>
      if InPhase(s, c, Answered) {
        WithCallKeepsInv(s, c, s.calls[c].(phase := Storing, write := InFlight));
      }
    case ApplyWrite(c) => ApplyKeepsInv(s, c);
    case LoseWrite(c) =>
      if Writing(s, c) {
        WithCallKeepsInv(s, c, s.calls[c].(write := Lost));
      }
    case Return(c) =>
      if InPhase(s, c, Storing) && s.calls[c].fill.Some? {
        WithCallKeepsInv(s, c,
          s.calls[c].(phase := Returned(s.calls[c].fill.value.keys, FromDatabase)));
      }
    case Tick(seconds) => WorldKeepsInv(s, Step(s, a));
    case SetGrants(grants) => WorldKeepsInv(s, Step(s, a));
    case Evict(key) => WorldKeepsInv(s, Step(s, a));
    case Spoil(key, expiry) => WorldKeepsInv(s, Step(s, a));
  }

  lemma {:induction false} RunKeepsInv(s: State, actions: seq<Action>)
    requires Inv(s)
    ensures Inv(Run(s, actions))
    ensures Run(s, actions).ttl == s.ttl
    decreases |actions|
  {
    if actions != [] {
      StepKeepsInv(s, actions[0]);
      RunKeepsInv(Step(s, actions[0]), actions[1..]);
    }
  }

  // ---------------------------------------------------------------- what a lookup returns

  ghost predicate AllCommaFree(s: State) {
    forall c | 0 <= c < |s.calls| :: CommaFree(s.calls[c].roleCodes)
  }

  /** Exactly what these roles are granted, by one or another of them. */
  ghost predicate ExactlyGranted(grants: Grants, roleCodes: seq<string>, keys: set<Permission>) {
    forall p :: p in keys <==> SomeRoleGrants(grants, roleCodes, p)
  }

  /** Exactly what a version granted to these roles that the database held at time `t`. */
  ghost predicate AnswerHeldAt(s: State, roleCodes: seq<string>, keys: set<Permission>, t: nat) {
    exists v: nat ::
      HeldAt(s.versions, v, t) && ExactlyGranted(s.versions[v].grants, roleCodes, keys)
  }

  /** An empty list of roles has no keys, whatever the tables and the cache hold. */
  lemma NoRolesNoKeys(ttl: nat, grants: Grants, actions: seq<Action>, c: nat)
    requires var s := Run(Init(ttl, grants), actions);
             c < |s.calls| && s.calls[c].phase.Returned? && s.calls[c].phase.origin.NoRoles?
    ensures Run(Init(ttl, grants), actions).calls[c].phase.keys == {}
  {
    RunKeepsInv(Init(ttl, grants), actions);
    assert CallOk(Run(Init(ttl, grants), actions), Run(Init(ttl, grants), actions).calls[c]);
  }

  /** Over every run: a miss returns what the database held at a moment during the call. */
  lemma MissIsCurrent(ttl: nat, grants: Grants, actions: seq<Action>, c: nat)
    requires var s := Run(Init(ttl, grants), actions);
             c < |s.calls| && s.calls[c].phase.Returned? && s.calls[c].phase.origin.FromDatabase?
    ensures var s := Run(Init(ttl, grants), actions);
            var call := s.calls[c];
            && call.fill.Some? && call.startedAt <= call.fill.value.readAt <= s.clock
            && AnswerHeldAt(s, call.roleCodes, call.phase.keys, call.fill.value.readAt)
  {
    RunKeepsInv(Init(ttl, grants), actions);
    var s := Run(Init(ttl, grants), actions);
    assert CallOk(s, s.calls[c]);
    var fill := s.calls[c].fill.value;
    AnswerExact(s.versions[fill.version].grants, s.calls[c].roleCodes);
    assert HeldAt(s.versions, fill.version, fill.readAt);
  }

  /**
   * Over every run: a hit at time `g` returns what the database held for these very roles when
   * the filling call read it, at a time `r` with `g < r + ttl + (w - r)`, where `w` is the time
   * that call's cache write took effect.
   */
  lemma HitIsBoundedStale(ttl: nat, grants: Grants, actions: seq<Action>, c: nat)
    requires var s := Run(Init(ttl, grants), actions);
             && c < |s.calls| && s.calls[c].phase.Returned? && s.calls[c].phase.origin.FromCache?
             && AllCommaFree(s)
    ensures var s := Run(Init(ttl, grants), actions);
            var call := s.calls[c];
            var g := call.phase.origin.at;
            && call.startedAt <= g <= s.clock
            && call.phase.origin.filler < |s.calls|
            && var filler := s.calls[call.phase.origin.filler];
            && filler.fill.Some? && filler.write.Applied?
            && var r, w := filler.fill.value.readAt, filler.write.at;
            && filler.startedAt <= r <= w <= g < r + ttl + (w - r)
            && AnswerHeldAt(s, call.roleCodes, call.phase.keys, r)
  {
    RunKeepsInv(Init(ttl, grants), actions);
    var s := Run(Init(ttl, grants), actions);
    var call := s.calls[c];
    assert CallOk(s, call);
    var f := call.phase.origin.filler;
    assert CallOk(s, s.calls[f]);
    var fill := s.calls[f].fill.value;
    SameKeySameAnswer(s.versions[fill.version].grants, call.roleCodes, s.calls[f].roleCodes);
    AnswerExact(s.versions[fill.version].grants, call.roleCodes);
    assert HeldAt(s.versions, fill.version, fill.readAt);
  }

  /**
   * Redis down for the read and for the write: a lookup returns what its roles are granted in
   * the current version, and is rejected when the database fails as well.
   */
  lemma OutageFallsThrough(s: State, c: nat, fails: bool)
    requires s.versions != [] && InPhase(s, c, Started)
    ensures var t := Run(s, [CacheGet(c, true), ReadDatabase(c, fails)]
                            + [IssueSet(c), LoseWrite(c), Return(c)]);
            && c < |t.calls|
            && (fails ==> t.calls[c].phase.Rejected?)
            && (!fails ==>
                  && t.calls[c].phase.Returned? && t.calls[c].phase.origin.FromDatabase?
                  && ExactlyGranted(s.versions[|s.versions| - 1].grants, s.calls[c].roleCodes,
                                    t.calls[c].phase.keys))
  {
    RunConcat(s, [CacheGet(c, true), ReadDatabase(c, fails)],
              [IssueSet(c), LoseWrite(c), Return(c)]);
    RunTwo(s, CacheGet(c, true), ReadDatabase(c, fails));
    var s1 := Step(s, CacheGet(c, true));
    assert s1.calls[c].phase == Missed;
    var s2 := Step(s1, ReadDatabase(c, fails));
    RunThree(s2, IssueSet(c), LoseWrite(c), Return(c));
    if fails {
      assert s2.calls[c].phase == Rejected;
    } else {
      AnswerExact(s.versions[|s.versions| - 1].grants, s.calls[c].roleCodes);
      assert s2.calls[c].phase == Answered;
    }
  }

  /**
   * What a cache write has stored is what any later lookup of the same roles in any order gets,
   * without the database, until the time-to-live has passed; from then on it gets nothing.
   */
  lemma WrittenIsServed(s: State, c: nat, later: nat, roleCodes: seq<string>)
    requires s.versions != [] && Writing(s, c) && roleCodes != []
    requires multiset(roleCodes) == multiset(s.calls[c].roleCodes)
    ensures var n := |s.calls|;
            var waited := Step(Step(s, ApplyWrite(c)), Tick(later));
            var t := Step(Step(waited, Begin(roleCodes)), CacheGet(n, false));
            && |t.calls| == n + 1
            && t.calls[n].phase == if later < s.ttl
                                   then Returned(s.calls[c].fill.value.keys,
                                                 FromCache(c, s.clock + later))
                                   else Missed
  {
    OrderNeverMatters(roleCodes, s.calls[c].roleCodes);
    WrittenEntry(s, c, later);
    BeginThenGet(Step(Step(s, ApplyWrite(c)), Tick(later)), roleCodes);
  }

  lemma WrittenEntry(s: State, c: nat, later: nat)
    requires s.versions != [] && Writing(s, c)
    ensures var t := Step(Step(s, ApplyWrite(c)), Tick(later));
            && t.clock == s.clock + later && |t.calls| == |s.calls|
            && var key := CacheKey(s.calls[c].roleCodes);
               && key in t.redis
               && t.redis[key] == Stored(s.calls[c].fill.value.keys, s.clock + s.ttl, c)
  {
  }

  lemma BeginThenGet(s: State, roleCodes: seq<string>)
    requires s.versions != [] && roleCodes != []
    ensures var n := |s.calls|;
            var t := Step(Step(s, Begin(roleCodes)), CacheGet(n, false));
            var key := CacheKey(roleCodes);
            && |t.calls| == n + 1
            && t.calls[n].phase ==
               if key in s.redis && s.clock < s.redis[key].expiry && s.redis[key].Stored?
               then Returned(s.redis[key].keys, FromCache(s.redis[key].filler, s.clock))
               else Missed
  {
    var t := Step(s, Begin(roleCodes));
    assert t.calls[|s.calls|] == Call(roleCodes, s.clock, Started, None, NotIssued);
  }

  /** A corrupt or missing entry is a miss, like a failing read. */
  lemma UnreadableIsAMiss(s: State, c: nat, fails: bool)
    requires s.versions != [] && InPhase(s, c, Started)
    requires var key := CacheKey(s.calls[c].roleCodes);
             fails || key !in s.redis || s.redis[key].Corrupt?
    ensures InPhase(Step(s, CacheGet(c, fails)), c, Missed)
  {
  }

  /** So are an entry that Redis has evicted, and one that was overwritten with no JSON text. */
  lemma RemovedIsAMiss(s: State, c: nat, expiry: nat)
    requires s.versions != [] && InPhase(s, c, Started)
    ensures var key := CacheKey(s.calls[c].roleCodes);
            && InPhase(Step(Step(s, Evict(key)), CacheGet(c, false)), c, Missed)
            && InPhase(Step(Step(s, Spoil(key, expiry)), CacheGet(c, false)), c, Missed)
  {
  }

  ghost predicate NoneRejected(s: State) {
    forall c | 0 <= c < |s.calls| :: !s.calls[c].phase.Rejected?
  }

  lemma NoneRejectedStep(s: State, a: Action)
    requires s.versions != [] && NoneRejected(s) && (a.ReadDatabase? ==> !a.fails)
    ensures NoneRejected(Step(s, a))
  {
    var t := Step(s, a);
    forall c | 0 <= c < |t.calls| ensures !t.calls[c].phase.Rejected? {
      assert c < |s.calls| ==> !s.calls[c].phase.Rejected?;
    }
  }

  /** Whatever Redis does, only a failing database rejects a lookup. */
  lemma {:induction false} RedisNeverRejects(s: State, actions: seq<Action>)
    requires s.versions != [] && NoneRejected(s)
    requires forall i | 0 <= i < |actions| :: actions[i].ReadDatabase? ==> !actions[i].fails
    ensures NoneRejected(Run(s, actions))
    decreases |actions|
  {
    if actions != [] {
      NoneRejectedStep(s, actions[0]);
      RedisNeverRejects(Step(s, actions[0]), actions[1..]);
    }
  }

  // ---------------------------------------------------------------- revocation

  /** Every cache write took effect within `delay` of its call's database read. */
  predicate DelaysWithin(s: State, delay: nat) {
    forall c | 0 <= c < |s.calls| && s.calls[c].write.Applied? && s.calls[c].fill.Some? ::
      s.calls[c].write.at <= s.calls[c].fill.value.readAt + delay
  }

  /** From time `t` on, none of these roles gives the permission. */
  predicate RevokedFrom(s: State, roleCodes: seq<string>, p: Permission, t: nat) {
    forall v | 0 <= v < |s.versions| && (v + 1 < |s.versions| ==> s.versions[v + 1].since > t) ::
      !SomeRoleGrants(s.versions[v].grants, roleCodes, p)
  }

  /** A lookup begun `bound` or more after the revocation still returned the permission. */
  ghost predicate Violates(s: State, delay: nat, c: nat, p: Permission, t: nat, bound: nat) {
    && DelaysWithin(s, delay) && AllCommaFree(s)
    && c < |s.calls| && s.calls[c].phase.Returned? && p in s.calls[c].phase.keys
    && RevokedFrom(s, s.calls[c].roleCodes, p, t)
    && s.calls[c].startedAt >= t + bound
  }

  ghost predicate TakesEffectWithin(ttl: nat, delay: nat, bound: nat) {
    forall grants, actions, c, p, t ::
      !Violates(Run(Init(ttl, grants), actions), delay, c, p, t, bound)
  }

  lemma HeldAfterRevocation(
      s: State, roleCodes: seq<string>, keys: set<Permission>, r: nat, p: Permission, t: nat)
    requires AnswerHeldAt(s, roleCodes, keys, r) && RevokedFrom(s, roleCodes, p, t) && r > t
    ensures p !in keys
  {
    var v: nat :| HeldAt(s.versions, v, r)
                  && ExactlyGranted(s.versions[v].grants, roleCodes, keys);
    assert v + 1 < |s.versions| ==> s.versions[v + 1].since > t;
    assert !SomeRoleGrants(s.versions[v].grants, roleCodes, p);
  }

  lemma RevocationHolds(
      ttl: nat, delay: nat, grants: Grants, actions: seq<Action>, c: nat, p: Permission, t: nat,
      bound: nat)
    requires ttl >= 1 && bound >= ttl + delay
    ensures !Violates(Run(Init(ttl, grants), actions), delay, c, p, t, bound)
  {
    var s := Run(Init(ttl, grants), actions);
    if Violates(s, delay, c, p, t, bound) {
      var call := s.calls[c];
      match call.phase.origin
      case NoRoles =>
        NoRolesNoKeys(ttl, grants, actions, c);
      case FromDatabase =>
        MissIsCurrent(ttl, grants, actions, c);
        HeldAfterRevocation(s, call.roleCodes, call.phase.keys, call.fill.value.readAt, p, t);
      case FromCache(f, g) =>
        HitIsBoundedStale(ttl, grants, actions, c);
        HeldAfterRevocation(s, call.roleCodes, call.phase.keys, s.calls[f].fill.value.readAt, p, t);
    }
  }

  lemma {:induction false} RunCons(s: State, a: Action, actions: seq<Action>)
    requires s.versions != []
    ensures Run(s, [a] + actions) == Run(Step(s, a), actions)
  {
    assert ([a] + actions)[1..] == actions;
  }

  lemma {:induction false} RunConcat(s: State, first: seq<Action>, second: seq<Action>)
    requires s.versions != []
    ensures Run(s, first + second) == Run(Run(s, first), second)
    decreases |first|
  {
    if first == [] {
      assert first + second == second;
    } else {
      assert first + second == [first[0]] + (first[1..] + second);
      RunCons(s, first[0], first[1..] + second);
      RunConcat(Step(s, first[0]), first[1..], second);
    }
  }

  lemma RunTwo(s: State, a: Action, b: Action)
    requires s.versions != []
    ensures Run(s, [a, b]) == Step(Step(s, a), b)
  {
    assert [a, b] == [a] + ([b] + []);
    RunCons(s, a, [b] + []);
    RunCons(Step(s, a), b, []);
  }

  lemma RunThree(s: State, a: Action, b: Action, c: Action)
    requires s.versions != []
    ensures Run(s, [a, b, c]) == Step(Step(Step(s, a), b), c)
  {
    assert [a, b, c] == [a] + ([b] + ([c] + []));
    RunCons(s, a, [b] + ([c] + []));
    RunCons(Step(s, a), b, [c] + []);
    RunCons(Step(Step(s, a), b), c, []);
  }

  function OneGrant(code: string, p: Permission): Grants {
    map[code := {p}]
  }

  lemma OneAnswer(code: string, p: Permission)
    ensures Answer(OneGrant(code, p), [code]) == {p}
    ensures Answer(map[], [code]) == {}
  {
    var grants := OneGrant(code, p);
    assert code in [code] && code in grants && p in grants[code];
    assert p in Answer(grants, [code]);
  }

  /** A filler reads; */
  const READS: seq<Action> := [CacheGet(0, false), ReadDatabase(0, false), SetGrants(map[])]

  /** the grant is revoked, and `delay` later its write takes effect; */
  function SlowWrite(delay: nat): seq<Action> {
    [Tick(delay), IssueSet(0), ApplyWrite(0)]
  }

  /** another lookup comes in the last second of the entry. */
  function LateHit(code: string, ttl: nat): seq<Action>
    requires ttl >= 1
  {
    [Tick(ttl - 1), Begin([code]), CacheGet(1, false)]
  }

  function SlowRun(code: string, ttl: nat, delay: nat): seq<Action>
    requires ttl >= 1
  {
    [Begin([code])] + (READS + (SlowWrite(delay) + LateHit(code, ttl)))
  }

  function ReadState(code: string, p: Permission, ttl: nat): State {
    State(ttl, 0, [Version(OneGrant(code, p), 0), Version(map[], 0)], map[],
          [Call([code], 0, Answered, Some(Fill({p}, 0, 0)), NotIssued)])
  }

  function FilledState(code: string, p: Permission, ttl: nat, delay: nat): State {
    State(ttl, delay, [Version(OneGrant(code, p), 0), Version(map[], 0)],
          map[CacheKey([code]) := Stored({p}, delay + ttl, 0)],
          [Call([code], 0, Storing, Some(Fill({p}, 0, 0)), Applied(delay))])
  }

  function StaleState(code: string, p: Permission, ttl: nat, delay: nat): State
    requires ttl >= 1
  {
    var t := delay + ttl - 1;
    FilledState(code, p, ttl, delay).(
      clock := t,
      calls := [Call([code], 0, Storing, Some(Fill({p}, 0, 0)), Applied(delay)),
                Call([code], t, Returned({p}, FromCache(0, t)), None, NotIssued)])
  }

  lemma ReadsRun(code: string, p: Permission, ttl: nat)
    ensures var s := Step(Init(ttl, OneGrant(code, p)), Begin([code]));
            Run(s, READS) == ReadState(code, p, ttl)
  {
    OneAnswer(code, p);
    var s1 := Step(Init(ttl, OneGrant(code, p)), Begin([code]));
    assert s1.calls == [Call([code], 0, Started, None, NotIssued)];
    var s2 := Step(s1, CacheGet(0, false));
    assert s2.calls == [Call([code], 0, Missed, None, NotIssued)];
    var s3 := Step(s2, ReadDatabase(0, false));
    assert s3.calls == [Call([code], 0, Answered, Some(Fill({p}, 0, 0)), NotIssued)];
    RunThree(s1, CacheGet(0, false), ReadDatabase(0, false), SetGrants(map[]));
  }

  lemma WriteRun(code: string, p: Permission, ttl: nat, delay: nat)
    ensures Run(ReadState(code, p, ttl), SlowWrite(delay)) == FilledState(code, p, ttl, delay)
  {
    var s1 := Step(ReadState(code, p, ttl), Tick(delay));
    var s2 := Step(s1, IssueSet(0));
    assert s2.calls == [Call([code], 0, Storing, Some(Fill({p}, 0, 0)), InFlight)];
    RunThree(ReadState(code, p, ttl), Tick(delay), IssueSet(0), ApplyWrite(0));
  }

  lemma HitRun(code: string, p: Permission, ttl: nat, delay: nat)
    requires ttl >= 1
    ensures Run(FilledState(code, p, ttl, delay), LateHit(code, ttl)) ==
            StaleState(code, p, ttl, delay)
  {
    var s0 := FilledState(code, p, ttl, delay);
    var s2 := Step(Step(s0, Tick(ttl - 1)), Begin([code]));
    assert s2.calls == s0.calls + [Call([code], delay + ttl - 1, Started, None, NotIssued)];
    RunThree(s0, Tick(ttl - 1), Begin([code]), CacheGet(1, false));
  }

  lemma SlowRunEnds(code: string, p: Permission, ttl: nat, delay: nat)
    requires ttl >= 1
    ensures Run(Init(ttl, OneGrant(code, p)), SlowRun(code, ttl, delay)) ==
            StaleState(code, p, ttl, delay)
  {
    var s0 := Init(ttl, OneGrant(code, p));
    RunCons(s0, Begin([code]), READS + (SlowWrite(delay) + LateHit(code, ttl)));
    RunConcat(Step(s0, Begin([code])), READS, SlowWrite(delay) + LateHit(code, ttl));
    RunConcat(ReadState(code, p, ttl), SlowWrite(delay), LateHit(code, ttl));
    ReadsRun(code, p, ttl);
    WriteRun(code, p, ttl, delay);
    HitRun(code, p, ttl, delay);
  }

  lemma StaleViolates(code: string, p: Permission, ttl: nat, delay: nat, bound: nat)
    requires ttl >= 1 && bound < ttl + delay && ',' !in code
    ensures Violates(StaleState(code, p, ttl, delay), delay, 1, p, 0, bound)
  {
    OneAnswer(code, p);
  }

  /**
   * With fills no slower than `delay`, a revocation has taken effect `bound` later, in every
   * run: exactly when the bound is at least the time-to-live plus that delay. The documented
   * bound, the time-to-live alone, is right only when fills take no time. (Redis refuses a
   * time-to-live of 0.)
   */
  lemma RevocationBoundExact(ttl: nat, delay: nat, bound: nat)
    requires ttl >= 1
    ensures TakesEffectWithin(ttl, delay, bound) <==> bound >= ttl + delay
  {
    if bound >= ttl + delay {
      forall grants, actions, c, p, t
        ensures !Violates(Run(Init(ttl, grants), actions), delay, c, p, t, bound)
      {
        RevocationHolds(ttl, delay, grants, actions, c, p, t, bound);
      }
    } else {
      SlowRunEnds("ADMIN", "listing.publish", ttl, delay);
      StaleViolates("ADMIN", "listing.publish", ttl, delay, bound);
    }
  }

  // ---------------------------------------------------------------- the repository as an object

  /** The shared state and the lookups running on it; one method for each step of a lookup. */
  class CachedPermissionRepository {
    const ttlSeconds: nat
    var clock: nat
    var versions: seq<Version>
    var redis: map<string, Entry>
    var calls: seq<Call>

    function View(): State
      reads this
    {
      State(ttlSeconds, clock, versions, redis, calls)
    }

    constructor (grants: Grants, ttl: nat := 60)
      ensures View() == Init(ttl, grants)
    {
      ttlSeconds := ttl;
      clock, versions, redis, calls := 0, [Version(grants, 0)], map[], [];
    }

    /** Up to the first wait. */
    method Lookup(roleCodes: seq<string>) returns (call: nat)
      requires versions != []
      modifies this
      ensures View() == Step(old(View()), Begin(roleCodes)) && call == |old(calls)|
    {
      call := |calls|;
      if |roleCodes| == 0 {
        calls := calls + [Call(roleCodes, clock, Returned({}, NoRoles), None, NotIssued)];
      } else {
        calls := calls + [Call(roleCodes, clock, Started, None, NotIssued)];
      }
    }

    /** `redis.get` settles. */
    method ReceiveCached(c: nat, fails: bool)
      requires versions != [] && InPhase(View(), c, Started)
      modifies this
      ensures View() == Step(old(View()), CacheGet(c, fails))
    {
      var call := calls[c];
      var key := CacheKey(call.roleCodes);
      var after := Missed;
      if !fails && key in redis && clock < redis[key].expiry {
        match redis[key]
        case Stored(keys, expiry, filler) => after := Returned(keys, FromCache(filler, clock));
        case Corrupt(_) =>
      }
      calls := calls[c := call.(phase := after)];
    }

    /** The wrapped repository answers, or its error rejects the lookup. */
    method ReceiveRows(c: nat, fails: bool)
      requires versions != [] && InPhase(View(), c, Missed)
      modifies this
      ensures View() == Step(old(View()), ReadDatabase(c, fails))
    {
      var call := calls[c];
      if fails {
        calls := calls[c := call.(phase := Rejected)];
        return;
      }
      var version := |versions| - 1;
      var keys := Answer(versions[version].grants, call.roleCodes);
      calls := calls[c := call.(phase := Answered, fill := Some(Fill(keys, version, clock)))];
    }

    method SendSet(c: nat)
      requires versions != [] && InPhase(View(), c, Answered)
      modifies this
      ensures View() == Step(old(View()), IssueSet(c))
    {
      calls := calls[c := calls[c].(phase := Storing, write := InFlight)];
    }

    /** Redis executes the `SET … EX`. */
    method ExecuteSet(c: nat)
      requires versions != [] && Writing(View(), c)
      modifies this
      ensures View() == Step(old(View()), ApplyWrite(c))
    {
      var call := calls[c];
      redis := redis[CacheKey(call.roleCodes) :=
                       Stored(call.fill.value.keys, clock + ttlSeconds, c)];
      calls := calls[c := call.(write := Applied(clock))];
    }

    /** `redis.set` settles, either way, and the lookup returns what it read. */
    method Finish(c: nat) returns (keys: set<Permission>)
      requires versions != [] && InPhase(View(), c, Storing) && calls[c].fill.Some?
      modifies this
      ensures View() == Step(old(View()), Return(c)) && keys == old(calls)[c].fill.value.keys
    {
      keys := calls[c].fill.value.keys;
      calls := calls[c := calls[c].(phase := Returned(keys, FromDatabase))];
    }
  }
}
