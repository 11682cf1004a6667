/** The in-process domain event bus: an isolated fan-out over insertion-ordered sets. */
module EventBus {
  import opened Common

  /** A handler, by identity. */
  type Handler = nat

  /** The `Set` of each event type, as the list of its members in insertion order. */
  type Listeners = map<string, seq<Handler>>

  datatype Outcome = Fulfilled | Rejected(reason: string)

  datatype SubscribeError = EventTypeRequired

  /** Nothing is left after `trim`. */
  predicate Blank(s: string) {
    Trim(s) == ""
  }

  function Live(listeners: Listeners, eventType: string): seq<Handler> {
    if eventType in listeners then listeners[eventType] else []
  }

  predicate Distinct(s: seq<Handler>) {
    forall i, j | 0 <= i < j < |s| :: s[i] != s[j]
  }

  predicate AllDistinct(listeners: Listeners) {
    forall t | t in listeners :: Distinct(listeners[t])
  }

  /** `Set.add`: a member keeps its place. */
  function Added(s: seq<Handler>, h: Handler): seq<Handler> {
    if h in s then s else s + [h]
  }

  /** `Set.delete`. */
  function Deleted(s: seq<Handler>, h: Handler): (r: seq<Handler>)
    ensures |r| <= |s|
    ensures forall x :: x in r ==> x in s
  {
    if s == [] then [] else if s[0] == h then s[1..] else [s[0]] + Deleted(s[1..], h)
  }

  function Subscribed(listeners: Listeners, eventType: string, h: Handler): Listeners {
    listeners[eventType := Added(Live(listeners, eventType), h)]
  }

  /** The returned unsubscribe function; the set of a type is never dropped. */
  function Unsubscribed(listeners: Listeners, eventType: string, h: Handler): Listeners {
    if eventType in listeners then listeners[eventType := Deleted(listeners[eventType], h)]
    else listeners
  }

  /** A subscribed handler is in its set, behind those that were, and once only; the rest stays. */
  lemma SubscribedExact(listeners: Listeners, eventType: string, h: Handler)
    ensures var before, after := Live(listeners, eventType),
                                 Live(Subscribed(listeners, eventType, h), eventType);
            && h in after && before <= after && (forall x | x in after :: x in before || x == h)
            && |after| == |before| + (if h in before then 0 else 1)
    ensures forall t | t != eventType ::
              Live(Subscribed(listeners, eventType, h), t) == Live(listeners, t)
  {
  }

  /** An unsubscribed handler leaves its set, which keeps its order; the rest stays. */
  lemma UnsubscribedExact(listeners: Listeners, eventType: string, h: Handler, i: nat)
    requires var before := Live(listeners, eventType);
             Distinct(before) && i < |before| && before[i] == h
    ensures var before := Live(listeners, eventType);
            Live(Unsubscribed(listeners, eventType, h), eventType) == before[..i] + before[i + 1..]
    ensures forall t | t != eventType ::
              Live(Unsubscribed(listeners, eventType, h), t) == Live(listeners, t)
  {
    DeletedAt(Live(listeners, eventType), h, i);
  }

  lemma {:induction false} DeletedAt(s: seq<Handler>, h: Handler, i: nat)
    requires Distinct(s) && i < |s| && s[i] == h
    ensures Deleted(s, h) == s[..i] + s[i + 1..]
  {
    if i > 0 {
      assert s[0] != s[i] && s[1..][i - 1] == h;
      assert forall j | 0 <= j < |s[1..]| :: s[1..][j] == s[j + 1];
      DeletedAt(s[1..], h, i - 1);
      assert s[..i] == [s[0]] + s[1..][..i - 1] && s[1..][i..] == s[i + 1..];
    }
  }

  /** A handler that is not subscribed leaves nothing. */
  lemma {:induction false} AbsentStays(s: seq<Handler>, h: Handler)
    requires h !in s
    ensures Deleted(s, h) == s
  {
    if s != [] {
      assert s == [s[0]] + s[1..] && s[0] in s;
      AbsentStays(s[1..], h);
    }
  }

  // ---------------------------------------------------------------- a publication in flight

  /**
   * One `publish` and the bus around it: the handlers spread out at its start, those it has
   * invoked, and the outcomes of those that have settled.
   */
  datatype Publication = Publication(
    eventType: string, listeners: Listeners,
    snapshot: seq<Handler>, invoked: seq<Handler>, outcomes: map<nat, Outcome>)

  function Begin(listeners: Listeners, eventType: string): Publication {
    Publication(eventType, listeners, Live(listeners, eventType), [], map[])
  }

  /** What can happen while the publication waits, in any order and any number of times. */
  datatype Action =
    // the next queued microtask calls its handler
    | InvokeNext
    // an invoked handler settles
    | Settle(index: nat, outcome: Outcome)
    // anyone, a running handler included, changes the bus
    | Subscribe(eventType: string, handler: Handler)
    | Unsubscribe(eventType: string, handler: Handler)

  /** One action; one that is not possible yet does nothing. */
  function Step(p: Publication, a: Action): Publication {
    match a
    case InvokeNext =>
      if |p.invoked| < |p.snapshot| then p.(invoked := p.invoked + [p.snapshot[|p.invoked|]]) else p
    case Settle(i, outcome) =>
      if i < |p.invoked| && i !in p.outcomes then p.(outcomes := p.outcomes[i := outcome]) else p
    case Subscribe(t, h) => p.(listeners := Subscribed(p.listeners, t, h))
    case Unsubscribe(t, h) => p.(listeners := Unsubscribed(p.listeners, t, h))
  }

  function Run(p: Publication, actions: seq<Action>): Publication
    decreases |actions|
  {
    if actions == [] then p else Run(Step(p, actions[0]), actions[1..])
  }

  /** `Promise.allSettled` resolves: every spread handler has settled. */
  predicate AllSettled(p: Publication) {
    forall i | 0 <= i < |p.snapshot| :: i in p.outcomes
  }

  // ---------------------------------------------------------------- reporting

  /** A failure logged against a handler, or the error of reading the name of none. */
  datatype Report = Report(logged: seq<(nat, Handler)>, threw: bool)

  function FailedFrom(outcomes: map<nat, Outcome>, i: nat, n: nat): seq<nat>
    requires i <= n
    ensures forall k :: k in FailedFrom(outcomes, i, n) <==>
              i <= k < n && k in outcomes && outcomes[k].Rejected?
    decreases n - i
  {
    if i == n then []
    else
      (if i in outcomes && outcomes[i].Rejected? then [i] else []) + FailedFrom(outcomes, i + 1, n)
  }

  /** The indices of the rejected results, in order. */
  function Failed(p: Publication): seq<nat> {
    FailedFrom(p.outcomes, 0, |p.snapshot|)
  }

  /** Logging failures by looking each index up in the live set, which may have changed. */
  function LogFailures(failed: seq<nat>, live: seq<Handler>): Report {
    if failed == [] then Report([], false)
    else if failed[0] >= |live| then Report([], true)
    else
      var rest := LogFailures(failed[1..], live);
      Report([(failed[0], live[failed[0]])] + rest.logged, rest.threw)
  }

  function Reported(p: Publication): Report {
    LogFailures(Failed(p), Live(p.listeners, p.eventType))
  }

  /** The bus as an object; `publish` is its two synchronous parts. */
  class DomainEventBus {
    var listeners: Listeners

    constructor ()
      ensures listeners == map[]
    {
      listeners := map[];
    }

    method SubscribeHandler(eventType: string, handler: Handler) returns (r: Result<(), SubscribeError>)
      modifies this
      ensures r.Err? <==> Trim(eventType) == ""
      ensures listeners ==
              if r.Err? then old(listeners) else Subscribed(old(listeners), eventType, handler)
    {
      if Blank(eventType) {
        return Err(EventTypeRequired);
      }
      if eventType !in listeners {
        listeners := listeners[eventType := []];
      }
      if handler !in listeners[eventType] {
        listeners := listeners[eventType := listeners[eventType] + [handler]];
      }
      r := Ok(());
    }

    method UnsubscribeHandler(eventType: string, handler: Handler)
      modifies this
      ensures listeners == Unsubscribed(old(listeners), eventType, handler)
    {
      if eventType in listeners {
        listeners := listeners[eventType := Deleted(listeners[eventType], handler)];
      }
    }

    /** The part of `publish` before the wait. */
    method StartPublish(eventType: string) returns (p: Publication)
      ensures p == Begin(listeners, eventType)
    {
      var handlers := if eventType in listeners then listeners[eventType] else [];
      p := Publication(eventType, listeners, handlers, [], map[]);
    }

    /** The part after it: the loop over the results, on the set as it is now. */
    method FinishPublish(p: Publication) returns (report: Report)
      requires listeners == p.listeners && AllSettled(p)
      ensures report == Reported(p)
    {
      var logged: seq<(nat, Handler)> := [];
      var i: nat := 0;
      ghost var live := Live(p.listeners, p.eventType);
      ghost var whole := LogFailures(Failed(p), live);
      NothingLogged(whole);
      while i < |p.snapshot|
        invariant i <= |p.snapshot|
        invariant whole == Onto(logged, Unreported(p.outcomes, i, |p.snapshot|, live))
      {
        if p.outcomes[i].Rejected? {
          var handlers := Live(listeners, p.eventType);
          FirstFailure(p.outcomes, i, |p.snapshot|, live, logged);
          if i >= |handlers| {
            return Report(logged, true);
          }
          logged := logged + [(i, handlers[i])];
        } else {
          SkipsFulfilled(p.outcomes, i, |p.snapshot|, live);
        }
        i := i + 1;
      }
      report := Report(logged, false);
    }
  }

  /** What the loop still has to log from index `i` on. */
  ghost function Unreported(outcomes: map<nat, Outcome>, i: nat, n: nat, live: seq<Handler>): Report
    requires i <= n
  {
    LogFailures(FailedFrom(outcomes, i, n), live)
  }

  ghost function Onto(logged: seq<(nat, Handler)>, rest: Report): Report {
    Report(logged + rest.logged, rest.threw)
  }

  lemma NothingLogged(rest: Report)
    ensures Onto([], rest) == rest
  {
    assert [] + rest.logged == rest.logged;
  }

  lemma SkipsFulfilled(outcomes: map<nat, Outcome>, i: nat, n: nat, live: seq<Handler>)
    requires i < n && i in outcomes && outcomes[i].Fulfilled?
    ensures Unreported(outcomes, i, n, live) == Unreported(outcomes, i + 1, n, live)
  {
    assert [] + FailedFrom(outcomes, i + 1, n) == FailedFrom(outcomes, i + 1, n);
  }

  /** One turn of the reporting loop, at a failure. */
  lemma FirstFailure(
      outcomes: map<nat, Outcome>, i: nat, n: nat, live: seq<Handler>, logged: seq<(nat, Handler)>)
    requires i < n && i in outcomes && outcomes[i].Rejected?
    ensures Onto(logged, Unreported(outcomes, i, n, live)) ==
            if i >= |live| then Report(logged, true)
            else Onto(logged + [(i, live[i])], Unreported(outcomes, i + 1, n, live))
  {
    var failed := FailedFrom(outcomes, i, n);
    assert failed[0] == i && failed[1..] == FailedFrom(outcomes, i + 1, n);
    if i < |live| {
      var rest := LogFailures(failed[1..], live).logged;
      assert logged + ([(i, live[i])] + rest) == (logged + [(i, live[i])]) + rest;
    } else {
      assert logged + [] == logged;
    }
  }

  // ---------------------------------------------------------------- each handler exactly once

  /** What every step keeps, for a publication begun on given listeners. */
  ghost predicate InFlight(p: Publication, start: Listeners, eventType: string) {
    && p.eventType == eventType
    && p.snapshot == Live(start, eventType)
    && p.invoked <= p.snapshot
    && (forall i | i in p.outcomes :: i < |p.invoked|)
  }

  lemma PrependDistinct(x: Handler, s: seq<Handler>)
    requires Distinct(s) && x !in s
    ensures Distinct([x] + s)
  {
    forall i, j | 0 <= i < j < |[x] + s| ensures ([x] + s)[i] != ([x] + s)[j] {
      assert ([x] + s)[j] == s[j - 1] && s[j - 1] in s;
      assert i > 0 ==> ([x] + s)[i] == s[i - 1];
    }
  }

  lemma {:induction false} DeletedDistinct(s: seq<Handler>, h: Handler)
    requires Distinct(s)
    ensures Distinct(Deleted(s, h))
    ensures forall x :: x in Deleted(s, h) <==> x in s && x != h
  {
    if s != [] {
      assert s == [s[0]] + s[1..];
      assert forall i | 0 <= i < |s[1..]| :: s[1..][i] == s[i + 1];
      DeletedDistinct(s[1..], h);
      assert s[0] !in s[1..];
      if s[0] != h {
        PrependDistinct(s[0], Deleted(s[1..], h));
      }
    }
  }

  /** Whatever happens, the handlers of each type stay a set. */
  lemma {:induction false} RunKeepsSets(p: Publication, actions: seq<Action>)
    requires AllDistinct(p.listeners)
    ensures AllDistinct(Run(p, actions).listeners)
    decreases |actions|
  {
    if actions != [] {
      var a := actions[0];
      if a.Unsubscribe? && a.eventType in p.listeners {
        DeletedDistinct(p.listeners[a.eventType], a.handler);
      }
      RunKeepsSets(Step(p, a), actions[1..]);
    }
  }

  lemma StepKeepsInFlight(p: Publication, a: Action, start: Listeners, eventType: string)
    requires InFlight(p, start, eventType)
    ensures InFlight(Step(p, a), start, eventType)
  {
  }

  lemma {:induction false} RunKeepsInFlight(
      p: Publication, actions: seq<Action>, start: Listeners, eventType: string)
    requires InFlight(p, start, eventType)
    ensures InFlight(Run(p, actions), start, eventType)
    decreases |actions|
  {
    if actions != [] {
      StepKeepsInFlight(p, actions[0], start, eventType);
      RunKeepsInFlight(Step(p, actions[0]), actions[1..], start, eventType);
    }
  }

  /** The listeners after any history of subscriptions, from a new bus. */
  function ListenersAfter(history: seq<Action>): Listeners {
    Run(Begin(map[], ""), history).listeners
  }

  /**
   * On a bus with any history, whatever the handlers and everyone else do in between: no
   * handler is invoked but those registered at the start, none of them twice, and once all
   * have settled, each exactly once and in registration order.
   */
  lemma InvokedExactlyOnce(history: seq<Action>, eventType: string, actions: seq<Action>)
    ensures var start := ListenersAfter(history);
            var p := Run(Begin(start, eventType), actions);
            && p.invoked <= Live(start, eventType) && Distinct(p.invoked)
            && (AllSettled(p) ==> p.invoked == Live(start, eventType))
  {
    var start := ListenersAfter(history);
    RunKeepsSets(Begin(map[], ""), history);
    RunKeepsInFlight(Begin(start, eventType), actions, start, eventType);
    var p := Run(Begin(start, eventType), actions);
    assert AllSettled(p) && |p.snapshot| > 0 ==> |p.snapshot| - 1 in p.outcomes;
  }

  // ---------------------------------------------------------------- when publish throws

  ghost predicate Within(indices: seq<nat>, n: nat) {
    forall i | i in indices :: i < n
  }

  lemma {:induction false} ThrowsPast(failed: seq<nat>, live: seq<Handler>)
    ensures LogFailures(failed, live).threw <==> !Within(failed, |live|)
  {
    if failed != [] {
      ThrowsPast(failed[1..], live);
      assert failed[0] in failed;
      assert forall i :: i in failed <==> i == failed[0] || i in failed[1..];
    }
  }

  /** `publish` throws exactly when a handler failed whose index is past the end of the live set. */
  lemma PublishThrowsExactly(p: Publication)
    ensures Reported(p).threw <==>
            exists i | 0 <= i < |p.snapshot| && i in p.outcomes ::
              p.outcomes[i].Rejected? && i >= |Live(p.listeners, p.eventType)|
  {
    ThrowsPast(Failed(p), Live(p.listeners, p.eventType));
  }

  /**
   * Whatever the outcomes, `publish` does not throw: exactly when, as the results come in, the
   * live set is no smaller than the set was at the start.
   */
  lemma NeverThrowsExactly(p: Publication)
    ensures (forall outcomes :: !Reported(p.(outcomes := outcomes)).threw) <==>
            |p.snapshot| <= |Live(p.listeners, p.eventType)|
  {
    forall outcomes { PublishThrowsExactly(p.(outcomes := outcomes)); }
    var n := |Live(p.listeners, p.eventType)|;
    if n < |p.snapshot| {
      var outcomes: map<nat, Outcome> := map[n := Rejected("")];
      var q := p.(outcomes := outcomes);
      PublishThrowsExactly(q);
      assert n in q.outcomes && q.outcomes[n].Rejected?;
    }
  }

  /** No handler of the type is unsubscribed. */
  predicate NoRemoval(actions: seq<Action>, eventType: string) {
    forall a | a in actions :: a.Unsubscribe? ==> a.eventType != eventType
  }

  lemma {:induction false} OnlyGrows(p: Publication, actions: seq<Action>)
    requires NoRemoval(actions, p.eventType)
    ensures Live(p.listeners, p.eventType) <= Live(Run(p, actions).listeners, p.eventType)
    decreases |actions|
  {
    if actions != [] {
      assert actions[0] in actions;
      OnlyGrows(Step(p, actions[0]), actions[1..]);
    }
  }

  /** Each failed index with the handler that was spread there. */
  ghost function Attributed(failed: seq<nat>, snapshot: seq<Handler>): seq<(nat, Handler)>
    requires Within(failed, |snapshot|)
  {
    if failed == [] then []
    else
      assert failed[0] in failed && forall i | i in failed[1..] :: i in failed;
      [(failed[0], snapshot[failed[0]])] + Attributed(failed[1..], snapshot)
  }

  lemma {:induction false} LogsAttributed(failed: seq<nat>, snapshot: seq<Handler>, live: seq<Handler>)
    requires snapshot <= live && Within(failed, |snapshot|)
    ensures LogFailures(failed, live) == Report(Attributed(failed, snapshot), false)
  {
    if failed != [] {
      assert failed[0] in failed && forall i | i in failed[1..] :: i in failed;
      LogsAttributed(failed[1..], snapshot, live);
    }
  }

  lemma {:induction false} OnlyFailure(n: nat, reason: string, i: nat, m: nat)
    requires i <= m
    ensures FailedFrom(map[n := Rejected(reason)], i, m) == if i <= n < m then [n] else []
    decreases m - i
  {
    if i < m {
      OnlyFailure(n, reason, i + 1, m);
    }
  }

  /**
   * Every failure is logged, against the handler that failed, whatever the outcomes: exactly
   * when the list spread at the start is a prefix of the live set at the end.
   */
  lemma BlamesTheRightHandlerExactly(p: Publication)
    ensures (forall outcomes ::
              Reported(p.(outcomes := outcomes)) ==
              Report(Attributed(Failed(p.(outcomes := outcomes)), p.snapshot), false)) <==>
            p.snapshot <= Live(p.listeners, p.eventType)
  {
    var live := Live(p.listeners, p.eventType);
    if p.snapshot <= live {
      forall outcomes {
        LogsAttributed(Failed(p.(outcomes := outcomes)), p.snapshot, live);
      }
    } else {
      var n: nat :| n < |p.snapshot| && (n < |live| ==> p.snapshot[n] != live[n]);
      BlamesAnother(p, n);
    }
  }

  lemma BlamesAnother(p: Publication, n: nat)
    requires n < |p.snapshot|
    requires n < |Live(p.listeners, p.eventType)| ==>
               p.snapshot[n] != Live(p.listeners, p.eventType)[n]
    ensures exists outcomes ::
              Reported(p.(outcomes := outcomes)) !=
              Report(Attributed(Failed(p.(outcomes := outcomes)), p.snapshot), false)
  {
    var outcomes: map<nat, Outcome> := map[n := Rejected("")];
    var q := p.(outcomes := outcomes);
    OnlyFailure(n, "", 0, |p.snapshot|);
    assert Failed(q) == [n];
    assert [n][1..] == [] && Attributed([], p.snapshot) == [];
    assert Attributed(Failed(q), p.snapshot) == [(n, p.snapshot[n])];
    var live := Live(p.listeners, p.eventType);
    if n < |live| {
      assert LogFailures([n], live).logged[0] == (n, live[n]);
    }
  }

  /**
   * When no handler of the type is removed in flight, `publish` does not throw, and logs each
   * failure against the handler that failed.
   */
  lemma ReportsEveryFailure(start: Listeners, eventType: string, actions: seq<Action>)
    requires NoRemoval(actions, eventType)
    ensures var p := Run(Begin(start, eventType), actions);
            && p.snapshot == Live(start, eventType)
            && Reported(p) == Report(Attributed(Failed(p), Live(start, eventType)), false)
  {
    RunKeepsInFlight(Begin(start, eventType), actions, start, eventType);
    OnlyGrows(Begin(start, eventType), actions);
    var p := Run(Begin(start, eventType), actions);
    LogsAttributed(Failed(p), p.snapshot, Live(p.listeners, eventType));
  }

  /** A handler that unsubscribes itself and then fails, alone on its type, makes `publish` throw. */
  lemma SelfRemovalThrows(eventType: string, h: Handler, reason: string)
    ensures var p := Run(Begin(map[eventType := [h]], eventType),
                         [InvokeNext, Unsubscribe(eventType, h), Settle(0, Rejected(reason))]);
            AllSettled(p) && Reported(p).threw
  {
    var start: Listeners := map[eventType := [h]];
    var actions := [InvokeNext, Unsubscribe(eventType, h), Settle(0, Rejected(reason))];
    var p1 := Step(Begin(start, eventType), actions[0]);
    var p2 := Step(p1, actions[1]);
    var p3 := Step(p2, actions[2]);
    assert actions[1..][1..] == actions[2..] && actions[2..][1..] == [];
    assert Run(p2, actions[2..]) == Run(p3, []);
    assert Run(p1, actions[1..]) == Run(p2, actions[2..]);
    assert Live(p3.listeners, eventType) == [];
    PublishThrowsExactly(p3);
  }
}
