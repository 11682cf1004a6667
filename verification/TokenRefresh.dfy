/**
 * The API client's shared token refresh, as a machine of single events: responses, the callbacks
 * chained on the refresh POST, and requests resuming, in any interleaving over any number of
 * requests.
 */
module TokenRefresh {
  import opened Common

  /** The error body of an API response. */
  datatype Envelope = Envelope(code: string, message: string)

  /** An error as the transport gives it, with or without a response. */
  datatype Failure = Failure(
    status: Option<nat>, envelope: Option<Envelope>, transportCode: string, message: string)

  /** The error every caller sees. */
  datatype ApiError = ApiError(code: string, message: string, status: Option<nat>)

  function NormalizeError(f: Failure): ApiError {
    if f.status.Some? && f.envelope.Some? then
      ApiError(f.envelope.value.code, f.envelope.value.message, f.status)
    else if f.transportCode == "ERR_NETWORK" || f.status.None? then
      ApiError("NETWORK_ERROR",
               "Unable to reach the server. Check your connection and try again.", None)
    else
      ApiError("UNKNOWN_ERROR",
               if f.message == "" then "Something went wrong." else f.message, f.status)
  }

  /** A token as the reply spells it; the field may be missing. */
  type Token = Option<string>

  predicate Truthy(token: Token) {
    token.Some? && token.value != ""
  }

  datatype Header = Absent | Bearer(token: Token)

  /** The reply to the POST; a malformed body makes the `then` callback throw. */
  datatype Reply = Granted(token: Token) | Malformed | PostFailed

  datatype Outcome = Renewed(token: Token) | Expired

  /** One refresh: its POST, then the callbacks chained on it, one at a time. */
  datatype Refresh =
    | Posting
    | Replied(reply: Reply)
    | Failing
    | Finishing(outcome: Outcome)
    | Settled(outcome: Outcome)

  datatype Phase =
    | Sent
    | Waiting
    | Resent
    | Fulfilled(body: string)
    | Rejected(error: ApiError)

  /** One call of the client; `joined` is the refresh its handler awaited. */
  datatype Request = Request(
    auth: bool, header: Header, retried: bool, sends: nat, first: Option<Failure>,
    joined: Option<nat>, phase: Phase)

  datatype State = State(
    refreshPromise: Option<nat>, refreshes: seq<Refresh>, accessToken: Token,
    requests: seq<Request>, expired: seq<nat>)

  const INITIAL := State(None, [], None, [], [])

  datatype Action =
    | Send(auth: bool)
    | Succeed(request: nat, body: string)
    | Fail(request: nat, failure: Failure)
    | PostReplies(refresh: nat, reply: Reply)
    | RunThen(refresh: nat)
    | RunCatch(refresh: nat)
    | RunFinally(refresh: nat)
    | Resume(request: nat)
    // a login or a logout elsewhere
    | StoreToken(token: Token)

  /** The request interceptor: the stored token replaces any header there was. */
  function Authorize(stored: Token, header: Header): Header {
    if Truthy(stored) then Bearer(stored) else header
  }

  predicate Refreshable(q: Request, f: Failure) {
    && f.status == Some(401) && f.envelope.Some? && f.envelope.value.code == "UNAUTHENTICATED"
    && !q.auth && !q.retried
  }

  /** A response is awaited. */
  predicate OnWire(s: State, r: nat) {
    r < |s.requests| && (s.requests[r].phase.Sent? || s.requests[r].phase.Resent?)
  }

  predicate At(s: State, k: nat, refresh: Refresh) {
    k < |s.refreshes| && s.refreshes[k] == refresh
  }

  /** `refreshAccessToken`: the promise in flight, or a new one with its POST. */
  function Join(s: State): (j: (State, nat)) {
    if s.refreshPromise.Some? then (s, s.refreshPromise.value)
    else (s.(refreshPromise := Some(|s.refreshes|), refreshes := s.refreshes + [Posting]),
          |s.refreshes|)
  }

  function WithRequest(s: State, r: nat, q: Request): State
    requires r < |s.requests|
  {
    s.(requests := s.requests[r := q])
  }

  function WithRefresh(s: State, k: nat, refresh: Refresh): State
    requires k < |s.refreshes|
  {
    s.(refreshes := s.refreshes[k := refresh])
  }

  /**
   * The response interceptor. The error of a resend is caught by the handler that resent, which
   * then rejects with the error it was called for.
   */
  function OnError(s: State, r: nat, f: Failure): State
    requires r < |s.requests|
  {
    var q := s.requests[r];
    if Refreshable(q, f) then
      var (joined, k) := Join(s);
      WithRequest(joined, r,
        q.(retried := true, first := Some(f), joined := Some(k), phase := Waiting))
    else
      var reported := if q.first.Some? then q.first.value else f;
      WithRequest(s, r, q.(phase := Rejected(NormalizeError(reported))))
  }

  /** The handler after `await refreshAccessToken()`. */
  function Resumed(s: State, q: Request, outcome: Outcome): Request
    requires q.first.Some?
  {
    match outcome
    case Renewed(token) =>
      q.(header := Authorize(s.accessToken, Bearer(token)), sends := q.sends + 1, phase := Resent)
    case Expired => q.(phase := Rejected(NormalizeError(q.first.value)))
  }

  predicate CanResume(s: State, r: nat) {
    && r < |s.requests| && s.requests[r].phase.Waiting? && s.requests[r].first.Some?
    && s.requests[r].joined.Some? && s.requests[r].joined.value < |s.refreshes|
    && s.refreshes[s.requests[r].joined.value].Settled?
  }

  function AfterThen(s: State, k: nat, reply: Reply): State
    requires k < |s.refreshes|
  {
    match reply
    case Granted(token) => WithRefresh(s, k, Finishing(Renewed(token))).(accessToken := token)
    case Malformed => WithRefresh(s, k, Failing)
    case PostFailed => WithRefresh(s, k, Failing)
  }

  /** One event; an event that is not due changes nothing. */
  function Step(s: State, a: Action): State {
    match a
    case Send(auth) =>
      s.(requests := s.requests +
        [Request(auth, Authorize(s.accessToken, Absent), false, 1, None, None, Sent)])
    case Succeed(r, body) =>
      if OnWire(s, r) then WithRequest(s, r, s.requests[r].(phase := Fulfilled(body))) else s
    case Fail(r, f) => if OnWire(s, r) then OnError(s, r, f) else s
    case PostReplies(k, reply) => if At(s, k, Posting) then WithRefresh(s, k, Replied(reply)) else s
    case RunThen(k) =>
      if k < |s.refreshes| && s.refreshes[k].Replied? then AfterThen(s, k, s.refreshes[k].reply)
      else s
    case RunCatch(k) =>
      if At(s, k, Failing)
      then WithRefresh(s, k, Finishing(Expired)).(accessToken := None, expired := s.expired + [k])
      else s
    case RunFinally(k) =>
      if k < |s.refreshes| && s.refreshes[k].Finishing?
      then WithRefresh(s, k, Settled(s.refreshes[k].outcome)).(refreshPromise := None)
      else s
    case Resume(r) =>
      if CanResume(s, r)
      then
        var q := s.requests[r];
        WithRequest(s, r, Resumed(s, q, s.refreshes[q.joined.value].outcome))
      else s
    case StoreToken(token) => s.(accessToken := token)
  }

  function Run(s: State, actions: seq<Action>): State
    decreases |actions|
  {
    if actions == [] then s else Run(Step(s, actions[0]), actions[1..])
  }

  // ---------------------------------------------------------------- what every step keeps

  /** The promise in flight is the last refresh, and the one that has not settled. */
  predicate OneInFlight(s: State) {
    && (s.refreshPromise.Some? ==> s.refreshPromise.value + 1 == |s.refreshes|)
    && forall k: nat | k < |s.refreshes| ::
         s.refreshes[k].Settled? <==> s.refreshPromise != Some(k)
  }

  predicate HasExpired(refresh: Refresh) {
    (refresh.Finishing? || refresh.Settled?) && refresh.outcome.Expired?
  }

  /** Session-expired was emitted once for each refresh that has failed, and for no other. */
  ghost predicate EmittedOnce(s: State) {
    forall k: nat :: multiset(s.expired)[k] ==
                     if k < |s.refreshes| && HasExpired(s.refreshes[k]) then 1 else 0
  }

  /** The refresh a request awaited has settled, with this outcome. */
  predicate JoinedSettled(refreshes: seq<Refresh>, q: Request, renewed: bool) {
    && q.joined.Some? && q.joined.value < |refreshes|
    && refreshes[q.joined.value].Settled?
    && refreshes[q.joined.value].outcome.Renewed? == renewed
  }

  predicate RequestOk(refreshes: seq<Refresh>, q: Request) {
    && (q.auth ==> !q.retried)
    && (q.retried <==> q.first.Some?) && (q.retried <==> q.joined.Some?)
    && (q.retried ==> q.joined.value < |refreshes|)
    && q.sends == (if q.retried && !q.phase.Waiting? && JoinedSettled(refreshes, q, true) then 2 else 1)
    && (q.retried && !q.phase.Waiting? ==>
          JoinedSettled(refreshes, q, true) || JoinedSettled(refreshes, q, false))
    && match q.phase
       case Sent => !q.retried
       case Waiting => q.retried
       case Resent => q.retried && q.sends == 2
       case Fulfilled(_) => q.retried ==> q.sends == 2
       case Rejected(e) => q.retried ==> e == NormalizeError(q.first.value)
  }

  ghost predicate Inv(s: State) {
    && OneInFlight(s) && EmittedOnce(s)
    && forall r | 0 <= r < |s.requests| :: RequestOk(s.refreshes, s.requests[r])
  }

  /** Refreshes are only added, and a settled one is history. */
  ghost predicate Extends(rs: seq<Refresh>, ts: seq<Refresh>) {
    && |rs| <= |ts|
    && forall k | 0 <= k < |rs| && rs[k].Settled? :: ts[k] == rs[k]
  }

  lemma RequestOkExtends(rs: seq<Refresh>, ts: seq<Refresh>, q: Request)
    requires Extends(rs, ts) && RequestOk(rs, q)
    ensures RequestOk(ts, q)
  {
  }

  /** A step on one refresh alone. */
  lemma RefreshStepKeepsRequests(s: State, k: nat, refresh: Refresh)
    requires Inv(s) && k < |s.refreshes| && !s.refreshes[k].Settled?
    ensures forall r | 0 <= r < |s.requests| ::
              RequestOk(s.refreshes[k := refresh], s.requests[r])
  {
    forall r | 0 <= r < |s.requests|
      ensures RequestOk(s.refreshes[k := refresh], s.requests[r])
    {
      RequestOkExtends(s.refreshes, s.refreshes[k := refresh], s.requests[r]);
    }
  }

  lemma ChainKeepsInv(s: State, a: Action)
    requires Inv(s) && (a.PostReplies? || a.RunThen? || a.RunFinally?)
    ensures Inv(Step(s, a))
  {
    var k := a.refresh;
    if k < |s.refreshes| && !s.refreshes[k].Settled? {
      RefreshStepKeepsRequests(s, k, Step(s, a).refreshes[k]);
    }
  }

  lemma CatchKeepsInv(s: State, k: nat)
    requires Inv(s)
    ensures Inv(Step(s, RunCatch(k)))
  {
    if At(s, k, Failing) {
      RefreshStepKeepsRequests(s, k, Finishing(Expired));
      assert multiset(s.expired + [k]) == multiset(s.expired) + multiset{k};
    }
  }

  lemma JoinKeepsInv(s: State)
    requires Inv(s)
    ensures var (j, k) := Join(s);
            Inv(j) && k < |j.refreshes| && Extends(s.refreshes, j.refreshes)
            && j.requests == s.requests
  {
    var (j, k) := Join(s);
    forall r | 0 <= r < |j.requests| ensures RequestOk(j.refreshes, j.requests[r]) {
      RequestOkExtends(s.refreshes, j.refreshes, s.requests[r]);
    }
  }

  /** A step on one request alone. */
  lemma RequestStepKeepsInv(s: State, r: nat, q: Request)
    requires Inv(s) && r < |s.requests| && RequestOk(s.refreshes, q)
    ensures Inv(WithRequest(s, r, q))
  {
  }

  lemma SettlesOk(refreshes: seq<Refresh>, q: Request, f: Failure, body: string)
    requires RequestOk(refreshes, q) && (q.phase.Sent? || q.phase.Resent?)
    ensures RequestOk(refreshes, q.(phase := Fulfilled(body)))
    ensures RequestOk(refreshes,
              q.(phase := Rejected(NormalizeError(if q.first.Some? then q.first.value else f))))
  {
  }

  lemma JoinsOk(refreshes: seq<Refresh>, q: Request, f: Failure, k: nat)
    requires RequestOk(refreshes, q) && (q.phase.Sent? || q.phase.Resent?)
    requires Refreshable(q, f) && k < |refreshes|
    ensures RequestOk(refreshes,
              q.(retried := true, first := Some(f), joined := Some(k), phase := Waiting))
  {
  }

  lemma ResumesOk(s: State, q: Request)
    requires RequestOk(s.refreshes, q) && q.phase.Waiting?
    requires s.refreshes[q.joined.value].Settled?
    ensures RequestOk(s.refreshes, Resumed(s, q, s.refreshes[q.joined.value].outcome))
  {
  }

  lemma FailKeepsInv(s: State, r: nat, f: Failure)
    requires Inv(s)
    ensures Inv(Step(s, Fail(r, f)))
  {
    if OnWire(s, r) {
      var q := s.requests[r];
      if Refreshable(q, f) {
        JoinKeepsInv(s);
        var (j, k) := Join(s);
        RequestOkExtends(s.refreshes, j.refreshes, q);
        JoinsOk(j.refreshes, q, f, k);
        RequestStepKeepsInv(j, r,
          q.(retried := true, first := Some(f), joined := Some(k), phase := Waiting));
      } else {
        SettlesOk(s.refreshes, q, f, "");
        RequestStepKeepsInv(s, r,
          q.(phase := Rejected(NormalizeError(if q.first.Some? then q.first.value else f))));
      }
    }
  }

  lemma SucceedKeepsInv(s: State, r: nat, body: string)
    requires Inv(s)
    ensures Inv(Step(s, Succeed(r, body)))
  {
    if OnWire(s, r) {
      SettlesOk(s.refreshes, s.requests[r], Failure(None, None, "", ""), body);
      RequestStepKeepsInv(s, r, s.requests[r].(phase := Fulfilled(body)));
    }
  }

  lemma ResumeKeepsInv(s: State, r: nat)
    requires Inv(s)
    ensures Inv(Step(s, Resume(r)))
  {
    if CanResume(s, r) {
      var q := s.requests[r];
      ResumesOk(s, q);
      RequestStepKeepsInv(s, r, Resumed(s, q, s.refreshes[q.joined.value].outcome));
    }
  }

  lemma StepKeepsInv(s: State, a: Action)
    requires Inv(s)
    ensures Inv(Step(s, a))
  {
    match a
    case Send(auth) =>
    case Succeed(r, body) => SucceedKeepsInv(s, r, body);
    case Fail(r, f) => FailKeepsInv(s, r, f);
    case PostReplies(k, reply) => ChainKeepsInv(s, a);
    case RunThen(k) => ChainKeepsInv(s, a);
    case RunCatch(k) => CatchKeepsInv(s, k);
    case RunFinally(k) => ChainKeepsInv(s, a);
    case Resume(r) => ResumeKeepsInv(s, r);
    case StoreToken(token) =>
  }

  lemma {:induction false} RunKeepsInv(s: State, actions: seq<Action>)
    requires Inv(s)
    ensures Inv(Run(s, actions))
    decreases |actions|
  {
    if actions != [] {
      StepKeepsInv(s, actions[0]);
      RunKeepsInv(Step(s, actions[0]), actions[1..]);
    }
  }

  lemma Reachable(actions: seq<Action>)
    ensures Inv(Run(INITIAL, actions))
  {
    RunKeepsInv(INITIAL, actions);
  }

  // ---------------------------------------------------------------- safety over every run

  /** At most one refresh POST is outstanding. */
  lemma OnePostOutstanding(actions: seq<Action>, j: nat, k: nat)
    requires var s := Run(INITIAL, actions); At(s, j, Posting) && At(s, k, Posting)
    ensures j == k && Run(INITIAL, actions).refreshPromise == Some(k)
  {
    Reachable(actions);
  }

  /** No request is sent more than twice, and twice only after a refresh that gave a token. */
  lemma SentAtMostTwice(actions: seq<Action>, r: nat)
    requires r < |Run(INITIAL, actions).requests|
    ensures var s := Run(INITIAL, actions);
            var q := s.requests[r];
            && 1 <= q.sends <= 2
            && (q.sends == 2 ==> JoinedSettled(s.refreshes, q, true))
            && (q.auth ==> q.sends == 1 && q.joined.None?)
  {
    Reachable(actions);
    assert RequestOk(Run(INITIAL, actions).refreshes, Run(INITIAL, actions).requests[r]);
  }

  /** Each failed refresh emits session-expired exactly once; a successful one never does. */
  lemma ExpiryEmittedOnce(actions: seq<Action>, k: nat)
    requires k < |Run(INITIAL, actions).refreshes|
    ensures var s := Run(INITIAL, actions);
            && (s.refreshes[k] == Settled(Expired) ==> multiset(s.expired)[k] == 1)
            && (s.refreshes[k].Settled? && s.refreshes[k].outcome.Renewed? ==> k !in s.expired)
  {
    Reachable(actions);
    var s := Run(INITIAL, actions);
    assert k in s.expired <==> k in multiset(s.expired);
  }

  /**
   * All requests that awaited one refresh fare alike: once they have resumed, either every one
   * of them was sent again, or every one was rejected with the error of its own first response.
   */
  lemma WaitersShareTheOutcome(actions: seq<Action>, a: nat, b: nat)
    requires var s := Run(INITIAL, actions);
             && a < |s.requests| && b < |s.requests|
             && s.requests[a].joined.Some? && s.requests[a].joined == s.requests[b].joined
             && !s.requests[a].phase.Waiting? && !s.requests[b].phase.Waiting?
    ensures var s := Run(INITIAL, actions);
            var p, q := s.requests[a], s.requests[b];
            && p.sends == q.sends
            && (p.sends == 1 ==>
                  && p.first.Some? && p.phase == Rejected(NormalizeError(p.first.value))
                  && q.first.Some? && q.phase == Rejected(NormalizeError(q.first.value)))
  {
    Reachable(actions);
    var s := Run(INITIAL, actions);
    assert RequestOk(s.refreshes, s.requests[a]) && RequestOk(s.refreshes, s.requests[b]);
  }

  /** What a request that has met a refreshable error `f` remembers. */
  ghost predicate Remembers(s: State, r: nat, f: Failure) {
    && r < |s.requests| && s.requests[r].retried && s.requests[r].first == Some(f)
    && (s.requests[r].phase.Rejected? ==> s.requests[r].phase.error == NormalizeError(f))
  }

  lemma {:induction false} RunRemembers(s: State, actions: seq<Action>, r: nat, f: Failure)
    requires Remembers(s, r, f)
    ensures Remembers(Run(s, actions), r, f)
    decreases |actions|
  {
    if actions != [] {
      assert Remembers(Step(s, actions[0]), r, f);
      RunRemembers(Step(s, actions[0]), actions[1..], r, f);
    }
  }

  /**
   * Once a request has met a refreshable error, it can only be rejected with that error,
   * whatever error its resend, or the refresh, meets later.
   */
  lemma RejectedWithTheFirstError(s: State, r: nat, f: Failure, more: seq<Action>)
    requires OnWire(s, r) && Refreshable(s.requests[r], f)
    ensures var t := Run(Step(s, Fail(r, f)), more);
            && r < |t.requests|
            && (t.requests[r].phase.Rejected? ==> t.requests[r].phase.error == NormalizeError(f))
  {
    RunRemembers(Step(s, Fail(r, f)), more, r, f);
  }

  // ---------------------------------------------------------------- which token

  /** Its `then` and `catch` callbacks have not settled what becomes of the token. */
  predicate Undecided(refresh: Refresh) {
    refresh.Posting? || refresh.Replied? || refresh.Failing?
  }

  function TokenOf(outcome: Outcome): Token {
    if outcome.Renewed? then outcome.token else None
  }

  /** What the latest decided refresh leaves, of those from `base` up to `n`; else `start`. */
  function LatestToken(refreshes: seq<Refresh>, start: Token, base: nat, n: nat): Token
    requires base <= n <= |refreshes|
    decreases n - base
  {
    if n == base then start
    else if Undecided(refreshes[n - 1]) then LatestToken(refreshes, start, base, n - 1)
    else TokenOf(refreshes[n - 1].outcome)
  }

  lemma {:induction false} LatestSame(
    rs: seq<Refresh>, ts: seq<Refresh>, start: Token, base: nat, n: nat)
    requires base <= n <= |rs| && n <= |ts|
    requires forall i | base <= i < n :: rs[i] == ts[i]
    ensures LatestToken(rs, start, base, n) == LatestToken(ts, start, base, n)
    decreases n - base
  {
    if base < n {
      LatestSame(rs, ts, start, base, n - 1);
    }
  }

  /** Where the refreshes start that are still to be decided. */
  function FirstUndecided(refreshes: seq<Refresh>): (base: nat)
    ensures base <= |refreshes|
  {
    if refreshes != [] && Undecided(refreshes[|refreshes| - 1]) then |refreshes| - 1 else |refreshes|
  }

  /** The store holds the latest token of the refreshes from `base` on, or still `start`. */
  predicate HoldsLatest(s: State, start: Token, base: nat) {
    && base <= FirstUndecided(s.refreshes)
    && s.accessToken == LatestToken(s.refreshes, start, base, |s.refreshes|)
  }

  /** What a failure does to the refreshes: nothing, or one more. */
  lemma FailStarts(s: State, r: nat, f: Failure)
    ensures var t := Step(s, Fail(r, f));
            && t.accessToken == s.accessToken
            && ((t.refreshes == s.refreshes && t.refreshPromise == s.refreshPromise)
                || (s.refreshPromise.None? && t.refreshes == s.refreshes + [Posting]
                    && t.refreshPromise == Some(|s.refreshes|)))
  {
  }

  lemma FailKeepsLatest(s: State, r: nat, f: Failure, start: Token, base: nat)
    requires HoldsLatest(s, start, base)
    ensures HoldsLatest(Step(s, Fail(r, f)), start, base)
  {
    FailStarts(s, r, f);
    var t := Step(s, Fail(r, f));
    LatestSame(s.refreshes, t.refreshes, start, base, |s.refreshes|);
  }

  lemma FailKeepsOne(s: State, r: nat, f: Failure)
    requires OneInFlight(s)
    ensures OneInFlight(Step(s, Fail(r, f)))
  {
    FailStarts(s, r, f);
  }

  lemma ChainKeepsOne(s: State, a: Action)
    requires OneInFlight(s)
    requires a.PostReplies? || a.RunThen? || a.RunCatch? || a.RunFinally?
    ensures OneInFlight(Step(s, a))
  {
  }

  /** A callback on the last refresh makes of the token what it makes of the refresh. */
  lemma ChainKeepsLatest(s: State, a: Action, start: Token, base: nat)
    requires OneInFlight(s) && HoldsLatest(s, start, base)
    requires a.PostReplies? || a.RunThen? || a.RunCatch? || a.RunFinally?
    ensures HoldsLatest(Step(s, a), start, base)
  {
    var t := Step(s, a);
    var n := |s.refreshes|;
    if a.refresh < n && !s.refreshes[a.refresh].Settled? && base < n {
      assert a.refresh == n - 1;
      LatestSame(s.refreshes, t.refreshes, start, base, n - 1);
    }
  }

  lemma StepHoldsLatest(s: State, a: Action, start: Token, base: nat)
    requires OneInFlight(s) && HoldsLatest(s, start, base) && !a.StoreToken?
    ensures OneInFlight(Step(s, a)) && HoldsLatest(Step(s, a), start, base)
  {
    match a
    case Send(auth) =>
    case Succeed(r, body) =>
    case Fail(r, f) =>
      FailKeepsOne(s, r, f);
      FailKeepsLatest(s, r, f, start, base);
    case Resume(r) =>
    case _ =>
      ChainKeepsOne(s, a);
      ChainKeepsLatest(s, a, start, base);
  }

  predicate NoLogins(actions: seq<Action>) {
    forall i | 0 <= i < |actions| :: !actions[i].StoreToken?
  }

  lemma {:induction false} RunHoldsLatest(
    s: State, actions: seq<Action>, start: Token, base: nat)
    requires OneInFlight(s) && HoldsLatest(s, start, base) && NoLogins(actions)
    ensures HoldsLatest(Run(s, actions), start, base)
    decreases |actions|
  {
    if actions != [] {
      StepHoldsLatest(s, actions[0], start, base);
      RunHoldsLatest(Step(s, actions[0]), actions[1..], start, base);
    }
  }

  /**
   * While nobody else logs in or out, the stored token is the one the latest refresh gave,
   * and none when that one failed.
   */
  lemma StoreHoldsLatest(actions: seq<Action>)
    requires NoLogins(actions)
    ensures var s := Run(INITIAL, actions);
            s.accessToken == LatestToken(s.refreshes, None, 0, |s.refreshes|)
  {
    RunHoldsLatest(INITIAL, actions, None, 0);
  }

  /**
   * After a login or logout elsewhere the store holds what the latest refresh gives of those
   * that were undecided then or began since, and the token of that login when none is decided.
   */
  lemma StoredExactly(before: seq<Action>, token: Token, after: seq<Action>)
    requires NoLogins(after)
    ensures var s := Run(INITIAL, before);
            var base := FirstUndecided(s.refreshes);
            var t := Run(Step(s, StoreToken(token)), after);
            && base <= |t.refreshes|
            && t.accessToken == LatestToken(t.refreshes, token, base, |t.refreshes|)
  {
    Reachable(before);
    var s := Run(INITIAL, before);
    RunHoldsLatest(Step(s, StoreToken(token)), after, token, FirstUndecided(s.refreshes));
  }

  /** The refresh in flight can still store a token. */
  predicate CanStillGrant(s: State) {
    && s.refreshes != []
    && var last := s.refreshes[|s.refreshes| - 1];
       last.Posting? || (last.Replied? && last.reply.Granted? && last.reply.token.Some?)
  }

  predicate NoFailures(actions: seq<Action>) {
    forall i | 0 <= i < |actions| :: !actions[i].Fail?
  }

  /** A logout stands: without logins and new failures, the store stays empty. */
  ghost predicate LogoutStands(s: State) {
    forall actions | NoLogins(actions) && NoFailures(actions) ::
      Run(Step(s, StoreToken(None)), actions).accessToken.None?
  }

  /** A logout is undone by a refresh in flight, exactly when that one can still store a token. */
  lemma LogoutStandsExactly(before: seq<Action>)
    ensures var s := Run(INITIAL, before); LogoutStands(s) <==> !CanStillGrant(s)
  {
    Reachable(before);
    var s := Run(INITIAL, before);
    var out := Step(s, StoreToken(None));
    if CanStillGrant(s) {
      var k := |s.refreshes| - 1;
      if s.refreshes[k].Posting? {
        var actions := [PostReplies(k, Granted(Some("token"))), RunThen(k)];
        assert NoLogins(actions) && NoFailures(actions);
        assert actions[1..] == [RunThen(k)] && [RunThen(k)][1..] == [];
        var replied := Step(out, actions[0]);
        assert Run(out, actions) == Run(replied, [RunThen(k)]);
        assert Run(replied, [RunThen(k)]) == Run(Step(replied, RunThen(k)), []);
        assert Run(out, actions).accessToken.Some?;
      } else {
        var actions := [RunThen(k)];
        assert NoLogins(actions) && NoFailures(actions);
        assert actions[1..] == [];
        assert Run(out, actions) == Run(Step(out, RunThen(k)), []);
        assert Run(out, actions).accessToken.Some?;
      }
    } else {
      forall actions | NoLogins(actions) && NoFailures(actions)
        ensures Run(out, actions).accessToken.None?
      {
        StaysEmpty(out, actions);
      }
    }
  }

  lemma {:induction false} StaysEmpty(s: State, actions: seq<Action>)
    requires OneInFlight(s) && s.accessToken.None? && !CanStillGrant(s)
    requires NoLogins(actions) && NoFailures(actions)
    ensures Run(s, actions).accessToken.None?
    decreases |actions|
  {
    if actions != [] {
      StepStaysEmpty(s, actions[0]);
      StaysEmpty(Step(s, actions[0]), actions[1..]);
    }
  }

  lemma StepStaysEmpty(s: State, a: Action)
    requires OneInFlight(s) && s.accessToken.None? && !CanStillGrant(s)
    requires !a.StoreToken? && !a.Fail?
    ensures var t := Step(s, a); OneInFlight(t) && t.accessToken.None? && !CanStillGrant(t)
  {
  }

  // ---------------------------------------------------------------- what is sent

  /** How request `r` left the first time. */
  ghost predicate LeftWith(s: State, r: nat, auth: bool, header: Header) {
    && r < |s.requests|
    && var q := s.requests[r];
       q.auth == auth && q.sends >= 1 && (q.sends == 1 ==> q.header == header)
  }

  lemma {:induction false} RunLeftWith(
    s: State, actions: seq<Action>, r: nat, auth: bool, header: Header)
    requires LeftWith(s, r, auth, header)
    ensures LeftWith(Run(s, actions), r, auth, header)
    decreases |actions|
  {
    if actions != [] {
      assert LeftWith(Step(s, actions[0]), r, auth, header);
      RunLeftWith(Step(s, actions[0]), actions[1..], r, auth, header);
    }
  }

  /**
   * Until it is resent, a request carries the token that the store held when it was sent, and no
   * header at all when the store held none or the empty one.
   */
  lemma SentWithTheStoredToken(before: seq<Action>, auth: bool, after: seq<Action>)
    ensures var s := Run(INITIAL, before);
            var t := Run(Step(s, Send(auth)), after);
            var r := |s.requests|;
            && r < |t.requests| && t.requests[r].auth == auth
            && (t.requests[r].sends == 1 ==>
                  t.requests[r].header == if s.accessToken.Some? && s.accessToken.value != ""
                                          then Bearer(s.accessToken) else Absent)
  {
    var s := Run(INITIAL, before);
    RunLeftWith(Step(s, Send(auth)), after, |s.requests|, auth,
                if s.accessToken.Some? && s.accessToken.value != ""
                then Bearer(s.accessToken) else Absent);
  }

  ghost predicate ResentWith(s: State, r: nat, header: Header) {
    && r < |s.requests|
    && var q := s.requests[r];
       q.sends == 2 && q.header == header && q.retried && !q.phase.Waiting?
  }

  lemma {:induction false} RunResentWith(s: State, actions: seq<Action>, r: nat, header: Header)
    requires ResentWith(s, r, header)
    ensures ResentWith(Run(s, actions), r, header)
    decreases |actions|
  {
    if actions != [] {
      assert ResentWith(Step(s, actions[0]), r, header);
      RunResentWith(Step(s, actions[0]), actions[1..], r, header);
    }
  }

  /**
   * A request resuming after a renewed token is sent a second time, with the token stored by then
   * and only without one with the token its refresh gave; this is the last it is sent with.
   */
  lemma ResentWithTheStoredToken(
    before: seq<Action>, r: nat, token: Token, after: seq<Action>)
    requires var s := Run(INITIAL, before);
             CanResume(s, r) && s.refreshes[s.requests[r].joined.value] == Settled(Renewed(token))
    ensures var s := Run(INITIAL, before);
            var t := Run(Step(s, Resume(r)), after);
            && Step(s, Resume(r)).requests[r].phase.Resent?
            && r < |t.requests| && t.requests[r].sends == 2
            && t.requests[r].header == if s.accessToken.Some? && s.accessToken.value != ""
                                       then Bearer(s.accessToken) else Bearer(token)
  {
    Reachable(before);
    var s := Run(INITIAL, before);
    assert RequestOk(s.refreshes, s.requests[r]);
    RunResentWith(Step(s, Resume(r)), after, r,
                  if s.accessToken.Some? && s.accessToken.value != ""
                  then Bearer(s.accessToken) else Bearer(token));
  }

  /** Then a request that resumes after the latest refresh is resent with the token it gave. */
  lemma ResentWithTheNewToken(actions: seq<Action>, r: nat, token: Token)
    requires NoLogins(actions)
    requires var s := Run(INITIAL, actions);
             && CanResume(s, r) && s.requests[r].joined == Some(|s.refreshes| - 1)
             && s.refreshes[|s.refreshes| - 1] == Settled(Renewed(token))
    ensures var q := Step(Run(INITIAL, actions), Resume(r)).requests[r];
            q.phase.Resent? && q.header == Bearer(token)
  {
    StoreHoldsLatest(actions);
  }

  // ---------------------------------------------------------------- what comes back

  /** Where a refresh stands once its POST was answered. */
  predicate Follows(refresh: Refresh, reply: Reply) {
    var outcome := if reply.Granted? then Renewed(reply.token) else Expired;
    match refresh
    case Posting => false
    case Replied(given) => given == reply
    case Failing => !reply.Granted?
    case Finishing(o) => o == outcome
    case Settled(o) => o == outcome
  }

  lemma {:induction false} RunFollows(s: State, actions: seq<Action>, k: nat, reply: Reply)
    requires k < |s.refreshes| && Follows(s.refreshes[k], reply)
    ensures var t := Run(s, actions); k < |t.refreshes| && Follows(t.refreshes[k], reply)
    decreases |actions|
  {
    if actions != [] {
      var t := Step(s, actions[0]);
      assert k < |t.refreshes| && Follows(t.refreshes[k], reply);
      RunFollows(t, actions[1..], k, reply);
    }
  }

  /**
   * A refresh settles as its POST was answered: renewed with the token of the reply, expired
   * after a malformed reply or an error.
   */
  lemma OutcomeOfTheReply(s: State, k: nat, reply: Reply, more: seq<Action>)
    requires At(s, k, Posting)
    ensures var t := Run(Step(s, PostReplies(k, reply)), more);
            && k < |t.refreshes|
            && (t.refreshes[k].Settled? ==>
                  t.refreshes[k].outcome ==
                  if reply.Granted? then Renewed(reply.token) else Expired)
  {
    RunFollows(Step(s, PostReplies(k, reply)), more, k, reply);
  }

  lemma {:induction false} RunKeepsAnswer(s: State, actions: seq<Action>, r: nat)
    requires r < |s.requests| && (s.requests[r].phase.Fulfilled? || s.requests[r].phase.Rejected?)
    ensures var t := Run(s, actions);
            r < |t.requests| && t.requests[r].phase == s.requests[r].phase
    decreases |actions|
  {
    if actions != [] {
      var t := Step(s, actions[0]);
      assert r < |t.requests| && t.requests[r].phase == s.requests[r].phase;
      RunKeepsAnswer(t, actions[1..], r);
    }
  }

  /** A success delivers its body, for good. */
  lemma BodyIsDelivered(s: State, r: nat, body: string, more: seq<Action>)
    requires OnWire(s, r)
    ensures var t := Run(Step(s, Succeed(r, body)), more);
            r < |t.requests| && t.requests[r].phase == Fulfilled(body)
  {
    RunKeepsAnswer(Step(s, Succeed(r, body)), more, r);
  }

  /**
   * What a first failure that no refresh can mend shows the caller, for good: the server's own
   * code and message; a network error without a status when there was no response; else an
   * unknown error with the status and a message that is never empty.
   */
  lemma FailureIsReported(s: State, r: nat, f: Failure, more: seq<Action>)
    requires OnWire(s, r) && s.requests[r].first.None?
    requires || s.requests[r].auth || s.requests[r].retried || f.status != Some(401)
             || f.envelope.None? || f.envelope.value.code != "UNAUTHENTICATED"
    requires f.envelope.Some? ==> f.status.Some?
    ensures var t := Run(Step(s, Fail(r, f)), more);
            && r < |t.requests| && t.requests[r].phase.Rejected?
            && var e := t.requests[r].phase.error;
               && (f.envelope.Some? ==>
                     && e.code == f.envelope.value.code && e.message == f.envelope.value.message
                     && e.status == f.status)
               && (f.envelope.None? ==>
                     && (e.code == "NETWORK_ERROR" <==>
                           f.status.None? || f.transportCode == "ERR_NETWORK")
                     && e.code in {"NETWORK_ERROR", "UNKNOWN_ERROR"} && e.message != ""
                     && (e.code == "NETWORK_ERROR" ==> e.status.None?)
                     && (e.code == "UNKNOWN_ERROR" ==>
                           e.status == f.status && (f.message != "" ==> e.message == f.message)))
  {
    RunKeepsAnswer(Step(s, Fail(r, f)), more, r);
  }

  // ---------------------------------------------------------------- how many POSTs

  /** A POST is made exactly when a refreshable failure arrives and no refresh is in flight. */
  lemma PostsExactlyWhen(s: State, a: Action)
    ensures |Step(s, a).refreshes| ==
            |s.refreshes| +
            (if && a.Fail? && OnWire(s, a.request) && s.refreshPromise.None?
                && a.failure.status == Some(401) && a.failure.envelope.Some?
                && a.failure.envelope.value.code == "UNAUTHENTICATED"
                && !s.requests[a.request].auth && !s.requests[a.request].retried
             then 1 else 0)
  {
  }

  /**
   * A burst: until the refresh in flight finishes, any number of failures, of any requests and
   * in any order, make one POST in all, and none if one was in flight.
   */
  lemma {:induction false} BurstMakesOnePost(s: State, actions: seq<Action>)
    requires forall i | 0 <= i < |actions| :: !actions[i].RunFinally?
    ensures |Run(s, actions).refreshes| <=
            |s.refreshes| + (if s.refreshPromise.Some? then 0 else 1)
    decreases |actions|
  {
    if actions != [] {
      PostsExactlyWhen(s, actions[0]);
      var t := Step(s, actions[0]);
      assert s.refreshPromise.Some? ==> t.refreshPromise.Some?;
      assert |t.refreshes| > |s.refreshes| ==> t.refreshPromise.Some?;
      BurstMakesOnePost(t, actions[1..]);
    }
  }

  lemma RunThree(s: State, a: Action, b: Action, c: Action)
    ensures Run(s, [a, b, c]) == Step(Step(Step(s, a), b), c)
  {
    assert [a, b, c][1..] == [b, c] && [b, c][1..] == [c] && [c][1..] == [];
    assert Run(Step(Step(s, a), b), [c]) == Run(Step(Step(Step(s, a), b), c), []);
    assert Run(Step(s, a), [b, c]) == Run(Step(Step(s, a), b), [c]);
  }

  lemma {:induction false} RunConcat(s: State, first: seq<Action>, second: seq<Action>)
    ensures Run(s, first + second) == Run(Run(s, first), second)
    decreases |first|
  {
    if first == [] {
      assert first + second == second;
    } else {
      assert (first + second)[1..] == first[1..] + second;
      RunConcat(Step(s, first[0]), first[1..], second);
    }
  }

  /**
   * Two requests leave with the same stale token; the second one's 401 comes after the refresh
   * for the first has finished, and makes a second POST although a new token is stored.
   */
  lemma LateFailurePostsAgain(token: string, f: Failure)
    requires f.status == Some(401) && f.envelope.Some? && f.envelope.value.code == "UNAUTHENTICATED"
    ensures var s := Run(INITIAL, [Send(false), Send(false), Fail(0, f)]
                         + [PostReplies(0, Granted(Some(token))), RunThen(0), RunFinally(0)]);
            && s.accessToken == Some(token) && |s.refreshes| == 1
            && |Step(s, Fail(1, f)).refreshes| == 2
  {
    var early := [Send(false), Send(false), Fail(0, f)];
    var refresh := [PostReplies(0, Granted(Some(token))), RunThen(0), RunFinally(0)];
    RunConcat(INITIAL, early, refresh);
    RunThree(INITIAL, Send(false), Send(false), Fail(0, f));
    var sent := Request(false, Absent, false, 1, None, None, Sent);
    var two := Step(Step(INITIAL, Send(false)), Send(false));
    assert two.requests == [sent, sent];
    var s1 := Step(two, Fail(0, f));
    assert s1.refreshes == [Posting] && s1.requests[1] == sent;
    RunThree(s1, PostReplies(0, Granted(Some(token))), RunThen(0), RunFinally(0));
    var s2 := Step(s1, PostReplies(0, Granted(Some(token))));
    assert s2.refreshes == [Replied(Granted(Some(token)))];
    var s3 := Step(s2, RunThen(0));
    assert s3.refreshes == [Finishing(Renewed(Some(token)))];
    PostsExactlyWhen(Step(s3, RunFinally(0)), Fail(1, f));
  }

  // ---------------------------------------------------------------- no waiter is stuck

  /** The reply to the POST, if it is outstanding, and the callbacks after it. */
  function Finish(k: nat, reply: Reply): seq<Action> {
    [PostReplies(k, reply)] + [RunThen(k), RunCatch(k), RunFinally(k)]
  }

  function ResumeFrom(r: nat, n: nat): seq<Action>
    requires r <= n
    decreases n - r
  {
    if r == n then [] else [Resume(r)] + ResumeFrom(r + 1, n)
  }

  /** The events left to happen once the server has replied. */
  function Drain(s: State, reply: Reply): seq<Action> {
    (if s.refreshPromise.Some? then Finish(s.refreshPromise.value, reply) else [])
    + ResumeFrom(0, |s.requests|)
  }

  lemma CallbacksSettle(s: State, k: nat)
    requires k < |s.refreshes| && !s.refreshes[k].Posting? && !s.refreshes[k].Settled?
    ensures var t := Step(Step(Step(s, RunThen(k)), RunCatch(k)), RunFinally(k));
            t.refreshPromise.None? && t.requests == s.requests
  {
    var t1 := Step(s, RunThen(k));
    assert t1.refreshes[k].Failing? || t1.refreshes[k].Finishing?;
    var t2 := Step(t1, RunCatch(k));
    assert t2.refreshes[k].Finishing?;
  }

  lemma FinishSettles(s: State, k: nat, reply: Reply)
    requires Inv(s) && s.refreshPromise == Some(k)
    ensures var t := Run(s, Finish(k, reply));
            Inv(t) && t.refreshPromise.None? && t.requests == s.requests
  {
    RunKeepsInv(s, Finish(k, reply));
    var s1 := Step(s, PostReplies(k, reply));
    RunConcat(s, [PostReplies(k, reply)], [RunThen(k), RunCatch(k), RunFinally(k)]);
    assert [PostReplies(k, reply)][1..] == [];
    assert Run(s, [PostReplies(k, reply)]) == Run(s1, []);
    RunThree(s1, RunThen(k), RunCatch(k), RunFinally(k));
    CallbacksSettle(s1, k);
  }

  /** With no refresh in flight, a waiting request resumes, and nothing else changes. */
  lemma Resumes(s: State, r: nat)
    requires Inv(s) && s.refreshPromise.None? && r < |s.requests|
    ensures var t := Step(s, Resume(r));
            && t == WithRequest(s, r, t.requests[r]) && !t.requests[r].phase.Waiting?
  {
    assert RequestOk(s.refreshes, s.requests[r]);
    assert s.requests == s.requests[r := s.requests[r]];
  }

  lemma {:induction false} AllResume(s: State, r: nat)
    requires Inv(s) && s.refreshPromise.None? && r <= |s.requests|
    requires forall q | 0 <= q < r :: !s.requests[q].phase.Waiting?
    ensures var t := Run(s, ResumeFrom(r, |s.requests|));
            && |t.requests| == |s.requests|
            && forall q | 0 <= q < |t.requests| :: !t.requests[q].phase.Waiting?
    decreases |s.requests| - r
  {
    if r < |s.requests| {
      var t := Step(s, Resume(r));
      ResumeKeepsInv(s, r);
      Resumes(s, r);
      assert ResumeFrom(r, |s.requests|)[1..] == ResumeFrom(r + 1, |s.requests|);
      AllResume(t, r + 1);
    }
  }

  /**
   * From every reachable state, once the server replies to the POST, whatever the reply, running
   * the callbacks that are due leaves no request waiting.
   */
  lemma NoWaiterIsStuck(actions: seq<Action>, reply: Reply)
    ensures var s := Run(INITIAL, actions);
            var t := Run(s, Drain(s, reply));
            && |t.requests| == |s.requests| && t.refreshPromise.None?
            && forall r | 0 <= r < |t.requests| :: !t.requests[r].phase.Waiting?
  {
    Reachable(actions);
    var s := Run(INITIAL, actions);
    var finish := if s.refreshPromise.Some? then Finish(s.refreshPromise.value, reply) else [];
    RunConcat(s, finish, ResumeFrom(0, |s.requests|));
    if s.refreshPromise.Some? {
      FinishSettles(s, s.refreshPromise.value, reply);
    }
    var u := Run(s, finish);
    AllResume(u, 0);
    ResumesStartNothing(u, 0, |u.requests|);
  }

  lemma {:induction false} ResumesStartNothing(s: State, r: nat, n: nat)
    requires r <= n
    ensures Run(s, ResumeFrom(r, n)).refreshPromise == s.refreshPromise
    decreases n - r
  {
    if r < n {
      assert ResumeFrom(r, n)[1..] == ResumeFrom(r + 1, n);
      ResumesStartNothing(Step(s, Resume(r)), r + 1, n);
    }
  }

  // ---------------------------------------------------------------- the module as an object

  /** The module's variables with the requests and refreshes running on them. */
  class ApiClient {
    var refreshPromise: Option<nat>
    var refreshes: seq<Refresh>
    var accessToken: Token
    var requests: seq<Request>
    var expired: seq<nat>

    function View(): State
      reads this
    {
      State(refreshPromise, refreshes, accessToken, requests, expired)
    }

    constructor ()
      ensures View() == INITIAL
    {
      refreshPromise, refreshes, accessToken, requests, expired := None, [], None, [], [];
    }

    method SendRequest(auth: bool) returns (r: nat)
      modifies this
      ensures View() == Step(old(View()), Send(auth)) && r == |old(requests)|
    {
      r := |requests|;
      var header := Absent;
      if Truthy(accessToken) {
        header := Bearer(accessToken);
      }
      requests := requests + [Request(auth, header, false, 1, None, None, Sent)];
    }

    method RefreshAccessToken() returns (k: nat)
      modifies this
      ensures (View(), k) == Join(old(View()))
    {
      if refreshPromise.None? {
        refreshPromise := Some(|refreshes|);
        refreshes := refreshes + [Posting];
      }
      k := refreshPromise.value;
    }

    /** The response interceptor on an error. */
    method OnResponseError(r: nat, error: Failure)
      requires OnWire(View(), r)
      modifies this
      ensures View() == Step(old(View()), Fail(r, error))
    {
      var q := requests[r];
      if && error.status == Some(401)
         && error.envelope.Some? && error.envelope.value.code == "UNAUTHENTICATED"
         && !q.auth && !q.retried
      {
        var k := RefreshAccessToken();
        requests := requests[r :=
          q.(retried := true, first := Some(error), joined := Some(k), phase := Waiting)];
      } else if q.first.Some? {
        requests := requests[r := q.(phase := Rejected(NormalizeError(q.first.value)))];
      } else {
        requests := requests[r := q.(phase := Rejected(NormalizeError(error)))];
      }
    }

    /** The `then` callback of the POST. */
    method OnRefreshed(k: nat)
      requires k < |refreshes| && refreshes[k].Replied?
      modifies this
      ensures View() == Step(old(View()), RunThen(k))
    {
      match refreshes[k].reply
      case Granted(token) =>
        accessToken := token;
        refreshes := refreshes[k := Finishing(Renewed(token))];
      case Malformed => refreshes := refreshes[k := Failing];
      case PostFailed => refreshes := refreshes[k := Failing];
    }

    /** The `catch` callback. */
    method OnRefreshFailed(k: nat)
      requires At(View(), k, Failing)
      modifies this
      ensures View() == Step(old(View()), RunCatch(k))
    {
      accessToken := None;
      expired := expired + [k];
      refreshes := refreshes[k := Finishing(Expired)];
    }

    /** The `finally` callback. */
    method OnRefreshSettled(k: nat)
      requires k < |refreshes| && refreshes[k].Finishing?
      modifies this
      ensures View() == Step(old(View()), RunFinally(k))
    {
      refreshPromise := None;
      refreshes := refreshes[k := Settled(refreshes[k].outcome)];
    }

    /** The interceptor after its `await`: the resend, or the `catch` around it. */
    method ResumeRequest(r: nat)
      requires CanResume(View(), r)
      modifies this
      ensures View() == Step(old(View()), Resume(r))
    {
      var q := requests[r];
      match refreshes[q.joined.value].outcome
      case Renewed(token) =>
        var header := Bearer(token);
        if Truthy(accessToken) {
          header := Bearer(accessToken);
        }
        requests := requests[r := q.(header := header, sends := q.sends + 1, phase := Resent)];
      case Expired =>
        requests := requests[r := q.(phase := Rejected(NormalizeError(q.first.value)))];
    }
  }
}
