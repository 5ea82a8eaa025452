/** The browser client's token refresh as an event loop: callbacks of requests, of the shared refresh
    and of the user, in any order (frontend/src/api/client.ts). */
module TokenRefresh {
  import opened Common

  /** Access tokens by order of issue. */
  type Token = nat

  datatype Answer = Token(token: Token) | NetworkFailure | NoRefreshToken

  /** The promise of one refresh: the call is out; it has been answered, `finally` has not run; settled. */
  datatype Refresh = Calling | Answered(answer: Answer) | Settled(answer: Answer)

  /** `tried` is the token of the first send. */
  datatype Request =
    | Sent(header: Option<Token>)
    | Awaiting(tried: Option<Token>, promise: nat)
    | Resent(tried: Option<Token>, header: Option<Token>)
    | Done(ok: bool, sends: nat)

  datatype State = State(
    access: Option<Token>, refreshToken: bool, issued: Token,
    refreshPromise: Option<nat>, refreshes: seq<Refresh>, requests: seq<Request>)

  datatype Response = Accepted | Unauthorized | OtherError

  datatype Action =
    | Login
    | Logout
    | Send
    | Respond(r: nat, response: Response)
    | AnswerRefresh(ok: bool)
    | Finally
    | Resume(r: nat)

  const INIT := State(None, false, 0, None, [], [])

  /** The stage of the refresh that `refreshPromise` holds. */
  predicate Current(s: State, calling: bool) {
    s.refreshPromise.Some? && s.refreshPromise.value < |s.refreshes| &&
    var f := s.refreshes[s.refreshPromise.value]; if calling then f.Calling? else f.Answered?
  }

  predicate Enabled(s: State, a: Action) {
    match a
    case Login => true
    case Logout => true
    case Send => true
    case Respond(r, _) => r < |s.requests| && (s.requests[r].Sent? || s.requests[r].Resent?)
    case AnswerRefresh(_) => Current(s, true)
    case Finally => Current(s, false)
    case Resume(r) =>
      r < |s.requests| && s.requests[r].Awaiting? && s.requests[r].promise < |s.refreshes| &&
      s.refreshes[s.requests[r].promise].Settled?
  }

  function WithRequest(s: State, r: nat, q: Request): State
    requires r < |s.requests|
  {
    s.(requests := s.requests[r := q])
  }

  /** A first 401: reject without a refresh token, else await the shared refresh, starting it if there
      is none. A started refresh looks the token up again before it calls. */
  function OnFirst401(s: State, r: nat): State
    requires r < |s.requests| && s.requests[r].Sent?
  {
    if !s.refreshToken then WithRequest(s, r, Done(false, 1))
    else if s.refreshPromise.Some? then
      WithRequest(s, r, Awaiting(s.requests[r].header, s.refreshPromise.value))
    else
      WithRequest(s, r, Awaiting(s.requests[r].header, |s.refreshes|)).(
        refreshPromise := Some(|s.refreshes|),
        refreshes := s.refreshes + [if s.refreshToken then Calling else Answered(NoRefreshToken)])
  }

  function OnResponse(s: State, r: nat, response: Response): State
    requires Enabled(s, Respond(r, response))
  {
    match s.requests[r]
    case Sent(_) =>
      if response == Unauthorized then OnFirst401(s, r) else WithRequest(s, r, Done(response == Accepted, 1))
    case Resent(_, _) => WithRequest(s, r, Done(response == Accepted, 2))
  }

  function OnResume(s: State, r: nat): State
    requires Enabled(s, Resume(r))
  {
    var q := s.requests[r];
    match s.refreshes[q.promise].answer
    case Token(token) =>
      WithRequest(s, r, Resent(q.tried, if s.access.Some? then s.access else Some(token)))
    case _ => WithRequest(s, r, Done(false, 1)).(access := None, refreshToken := false)
  }

  function Apply(s: State, a: Action): State
    requires Enabled(s, a)
  {
    match a
    case Login => s.(access := Some(s.issued + 1), refreshToken := true, issued := s.issued + 1)
    case Logout => s.(access := None, refreshToken := false)
    case Send => s.(requests := s.requests + [Sent(s.access)])
    case Respond(r, response) => OnResponse(s, r, response)
    case AnswerRefresh(ok) =>
      var p := s.refreshPromise.value;
      if ok then
        s.(access := Some(s.issued + 1), issued := s.issued + 1,
           refreshes := s.refreshes[p := Answered(Token(s.issued + 1))])
      else s.(refreshes := s.refreshes[p := Answered(NetworkFailure)])
    case Finally =>
      var p := s.refreshPromise.value;
      s.(refreshPromise := None, refreshes := s.refreshes[p := Settled(s.refreshes[p].answer)])
    case Resume(r) => OnResume(s, r)
  }

  ghost function Exec(run: seq<Action>): Option<State>
    decreases |run|
  {
    if run == [] then Some(INIT)
    else
      var before := Exec(run[..|run| - 1]);
      if before.Some? && Enabled(before.value, run[|run| - 1])
      then Some(Apply(before.value, run[|run| - 1])) else None
  }

  // ----- at most one refresh at a time -----

  ghost predicate SingleFlight(s: State) {
    && (s.refreshPromise.Some? ==> s.refreshPromise.value < |s.refreshes|)
    && (forall p :: 0 <= p < |s.refreshes| ==> (s.refreshes[p].Settled? <==> s.refreshPromise != Some(p)))
    && (forall p :: 0 <= p < |s.refreshes| && !s.refreshes[p].Calling? ==> s.refreshes[p].answer != NoRefreshToken)
    && (forall r :: 0 <= r < |s.requests| && s.requests[r].Awaiting? ==> s.requests[r].promise < |s.refreshes|)
  }

  lemma {:induction false} SingleFlightHolds(run: seq<Action>)
    requires Exec(run).Some?
    ensures SingleFlight(Exec(run).value)
    decreases |run|
  {
    if run != [] {
      SingleFlightHolds(run[..|run| - 1]);
      SingleFlightStep(Exec(run[..|run| - 1]).value, run[|run| - 1]);
    }
  }

  lemma SingleFlightStep(s: State, a: Action)
    requires Enabled(s, a) && SingleFlight(s)
    ensures SingleFlight(Apply(s, a))
  {
  }

  predicate Unsettled(s: State, p: nat) {
    p < |s.refreshes| && !s.refreshes[p].Settled?
  }

  predicate WaitsForRefresh(s: State, r: nat) {
    r < |s.requests| && s.requests[r].Awaiting? && !Enabled(s, Resume(r))
  }

  /** In every interleaving at most one refresh is unsettled, and it is the one in `refreshPromise`;
      whoever waits for an unsettled refresh waits for that one; and no refresh ever starts without a
      refresh token. */
  lemma AtMostOneRefreshInFlight(run: seq<Action>, s: State)
    requires Exec(run) == Some(s)
    ensures forall p: nat, q: nat :: Unsettled(s, p) && Unsettled(s, q) ==> p == q
    ensures forall q: nat, r: nat :: WaitsForRefresh(s, q) && WaitsForRefresh(s, r) ==>
      s.requests[q].promise == s.requests[r].promise
    ensures forall p :: 0 <= p < |s.refreshes| && !s.refreshes[p].Calling? ==> s.refreshes[p].answer != NoRefreshToken
  {
    SingleFlightHolds(run);
  }

  ghost function Count(run: seq<Action>, p: Action -> bool): nat
    decreases |run|
  {
    if run == [] then 0 else Count(run[..|run| - 1], p) + if p(run[|run| - 1]) then 1 else 0
  }

  /** Refreshes follow one another: one starts only after all before it have settled. */
  lemma {:induction false} RefreshesTakeTurns(run: seq<Action>, s: State)
    requires Exec(run) == Some(s)
    ensures |s.refreshes| == Count(run, (a: Action) => a.Finally?) + if s.refreshPromise.Some? then 1 else 0
    decreases |run|
  {
    if run != [] {
      var before := Exec(run[..|run| - 1]).value;
      RefreshesTakeTurns(run[..|run| - 1], before);
      SingleFlightHolds(run[..|run| - 1]);
    }
  }

  // ----- each request: at most two sends, one settlement -----

  function SendsSoFar(q: Request): nat {
    match q
    case Sent(_) => 1
    case Awaiting(_, _) => 1
    case Resent(_, _) => 2
    case Done(_, sends) => sends
  }

  /** Whether the action puts request `r` on the wire. */
  predicate PutsOnWire(s: State, a: Action, r: nat) {
    match a
    case Send => r == |s.requests|
    case Resume(q) => q == r && Enabled(s, a) && s.refreshes[s.requests[r].promise].answer.Token?
    case _ => false
  }

  predicate Settles(s: State, a: Action, r: nat) {
    Enabled(s, a) && r < |s.requests| && !s.requests[r].Done? && Apply(s, a).requests[r].Done?
  }

  ghost function WireCount(run: seq<Action>, r: nat): nat
    decreases |run|
  {
    if run == [] then 0
    else
      var before := Exec(run[..|run| - 1]);
      WireCount(run[..|run| - 1], r) + if before.Some? && PutsOnWire(before.value, run[|run| - 1], r) then 1 else 0
  }

  ghost function SettleCount(run: seq<Action>, r: nat): nat
    decreases |run|
  {
    if run == [] then 0
    else
      var before := Exec(run[..|run| - 1]);
      SettleCount(run[..|run| - 1], r) + if before.Some? && Settles(before.value, run[|run| - 1], r) then 1 else 0
  }

  predicate SendsBounded(q: Request) {
    1 <= SendsSoFar(q) <= 2
  }

  /** In every run each request is on the wire once or twice, and settles exactly once if at all. */
  lemma {:induction false} TwoSendsOneSettlement(run: seq<Action>, s: State, r: nat)
    requires Exec(run) == Some(s)
    ensures r < |s.requests| ==> 1 <= WireCount(run, r) <= 2
    ensures r < |s.requests| ==> WireCount(run, r) == SendsSoFar(s.requests[r])
    ensures SettleCount(run, r) == if r < |s.requests| && s.requests[r].Done? then 1 else 0
    ensures r >= |s.requests| ==> WireCount(run, r) == 0
    decreases |run|
  {
    if run != [] {
      var before := Exec(run[..|run| - 1]).value;
      TwoSendsOneSettlement(run[..|run| - 1], before, r);
      SendsStep(before, run[|run| - 1], r);
    }
  }

  lemma SendsStep(s: State, a: Action, r: nat)
    requires Enabled(s, a)
    ensures |s.requests| <= |Apply(s, a).requests|
    ensures r < |s.requests| ==>
      SendsSoFar(Apply(s, a).requests[r]) == SendsSoFar(s.requests[r]) + if PutsOnWire(s, a, r) then 1 else 0
    ensures r < |s.requests| && s.requests[r].Done? ==> Apply(s, a).requests[r] == s.requests[r]
    ensures |s.requests| <= r < |Apply(s, a).requests| ==>
      PutsOnWire(s, a, r) && SendsSoFar(Apply(s, a).requests[r]) == 1 && !Apply(s, a).requests[r].Done?
    ensures r >= |Apply(s, a).requests| ==> !PutsOnWire(s, a, r)
    ensures r < |s.requests| && SendsBounded(s.requests[r]) ==> SendsBounded(Apply(s, a).requests[r])
  {
  }

  // ----- how each request ends, told from what happened -----

  /** The request has got a 401. */
  ghost predicate Refused(run: seq<Action>, r: nat) {
    exists k :: 0 <= k < |run| && run[k] == Respond(r, Unauthorized)
  }

  /** How the last answered refresh call ended. */
  ghost function LastRefreshOk(run: seq<Action>): bool
    decreases |run|
  {
    run != [] &&
    if run[|run| - 1].AnswerRefresh? then run[|run| - 1].ok else LastRefreshOk(run[..|run| - 1])
  }

  /** How the refresh ended that was the first to settle after the request's 401. */
  ghost function RefreshVerdict(run: seq<Action>, r: nat): Option<bool>
    decreases |run|
  {
    if run == [] then None
    else
      var init := run[..|run| - 1];
      if RefreshVerdict(init, r).Some? then RefreshVerdict(init, r)
      else if run[|run| - 1].Finally? && Refused(init, r) then Some(LastRefreshOk(init)) else None
  }

  /** The interceptor gives up on the request: its refresh failed. */
  ghost predicate GivesUp(init: seq<Action>, a: Action) {
    a.Resume? && RefreshVerdict(init, a.r) == Some(false)
  }

  /** The user signed in last, and neither signed out nor was signed out since. */
  ghost predicate SignedIn(run: seq<Action>)
    decreases |run|
  {
    run != [] &&
    var init, a := run[..|run| - 1], run[|run| - 1];
    a.Login? || (!a.Logout? && !GivesUp(init, a) && SignedIn(init))
  }

  datatype Fate = Open | Resolved | Rejected

  /** What the caller of a request has been told: success on a success; rejection on any other error, on a
      401 that is its second or finds nobody signed in, and on a failed refresh. */
  ghost function FateOf(run: seq<Action>, r: nat): Fate
    decreases |run|
  {
    if run == [] then Open
    else
      var init, a := run[..|run| - 1], run[|run| - 1];
      if a == Respond(r, Accepted) then Resolved
      else if a == Respond(r, OtherError) then Rejected
      else if a == Respond(r, Unauthorized) then
        if Refused(init, r) || !SignedIn(init) then Rejected else FateOf(init, r)
      else if a == Resume(r) && GivesUp(init, a) then Rejected
      else FateOf(init, r)
  }

  lemma RefusedAppend(run: seq<Action>, r: nat)
    requires run != []
    ensures Refused(run, r) <==> Refused(run[..|run| - 1], r) || run[|run| - 1] == Respond(r, Unauthorized)
  {
    var init := run[..|run| - 1];
    assert run == init + [run[|run| - 1]];
    if Refused(init, r) {
      var k :| 0 <= k < |init| && init[k] == Respond(r, Unauthorized);
      assert run[k] == Respond(r, Unauthorized);
    }
    assert run[|run| - 1] == Respond(r, Unauthorized) ==> Refused(run, r);
  }

  /** What the state keeps of the past. */
  ghost predicate RequestPast(s: State, q: Request, refused: bool, verdict: Option<bool>, fate: Fate) {
    match q
    case Sent(_) => !refused && verdict == None && fate == Open
    case Awaiting(_, p) =>
      && refused && fate == Open && p < |s.refreshes|
      && verdict == if s.refreshes[p].Settled? then Some(s.refreshes[p].answer.Token?) else None
    case Resent(_, _) => refused && verdict == Some(true) && fate == Open
    case Done(ok, _) => fate == if ok then Resolved else Rejected
  }

  ghost predicate AnswerPast(s: State, lastOk: bool) {
    Current(s, false) ==> s.refreshes[s.refreshPromise.value].answer.Token? == lastOk
  }

  ghost predicate Past(s: State, run: seq<Action>, r: nat) {
    && SingleFlight(s) && (s.refreshToken <==> SignedIn(run)) && AnswerPast(s, LastRefreshOk(run))
    && if r < |s.requests| then RequestPast(s, s.requests[r], Refused(run, r), RefreshVerdict(run, r), FateOf(run, r))
       else !Refused(run, r) && RefreshVerdict(run, r) == None && FateOf(run, r) == Open
  }

  lemma SignedInStep(s: State, a: Action, init: seq<Action>)
    requires Enabled(s, a) && (s.refreshToken <==> SignedIn(init))
    requires a.Resume? ==> Past(s, init, a.r)
    ensures Apply(s, a).refreshToken <==> a.Login? || (!a.Logout? && !GivesUp(init, a) && SignedIn(init))
  {
  }

  lemma AnswerStep(s: State, a: Action, lastOk: bool)
    requires Enabled(s, a) && SingleFlight(s) && AnswerPast(s, lastOk)
    ensures AnswerPast(Apply(s, a), if a.AnswerRefresh? then a.ok else lastOk)
  {
  }

  lemma RequestPastStep(s: State, a: Action, init: seq<Action>, run: seq<Action>, r: nat)
    requires Enabled(s, a) && Past(s, init, r) && run == init + [a]
    ensures var s' := Apply(s, a);
      if r < |s'.requests|
      then RequestPast(s', s'.requests[r], Refused(run, r), RefreshVerdict(run, r), FateOf(run, r))
      else !Refused(run, r) && RefreshVerdict(run, r) == None && FateOf(run, r) == Open
  {
    assert run[..|run| - 1] == init;
    RefusedAppend(run, r);
  }

  lemma {:induction false} PastHolds(run: seq<Action>, s: State, r: nat)
    requires Exec(run) == Some(s)
    ensures Past(s, run, r)
    decreases |run|
  {
    SingleFlightHolds(run);
    if run != [] {
      var init, a := run[..|run| - 1], run[|run| - 1];
      var before := Exec(init).value;
      assert run == init + [a];
      PastHolds(init, before, r);
      if a.Resume? {
        PastHolds(init, before, a.r);
      }
      SignedInStep(before, a, init);
      AnswerStep(before, a, LastRefreshOk(init));
      RequestPastStep(before, a, init, run, r);
    }
  }

  /** Over every run, a request has ended well if and only if its caller is owed success, and badly if and
      only if its caller is owed an error. */
  lemma RequestEndsAsTold(run: seq<Action>, s: State, r: nat)
    requires Exec(run) == Some(s) && r < |s.requests|
    ensures s.requests[r].Done? && s.requests[r].ok <==> FateOf(run, r) == Resolved
    ensures s.requests[r].Done? && !s.requests[r].ok <==> FateOf(run, r) == Rejected
  {
    PastHolds(run, s, r);
  }

  ghost predicate TokenHeld(s: State) {
    s.refreshToken ==> s.access == Some(s.issued)
  }

  lemma {:induction false} TokenHeldHolds(run: seq<Action>, s: State)
    requires Exec(run) == Some(s)
    ensures TokenHeld(s)
    decreases |run|
  {
    if run != [] {
      TokenHeldHolds(run[..|run| - 1], Exec(run[..|run| - 1]).value);
    }
  }

  /** While somebody is signed in, every new request carries the token issued last. */
  lemma SignedInRequestsCarryNewestToken(run: seq<Action>, s: State)
    requires Exec(run) == Some(s) && SignedIn(run)
    ensures Apply(s, Send).requests == s.requests + [Sent(Some(s.issued))]
  {
    PastHolds(run, s, 0);
    TokenHeldHolds(run, s);
  }

  /** The last answer the request itself got. */
  ghost function LastResponse(run: seq<Action>, r: nat): Option<Response>
    decreases |run|
  {
    if run == [] then None
    else if run[|run| - 1].Respond? && run[|run| - 1].r == r then Some(run[|run| - 1].response)
    else LastResponse(run[..|run| - 1], r)
  }

  ghost predicate ResponseKnown(q: Request, last: Option<Response>) {
    match q
    case Sent(_) => last == None
    case Awaiting(_, _) => last == Some(Unauthorized)
    case Resent(_, _) => last == Some(Unauthorized)
    case Done(ok, _) => ok <==> last == Some(Accepted)
  }

  lemma ResponseStep(s: State, a: Action, r: nat, last: Option<Response>)
    requires Enabled(s, a) && r < |s.requests| && ResponseKnown(s.requests[r], last)
    ensures ResponseKnown(Apply(s, a).requests[r], if a.Respond? && a.r == r then Some(a.response) else last)
  {
  }

  lemma {:induction false} ResponseKnownHolds(run: seq<Action>, s: State, r: nat)
    requires Exec(run) == Some(s) && r < |s.requests|
    ensures ResponseKnown(s.requests[r], LastResponse(run, r))
    decreases |run|
  {
    var init := run[..|run| - 1];
    var before := Exec(init).value;
    if r < |before.requests| {
      ResponseKnownHolds(init, before, r);
      ResponseStep(before, run[|run| - 1], r, LastResponse(init, r));
    } else {
      NoResponseYet(init, before, r);
    }
  }

  /** So a request has ended well if and only if the last answer to it was a success. */
  lemma SuccessIffLastResponse(run: seq<Action>, s: State, r: nat)
    requires Exec(run) == Some(s) && r < |s.requests|
    ensures s.requests[r].Done? && s.requests[r].ok <==> LastResponse(run, r) == Some(Accepted)
  {
    ResponseKnownHolds(run, s, r);
  }

  lemma {:induction false} NoResponseYet(run: seq<Action>, s: State, r: nat)
    requires Exec(run) == Some(s) && r >= |s.requests|
    ensures LastResponse(run, r) == None
    decreases |run|
  {
    if run != [] {
      NoResponseYet(run[..|run| - 1], Exec(run[..|run| - 1]).value, r);
    }
  }

  // ----- everything settles -----

  /** Login, logout and new requests come from the user; the rest answers what is already under way. */
  predicate IsProgress(a: Action) {
    !a.Login? && !a.Logout? && !a.Send?
  }

  function RequestWeight(q: Request): nat {
    match q
    case Sent(_) => 5
    case Awaiting(_, _) => 2
    case Resent(_, _) => 1
    case Done(_, _) => 0
  }

  function RefreshWeight(f: Refresh): nat {
    match f
    case Calling => 2
    case Answered(_) => 1
    case Settled(_) => 0
  }

  ghost function Total<T>(xs: seq<T>, weight: T -> nat): nat
    decreases |xs|
  {
    if xs == [] then 0 else Total(xs[..|xs| - 1], weight) + weight(xs[|xs| - 1])
  }

  lemma {:induction false} TotalUpdate<T>(xs: seq<T>, weight: T -> nat, k: nat, x: T)
    requires k < |xs|
    ensures Total(xs[k := x], weight) == Total(xs, weight) - weight(xs[k]) + weight(x)
    decreases |xs|
  {
    var init := xs[..|xs| - 1];
    if k < |xs| - 1 {
      TotalUpdate(init, weight, k, x);
      assert xs[k := x][..|xs| - 1] == init[k := x];
    } else {
      assert xs[k := x][..|xs| - 1] == init;
    }
  }

  ghost function Work(s: State): nat {
    Total(s.requests, RequestWeight) + Total(s.refreshes, RefreshWeight)
  }

  lemma TotalAppend<T>(xs: seq<T>, weight: T -> nat, x: T)
    ensures Total(xs + [x], weight) == Total(xs, weight) + weight(x)
  {
    assert (xs + [x])[..|xs|] == xs;
  }

  /** A response or a resumption takes more weight off its request than a refresh it may start has. */
  lemma RequestGetsLighter(s: State, a: Action)
    requires Enabled(s, a) && SingleFlight(s) && (a.Respond? || a.Resume?)
    ensures var s' := Apply(s, a);
      && |s'.requests| == |s.requests| && s'.requests == s.requests[a.r := s'.requests[a.r]]
      && (s'.refreshes == s.refreshes || s'.refreshes == s.refreshes + [Calling])
      && RequestWeight(s'.requests[a.r]) + (if s'.refreshes == s.refreshes then 0 else 2) <
           RequestWeight(s.requests[a.r])
  {
  }

  lemma RequestStepShrinks(s: State, a: Action)
    requires Enabled(s, a) && SingleFlight(s) && (a.Respond? || a.Resume?)
    ensures Work(Apply(s, a)) < Work(s)
  {
    var s' := Apply(s, a);
    RequestGetsLighter(s, a);
    TotalUpdate(s.requests, RequestWeight, a.r, s'.requests[a.r]);
    TotalAppend(s.refreshes, RefreshWeight, Calling);
  }

  /** Every answer, callback and resumption leaves less to do. */
  lemma WorkShrinks(s: State, a: Action)
    requires Enabled(s, a) && SingleFlight(s)
    ensures IsProgress(a) ==> Work(Apply(s, a)) < Work(s)
    ensures Work(Apply(s, a)) <= Work(s) + if a.Send? then 5 else 0
  {
    if a.Respond? || a.Resume? {
      RequestStepShrinks(s, a);
    } else if a.AnswerRefresh? || a.Finally? {
      var p := s.refreshPromise.value;
      TotalUpdate(s.refreshes, RefreshWeight, p, Apply(s, a).refreshes[p]);
    } else if a.Send? {
      assert Apply(s, a).requests[..|s.requests|] == s.requests;
    }
  }

  /** So a run with n requests has at most 5 n answers, callbacks and resumptions. */
  lemma {:induction false} ProgressIsBounded(run: seq<Action>, s: State)
    requires Exec(run) == Some(s)
    ensures Count(run, IsProgress) + Work(s) <= 5 * Count(run, (a: Action) => a.Send?)
    decreases |run|
  {
    if run != [] {
      var before := Exec(run[..|run| - 1]).value;
      ProgressIsBounded(run[..|run| - 1], before);
      SingleFlightHolds(run[..|run| - 1]);
      WorkShrinks(before, run[|run| - 1]);
    }
  }

  /** And it never gets stuck before all requests have settled. */
  lemma NoRequestIsStuck(run: seq<Action>, s: State)
    requires Exec(run) == Some(s)
    requires forall a :: IsProgress(a) ==> !Enabled(s, a)
    ensures forall r :: 0 <= r < |s.requests| ==> s.requests[r].Done?
  {
    SingleFlightHolds(run);
    forall r | 0 <= r < |s.requests| ensures s.requests[r].Done? {
      assert !Enabled(s, Respond(r, Accepted)) && !Enabled(s, Resume(r));
      assert !Enabled(s, AnswerRefresh(true)) && !Enabled(s, Finally);
    }
  }

  // ----- what a retry carries -----

  /** `finally` runs as a microtask, before any event that comes after the refresh's answer. */
  ghost predicate MicrotasksFirst(run: seq<Action>)
    decreases |run|
  {
    run == [] ||
    (MicrotasksFirst(run[..|run| - 1]) &&
     (Exec(run[..|run| - 1]).Some? && Current(Exec(run[..|run| - 1]).value, false) ==> run[|run| - 1] == Finally))
  }

  predicate Older(tried: Option<Token>, token: Token) {
    tried.Some? ==> tried.value < token
  }

  ghost predicate RequestTokens(s: State, q: Request) {
    match q
    case Sent(header) => Older(header, s.issued + 1)
    case Awaiting(tried, p) =>
      && p < |s.refreshes|
      && (match s.refreshes[p]
          case Calling => Older(tried, s.issued + 1)
          case Answered(Token(token)) => Older(tried, token)
          case Settled(Token(token)) => Older(tried, token)
          case _ => true)
    case Resent(tried, header) => header.Some? && Older(tried, header.value)
    case Done(_, _) => true
  }

  ghost predicate Tokens(s: State) {
    && SingleFlight(s)
    && (s.access.Some? ==> s.access.value == s.issued)
    && (forall p :: 0 <= p < |s.refreshes| && !s.refreshes[p].Calling? && s.refreshes[p].answer.Token? ==>
          s.refreshes[p].answer.token <= s.issued)
    && (forall r :: 0 <= r < |s.requests| ==> RequestTokens(s, s.requests[r]))
  }

  /** A request that an action leaves alone. */
  lemma TokensStay(s: State, a: Action, q: Request)
    requires Enabled(s, a) && Tokens(s) && (Current(s, false) ==> a == Finally) && RequestTokens(s, q)
    ensures RequestTokens(Apply(s, a), q)
  {
  }

  lemma RequestTokensStep(s: State, a: Action, r: nat)
    requires Enabled(s, a) && Tokens(s) && (Current(s, false) ==> a == Finally)
    requires r < |Apply(s, a).requests|
    ensures RequestTokens(Apply(s, a), Apply(s, a).requests[r])
  {
    if r < |s.requests| {
      assert RequestTokens(s, s.requests[r]);
      if Apply(s, a).requests[r] == s.requests[r] {
        TokensStay(s, a, s.requests[r]);
      }
    }
  }

  lemma TokensStep(s: State, a: Action)
    requires Enabled(s, a) && Tokens(s) && (Current(s, false) ==> a == Finally)
    ensures Tokens(Apply(s, a))
  {
    SingleFlightStep(s, a);
    forall r | 0 <= r < |Apply(s, a).requests| ensures RequestTokens(Apply(s, a), Apply(s, a).requests[r]) {
      RequestTokensStep(s, a, r);
    }
  }

  lemma {:induction false} TokensHold(run: seq<Action>, s: State)
    requires Exec(run) == Some(s) && MicrotasksFirst(run)
    ensures Tokens(s)
    decreases |run|
  {
    if run != [] {
      var before := Exec(run[..|run| - 1]).value;
      TokensHold(run[..|run| - 1], before);
      TokensStep(before, run[|run| - 1]);
    }
  }

  /** A retry always carries a token, and a newer one than the token that was refused. */
  lemma RetryCarriesNewerToken(run: seq<Action>, s: State, r: nat)
    requires Exec(run) == Some(s) && MicrotasksFirst(run)
    requires r < |s.requests| && s.requests[r].Resent?
    ensures s.requests[r].header.Some?
    ensures s.requests[r].tried.Some? ==> s.requests[r].tried.value < s.requests[r].header.value
  {
    TokensHold(run, s);
    assert RequestTokens(s, s.requests[r]);
  }

  // ----- which 401s share a refresh -----

  /** A first 401 joins a refresh exactly when that refresh is not settled yet, and starts a new one
      exactly when all are; without a refresh token it does neither. */
  lemma FirstUnauthorizedJoinsIffUnsettled(run: seq<Action>, s: State, r: nat)
    requires Exec(run) == Some(s) && r < |s.requests| && s.requests[r].Sent?
    ensures var s' := Apply(s, Respond(r, Unauthorized));
      && (s.refreshToken <==> s'.requests[r].Awaiting?)
      && (s.refreshToken ==> forall p: nat :: p < |s.refreshes| ==>
            (s'.requests[r].promise == p <==> !s.refreshes[p].Settled?))
      && (|s'.refreshes| == |s.refreshes| + 1 <==> s.refreshToken && s.refreshPromise == None)
      && (s.refreshPromise == None <==> forall p: nat :: p < |s.refreshes| ==> s.refreshes[p].Settled?)
  {
    SingleFlightHolds(run);
  }

  lemma {:induction false} RefreshesOnlyGrow(run: seq<Action>, more: seq<Action>)
    requires Exec(run).Some? && Exec(run + more).Some?
    ensures |Exec(run).value.refreshes| <= |Exec(run + more).value.refreshes|
    decreases |more|
  {
    if more == [] {
      assert run + more == run;
    } else {
      assert (run + more)[..|run + more| - 1] == run + more[..|more| - 1];
      RefreshesOnlyGrow(run, more[..|more| - 1]);
    }
  }

  /** Two requests refused one after the other, with the same token or not, share one refresh if and only
      if the first one's refresh has not settled when the second 401 arrives. */
  lemma LaterUnauthorizedSharesIffUnsettled(run: seq<Action>, more: seq<Action>, s: State, u: State, q: nat, r: nat)
    requires Exec(run) == Some(s) && q < |s.requests| && s.requests[q].Sent? && s.refreshToken
    requires Exec(run + [Respond(q, Unauthorized)] + more) == Some(u)
    requires r < |u.requests| && u.requests[r].Sent? && u.refreshToken
    ensures var p := Apply(s, Respond(q, Unauthorized)).requests[q].promise;
      && p < |u.refreshes|
      && (Apply(u, Respond(r, Unauthorized)).requests[r].promise == p <==> !u.refreshes[p].Settled?)
  {
    var first := run + [Respond(q, Unauthorized)];
    assert first[..|run|] == run;
    assert Exec(first + more).Some?;
    ExecPrefix(first, more);
    assert Exec(first) == Some(Apply(s, Respond(q, Unauthorized)));
    RefreshesOnlyGrow(first, more);
    SingleFlightHolds(first);
    FirstUnauthorizedJoinsIffUnsettled(first + more, u, r);
  }

  lemma {:induction false} ExecPrefix(run: seq<Action>, more: seq<Action>)
    requires Exec(run + more).Some?
    ensures Exec(run).Some?
    decreases |more|
  {
    if more == [] {
      assert run + more == run;
    } else {
      assert (run + more)[..|run + more| - 1] == run + more[..|more| - 1];
      ExecPrefix(run, more[..|more| - 1]);
    }
  }

  /** Both cases occur: here the second 401 comes too late, and two requests sent with the same token
      cause two refreshes. */
  lemma LateUnauthorizedRefreshesAgain() returns (run: seq<Action>, s: State)
    ensures Exec(run) == Some(s)
    ensures Count(run, (a: Action) => a.Login?) == 1 && |s.refreshes| == 2
    ensures |s.requests| == 2 && s.requests[0].Resent? && s.requests[1].Awaiting?
    ensures s.requests[1].tried == s.requests[0].tried
  {
    run, s := [], INIT;
    run, s := Then(run, s, Login);
    run, s := Then(run, s, Send);
    run, s := Then(run, s, Send);
    run, s := Then(run, s, Respond(0, Unauthorized));
    run, s := Then(run, s, AnswerRefresh(true));
    run, s := Then(run, s, Finally);
    run, s := Then(run, s, Resume(0));
    run, s := Then(run, s, Respond(1, Unauthorized));
  }

  lemma Then(run: seq<Action>, s: State, a: Action) returns (run': seq<Action>, s': State)
    requires Exec(run) == Some(s) && Enabled(s, a)
    ensures Exec(run') == Some(s') && s' == Apply(s, a)
    ensures Count(run', (b: Action) => b.Login?) == Count(run, (b: Action) => b.Login?) + if a.Login? then 1 else 0
  {
    run', s' := run + [a], Apply(s, a);
    assert run'[..|run|] == run;
  }

  // ----- the client -----

  /** The module's variables, and the callbacks that change them. */
  class ApiClient {
    var access: Option<Token>
    var refreshToken: bool
    var issued: Token
    var refreshPromise: Option<nat>
    var refreshes: seq<Refresh>
    var requests: seq<Request>

    constructor ()
      ensures Valid() && View() == INIT
    {
      access, refreshToken, issued, refreshPromise, refreshes, requests := None, false, 0, None, [], [];
    }

    ghost function View(): State
      reads this
    {
      State(access, refreshToken, issued, refreshPromise, refreshes, requests)
    }

    /** At most one refresh is unsettled, and it is the one in `refreshPromise`. */
    ghost predicate Valid()
      reads this
    {
      SingleFlight(View())
    }

    /** refreshAccessToken up to its first await. */
    method RefreshAccessToken() returns (promise: nat)
      modifies this`refreshes
      ensures promise == |old(refreshes)|
      ensures refreshes == old(refreshes) + [if refreshToken then Calling else Answered(NoRefreshToken)]
    {
      promise := |refreshes|;
      if !refreshToken {
        refreshes := refreshes + [Answered(NoRefreshToken)];
      } else {
        refreshes := refreshes + [Calling];
      }
    }

    /** The response interceptor up to `await refreshPromise`: a request that waits afterwards waits for
        the one unsettled refresh. */
    method OnResponse(r: nat, response: Response)
      requires Valid() && Enabled(View(), Respond(r, response))
      modifies this
      ensures Valid() && View() == Apply(old(View()), Respond(r, response))
      ensures requests[r].Awaiting? <==> response == Unauthorized && refreshToken && old(requests)[r].Sent?
      ensures requests[r].Awaiting? ==> WaitsForRefresh(View(), r) && Unsettled(View(), requests[r].promise)
      ensures !requests[r].Awaiting? ==> requests[r].Done? && (requests[r].ok <==> response == Accepted)
    {
      SingleFlightStep(View(), Respond(r, response));
      var sends := SendsSoFar(requests[r]);
      if response == Accepted {
        requests := requests[r := Done(true, sends)];
        return;
      }
      if response != Unauthorized || requests[r].Resent? {
        requests := requests[r := Done(false, sends)];
        return;
      }
      if !refreshToken {
        requests := requests[r := Done(false, sends)];
        return;
      }
      if refreshPromise == None {
        var promise := RefreshAccessToken();
        refreshPromise := Some(promise);
      }
      requests := requests[r := Awaiting(requests[r].header, refreshPromise.value)];
    }

    /** The rest of refreshAccessToken, once the refresh call has come back. It frees nobody yet: whoever
        waits goes on waiting for this very refresh. */
    method OnRefreshAnswer(ok: bool)
      requires Valid() && Enabled(View(), AnswerRefresh(ok))
      modifies this
      ensures Valid() && View() == Apply(old(View()), AnswerRefresh(ok))
      ensures forall r: nat :: Enabled(View(), Resume(r)) <==> old(Enabled(View(), Resume(r)))
      ensures forall r: nat :: WaitsForRefresh(View(), r) ==> requests[r].promise == refreshPromise.value
    {
      SingleFlightStep(View(), AnswerRefresh(ok));
      var p := refreshPromise.value;
      if ok {
        issued := issued + 1;
        access := Some(issued);
        refreshes := refreshes[p := Answered(Token(issued))];
      } else {
        refreshes := refreshes[p := Answered(NetworkFailure)];
      }
    }

    /** The `finally` callback: no refresh is under way any more, and everybody who waited may go on. */
    method OnFinally()
      requires Valid() && Enabled(View(), Finally)
      modifies this
      ensures Valid() && View() == Apply(old(View()), Finally)
      ensures forall p: nat :: !Unsettled(View(), p)
      ensures forall r: nat :: r < |requests| && requests[r].Awaiting? ==> Enabled(View(), Resume(r))
    {
      SingleFlightStep(View(), Finally);
      var p := refreshPromise.value;
      refreshPromise := None;
      refreshes := refreshes[p := Settled(refreshes[p].answer)];
    }

    /** The interceptor after `await refreshPromise`: send again, or give up and sign out. Either way the
        request never waits again, and there is less left to do. */
    method OnResume(r: nat)
      requires Valid() && Enabled(View(), Resume(r))
      modifies this
      ensures Valid() && View() == Apply(old(View()), Resume(r))
      ensures !Enabled(View(), Resume(r)) && SendsBounded(requests[r])
      ensures requests[r].Resent? ==> requests[r].header.Some? && (access.Some? ==> requests[r].header == access)
      ensures requests[r].Done? ==> access == None && !refreshToken
      ensures Work(View()) < Work(old(View()))
    {
      SingleFlightStep(View(), Resume(r));
      WorkShrinks(View(), Resume(r));
      var q := requests[r];
      var answer := refreshes[q.promise].answer;
      if answer.Token? {
        var header := Some(answer.token);
        if access.Some? {
          header := access;
        }
        requests := requests[r := Resent(q.tried, header)];
      } else {
        access, refreshToken := None, false;
        requests := requests[r := Done(false, 1)];
      }
    }
  }
}
