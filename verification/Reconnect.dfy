/** One life of the reconnecting WebSocket effect: its variables, the sockets and timers it made, and
    the callbacks in any order (frontend/src/ws/useWebSocket.ts). */
module Reconnect {
  import opened Common

  /** `Closing` is after close() and before the close event. */
  datatype Socket = Connecting | Open | Closing | Closed

  datatype Timer = Armed(delay: real) | Fired | Cleared

  datatype State = State(
    started: bool, closedByEffect: bool, attempt: nat,
    socket: Option<nat>, sockets: seq<Socket>,
    reconnectTimer: Option<nat>, timers: seq<Timer>)

  const INIT := State(false, false, 0, None, [], None, [])

  /** `hasUrl`: whether getUrl returns one at that moment. `jitter` is `Math.random() * 500`. */
  datatype Event =
    | Start(hasUrl: bool)
    | TimerFires(t: nat, hasUrl: bool)
    | Opens(w: nat)
    | Errors(w: nat)
    | Closes(w: nat, code: nat, jitter: real)
    | Cleanup

  function Pow2(k: nat): nat {
    if k == 0 then 1 else 2 * Pow2(k - 1)
  }

  /** The delay before jitter, in milliseconds. */
  function Backoff(base: nat, k: nat): nat {
    if base * Pow2(k) < 30000 then base * Pow2(k) else 30000
  }

  function Base(code: nat): nat {
    if code == 4401 then 5000 else 1000
  }

  predicate Unfinished(s: State, w: nat) {
    w < |s.sockets| && s.sockets[w] != Closed
  }

  predicate IsArmed(s: State, t: nat) {
    t < |s.timers| && s.timers[t].Armed?
  }

  predicate Enabled(s: State, e: Event) {
    match e
    case Start(_) => !s.started
    case TimerFires(t, _) => IsArmed(s, t)
    case Opens(w) => w < |s.sockets| && s.sockets[w] == Connecting
    case Errors(w) => Unfinished(s, w)
    case Closes(w, _, jitter) => Unfinished(s, w) && 0.0 <= jitter < 500.0
    case Cleanup => s.started && !s.closedByEffect
  }

  function Arm(s: State, delay: real): State {
    s.(timers := s.timers + [Armed(delay)], reconnectTimer := Some(|s.timers|))
  }

  function Connect(s: State, hasUrl: bool): State {
    if hasUrl then s.(sockets := s.sockets + [Connecting], socket := Some(|s.sockets|)) else Arm(s, 1000.0)
  }

  /** close() on a socket, if there is one and it is not closed yet. */
  function CloseSocket(s: State, w: Option<nat>): State {
    if w.Some? && Unfinished(s, w.value) then s.(sockets := s.sockets[w.value := Closing]) else s
  }

  function ClearTimer(s: State, t: Option<nat>): State {
    if t.Some? && IsArmed(s, t.value) then s.(timers := s.timers[t.value := Cleared]) else s
  }

  function Apply(s: State, e: Event): State
    requires Enabled(s, e)
  {
    match e
    case Start(hasUrl) => Connect(s.(started := true), hasUrl)
    case TimerFires(t, hasUrl) => Connect(s.(timers := s.timers[t := Fired]), hasUrl)
    case Opens(w) => s.(sockets := s.sockets[w := Open], attempt := 0)
    case Errors(_) => CloseSocket(s, s.socket)
    case Closes(w, code, jitter) =>
      var s' := s.(sockets := s.sockets[w := Closed]);
      if s.closedByEffect then s'
      else Arm(s', Backoff(Base(code), s.attempt) as real + jitter).(attempt := s.attempt + 1)
    case Cleanup => CloseSocket(ClearTimer(s.(closedByEffect := true), s.reconnectTimer), s.socket)
  }

  ghost function Exec(run: seq<Event>): Option<State>
    decreases |run|
  {
    if run == [] then Some(INIT)
    else
      var before := Exec(run[..|run| - 1]);
      if before.Some? && Enabled(before.value, run[|run| - 1])
      then Some(Apply(before.value, run[|run| - 1])) else None
  }

  // ----- one connection attempt at a time -----

  predicate TimerPending(s: State) {
    s.reconnectTimer.Some? && IsArmed(s, s.reconnectTimer.value)
  }

  predicate SocketPending(s: State) {
    s.socket.Some? && Unfinished(s, s.socket.value)
  }

  predicate NoneOpen(s: State) {
    forall w :: 0 <= w < |s.sockets| ==> s.sockets[w] == Closing || s.sockets[w] == Closed
  }

  /** Only `reconnectTimer` can be armed and only `socket` unfinished; while the effect is live, one of
      the two is pending and the other is not; after cleanup a socket is closing at most. */
  ghost predicate OneThing(s: State) {
    && (forall t :: 0 <= t < |s.timers| && s.timers[t].Armed? ==> s.reconnectTimer == Some(t))
    && (forall w :: 0 <= w < |s.sockets| && s.sockets[w] != Closed ==> s.socket == Some(w))
    && (s.closedByEffect ==> s.started && !TimerPending(s) && NoneOpen(s))
    && (!s.started ==> s == INIT)
    && (s.started && !s.closedByEffect ==> (TimerPending(s) <==> !SocketPending(s)))
  }

  lemma ConnectKeepsOneThing(s: State, hasUrl: bool)
    requires s.started && !s.closedByEffect
    requires forall t :: 0 <= t < |s.timers| ==> !s.timers[t].Armed?
    requires forall w :: 0 <= w < |s.sockets| ==> s.sockets[w] == Closed
    ensures OneThing(Connect(s, hasUrl))
  {
  }

  lemma OneThingStep(s: State, e: Event)
    requires Enabled(s, e) && OneThing(s)
    ensures OneThing(Apply(s, e))
  {
    if e.Start? {
      ConnectKeepsOneThing(s.(started := true), e.hasUrl);
    } else if e.TimerFires? {
      ConnectKeepsOneThing(s.(timers := s.timers[e.t := Fired]), e.hasUrl);
    } else if e.Cleanup? {
      CleanupKeepsOneThing(s);
    }
  }

  lemma CleanupKeepsOneThing(s: State)
    requires OneThing(s) && Enabled(s, Cleanup)
    ensures OneThing(Apply(s, Cleanup))
  {
  }

  lemma {:induction false} OneThingHolds(run: seq<Event>)
    requires Exec(run).Some?
    ensures OneThing(Exec(run).value)
    decreases |run|
  {
    if run != [] {
      OneThingHolds(run[..|run| - 1]);
      OneThingStep(Exec(run[..|run| - 1]).value, run[|run| - 1]);
    }
  }

  ghost function ArmedTimers(s: State): set<int> {
    set t | 0 <= t < |s.timers| && s.timers[t].Armed?
  }

  ghost function UnfinishedSockets(s: State): set<int> {
    set w | 0 <= w < |s.sockets| && s.sockets[w] != Closed
  }

  /** While the effect is live there is exactly one thing under way: an armed timer or an unfinished
      socket. After cleanup no timer is armed, and at most the one socket being closed is unfinished. */
  lemma ExactlyOneUnderWay(run: seq<Event>, s: State)
    requires Exec(run) == Some(s) && s.started
    ensures !s.closedByEffect ==> |ArmedTimers(s)| + |UnfinishedSockets(s)| == 1
    ensures s.closedByEffect ==> ArmedTimers(s) == {} && |UnfinishedSockets(s)| <= 1
  {
    OneThingHolds(run);
    assert ArmedTimers(s) == if TimerPending(s) then {s.reconnectTimer.value} else {};
    assert UnfinishedSockets(s) == if SocketPending(s) then {s.socket.value} else {};
  }

  /** So while live the loop can always go on: the timer can fire, or the socket can close. */
  lemma NeverStuckWhileLive(run: seq<Event>, s: State, hasUrl: bool, code: nat)
    requires Exec(run) == Some(s) && s.started && !s.closedByEffect
    ensures
      (s.reconnectTimer.Some? && Enabled(s, TimerFires(s.reconnectTimer.value, hasUrl))) ||
      (s.socket.Some? && Enabled(s, Closes(s.socket.value, code, 0.0)))
  {
    OneThingHolds(run);
  }

  /** After cleanup no socket is ever created again, no timer is ever armed, and no open socket is left
      open. */
  lemma {:induction false} NothingNewAfterCleanup(run: seq<Event>, more: seq<Event>, s: State, s': State)
    requires Exec(run) == Some(s) && s.closedByEffect && Exec(run + more) == Some(s')
    ensures s'.closedByEffect && |s'.sockets| == |s.sockets| && |s'.timers| == |s.timers| && !TimerPending(s')
    ensures NoneOpen(s')
    decreases |more|
  {
    if more == [] {
      assert run + more == run;
      OneThingHolds(run);
    } else {
      var init := more[..|more| - 1];
      assert (run + more)[..|run + more| - 1] == run + init;
      NothingNewAfterCleanup(run, init, s, Exec(run + init).value);
      OneThingHolds(run + init);
    }
  }

  // ----- the delays -----

  /** Closes that led to a reconnect since the last open. */
  ghost function ClosesSinceOpen(run: seq<Event>): nat
    decreases |run|
  {
    if run == [] || run[|run| - 1].Opens? then 0
    else ClosesSinceOpen(run[..|run| - 1]) + if run[|run| - 1].Closes? then 1 else 0
  }

  lemma {:induction false} AttemptCountsCloses(run: seq<Event>, s: State)
    requires Exec(run) == Some(s) && !s.closedByEffect
    ensures s.attempt == ClosesSinceOpen(run)
    decreases |run|
  {
    if run != [] {
      AttemptCountsCloses(run[..|run| - 1], Exec(run[..|run| - 1]).value);
    }
  }

  /** A close while live arms a timer whose delay is determined, up to half a second of jitter, by the
      close code and the number k of closes since the last open. */
  lemma CloseDelayIsBounded(run: seq<Event>, s: State, w: nat, code: nat, jitter: real)
    requires Exec(run) == Some(s) && !s.closedByEffect && Enabled(s, Closes(w, code, jitter))
    ensures var s' := Apply(s, Closes(w, code, jitter));
      var raw := (if code == 4401 then 5000 else 1000) * Pow2(ClosesSinceOpen(run));
      var base := (if raw < 30000 then raw else 30000) as real;
      && TimerPending(s')
      && s'.timers[s'.reconnectTimer.value].delay == base + jitter
      && base <= s'.timers[s'.reconnectTimer.value].delay < base + 500.0
      && ClosesSinceOpen(run + [Closes(w, code, jitter)]) == ClosesSinceOpen(run) + 1
  {
    AttemptCountsCloses(run, s);
    assert (run + [Closes(w, code, jitter)])[..|run|] == run;
  }

  /** Without a URL the effect looks again after exactly one second, with its backoff as it was. */
  lemma NoUrlRetriesInOneSecond(run: seq<Event>, s: State, e: Event)
    requires Exec(run) == Some(s) && Enabled(s, e)
    requires (e.Start? || e.TimerFires?) && !e.hasUrl
    ensures var s' := Apply(s, e);
      && TimerPending(s') && s'.timers[s'.reconnectTimer.value].delay == 1000.0
      && s'.sockets == s.sockets
      && (!s.closedByEffect ==> s'.attempt == ClosesSinceOpen(run))
  {
    if !s.closedByEffect {
      AttemptCountsCloses(run, s);
    }
  }

  lemma {:induction false} Pow2Grows(j: nat, k: nat)
    requires j <= k
    ensures Pow2(j) <= Pow2(k)
    decreases k
  {
    if j < k {
      Pow2Grows(j, k - 1);
    }
  }

  lemma ScaleGrows(base: nat, x: nat, y: nat)
    requires x <= y
    ensures base * x <= base * y
  {
  }

  lemma PowersAround(k: nat)
    ensures if k >= 5 then Pow2(k) >= 32 else Pow2(k) <= 16
    ensures if k >= 3 then Pow2(k) >= 8 else Pow2(k) <= 4
  {
    assert Pow2(3) == 8 && Pow2(4) == 16 && Pow2(5) == 32;
    if k >= 5 {
      Pow2Grows(5, k);
    } else {
      Pow2Grows(k, 4);
    }
    if k >= 3 {
      Pow2Grows(3, k);
    } else {
      Pow2Grows(k, 2);
    }
  }

  /** The cap of 30 s is reached after five closes, or three when authentication was refused. */
  lemma BackoffSaturates(k: nat)
    ensures Backoff(1000, k) == 30000 <==> k >= 5
    ensures Backoff(5000, k) == 30000 <==> k >= 3
  {
    PowersAround(k);
  }

  /** The delay before jitter never shrinks as closes add up, and stays below its cap. */
  lemma BackoffGrows(base: nat, j: nat, k: nat)
    requires j <= k
    ensures Backoff(base, j) <= Backoff(base, k) <= 30000
  {
    Pow2Grows(j, k);
    ScaleGrows(base, Pow2(j), Pow2(k));
  }

  // ----- the effect -----

  class Effect {
    var started: bool
    var closedByEffect: bool
    var attempt: nat
    var socket: Option<nat>
    var sockets: seq<Socket>
    var reconnectTimer: Option<nat>
    var timers: seq<Timer>

    constructor ()
      ensures Valid() && View() == INIT
    {
      started, closedByEffect, attempt := false, false, 0;
      socket, sockets, reconnectTimer, timers := None, [], None, [];
    }

    ghost function View(): State
      reads this
    {
      State(started, closedByEffect, attempt, socket, sockets, reconnectTimer, timers)
    }

    /** Exactly one timer or socket is pending while live, and none but a closing socket afterwards. */
    ghost predicate Valid()
      reads this
    {
      OneThing(View())
    }

    method SetTimeout(delay: real)
      modifies this`timers, this`reconnectTimer
      ensures View() == Arm(old(View()), delay)
    {
      reconnectTimer := Some(|timers|);
      timers := timers + [Armed(delay)];
    }

    method ScheduleReconnect(base: nat, jitter: real)
      modifies this`timers, this`reconnectTimer, this`attempt
      ensures View() == Arm(old(View()), Backoff(base, old(attempt)) as real + jitter).(attempt := old(attempt) + 1)
    {
      var delay := Backoff(base, attempt) as real + jitter;
      attempt := attempt + 1;
      SetTimeout(delay);
    }

    method DoConnect(hasUrl: bool)
      modifies this`timers, this`reconnectTimer, this`sockets, this`socket
      ensures View() == Connect(old(View()), hasUrl)
    {
      if !hasUrl {
        SetTimeout(1000.0);
        return;
      }
      socket := Some(|sockets|);
      sockets := sockets + [Connecting];
    }

    /** The effect runs: one connection attempt, or a timer to look again. */
    method OnStart(hasUrl: bool)
      requires Valid() && Enabled(View(), Start(hasUrl))
      modifies this
      ensures Valid() && View() == Apply(old(View()), Start(hasUrl))
      ensures SocketPending(View()) == hasUrl && TimerPending(View()) == !hasUrl
    {
      OneThingStep(View(), Start(hasUrl));
      started := true;
      DoConnect(hasUrl);
    }

    /** A timer fires only while live, and only the last one set; no other socket is unfinished then. */
    method OnTimer(t: nat, hasUrl: bool)
      requires Valid() && Enabled(View(), TimerFires(t, hasUrl))
      modifies this
      ensures Valid() && View() == Apply(old(View()), TimerFires(t, hasUrl))
      ensures !closedByEffect && old(reconnectTimer) == Some(t) && !old(SocketPending(View()))
      ensures SocketPending(View()) == hasUrl && TimerPending(View()) == !hasUrl
    {
      OneThingStep(View(), TimerFires(t, hasUrl));
      timers := timers[t := Fired];
      DoConnect(hasUrl);
    }

    /** A socket opens only while live, and only the current one. */
    method OnOpen(w: nat)
      requires Valid() && Enabled(View(), Opens(w))
      modifies this
      ensures Valid() && View() == Apply(old(View()), Opens(w))
      ensures !closedByEffect && socket == Some(w) && !TimerPending(View())
    {
      OneThingStep(View(), Opens(w));
      sockets := sockets[w := Open];
      attempt := 0;
    }

    /** Only the current socket closes. While live this leaves exactly the reconnect timer, due within
        half a second of the backoff; after cleanup it leaves nothing. */
    method OnClose(w: nat, code: nat, jitter: real)
      requires Valid() && Enabled(View(), Closes(w, code, jitter))
      modifies this
      ensures Valid() && View() == Apply(old(View()), Closes(w, code, jitter))
      ensures old(socket) == Some(w) && !SocketPending(View())
      ensures TimerPending(View()) <==> !closedByEffect
      ensures TimerPending(View()) ==>
        var base := Backoff(if code == 4401 then 5000 else 1000, old(attempt)) as real;
        timers[reconnectTimer.value].delay == base + jitter && base <= base + jitter < base + 500.0
    {
      OneThingStep(View(), Closes(w, code, jitter));
      sockets := sockets[w := Closed];
      if closedByEffect {
        return;
      }
      ScheduleReconnect(if code == 4401 then 5000 else 1000, jitter);
    }

    /** `socket?.close()`. */
    method Close()
      modifies this`sockets
      ensures View() == CloseSocket(old(View()), socket)
    {
      if socket.Some? && socket.value < |sockets| && sockets[socket.value] != Closed {
        sockets := sockets[socket.value := Closing];
      }
    }

    /** An error closes the very socket it came from and nothing else: no timer is pending, and the
        reconnect is left to the close event. */
    method OnError(w: nat)
      requires Valid() && Enabled(View(), Errors(w))
      modifies this
      ensures Valid() && View() == Apply(old(View()), Errors(w))
      ensures socket == Some(w) && sockets[w] == Closing && !TimerPending(View())
      ensures forall v :: 0 <= v < |sockets| && v != w ==> sockets[v] == Closed
    {
      OneThingStep(View(), Errors(w));
      Close();
    }

    /** The effect's cleanup function: no timer is armed any more, and no socket stays open. */
    method OnCleanup()
      requires Valid() && Enabled(View(), Cleanup)
      modifies this
      ensures Valid() && View() == Apply(old(View()), Cleanup)
      ensures ArmedTimers(View()) == {} && NoneOpen(View())
    {
      OneThingStep(View(), Cleanup);
      closedByEffect := true;
      if reconnectTimer.Some? && reconnectTimer.value < |timers| && timers[reconnectTimer.value].Armed? {
        timers := timers[reconnectTimer.value := Cleared];
      }
      Close();
    }
  }
}
