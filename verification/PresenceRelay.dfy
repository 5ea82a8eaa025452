/** The order in which relayed events reach each socket, over every run: any interleaving, sockets
    on any instance, failing sends and dying handlers included. */
module PresenceRelay {
  import opened Common
  import opened PresenceProtocol

  ghost function Position(c: Handler): nat {
    c.start + |c.before| + |c.after|
  }

  predicate BeforeSnapshot(pc: Pc) {
    match pc
    case Registered => true
    case Incremented(_) => true
    case Listed(_, _) => true
    case Died(at) => BeforeSnapshot(at)
    case _ => false
  }

  ghost predicate SocketInOrder(s: State, c: Handler) {
    && c.instance in s.relays
    && Position(c) <= |s.channel|
    && c.before == s.channel[c.start..c.start + |c.before|]
    && c.after == s.channel[c.start + |c.before|..Position(c)]
    && (c.snapshot == None <==> BeforeSnapshot(c.pc))
    && (c.snapshot == None ==> c.after == [])
    && (c.joinedAt.Some? ==>
          c.snapshot.Some? && c.start + |c.before| <= c.joinedAt.value < |s.channel| &&
          s.channel[c.joinedAt.value] == Joined(c.user))
  }

  ghost predicate RelayConsistent(s: State, i: InstanceId, r: Relay) {
    && r.cursor <= |s.channel|
    && (r.sending ==> r.cursor < |s.channel|)
    && (!r.sending ==> r.targets == {} && r.dead == {})
    && r.targets !! r.dead
    && (forall h :: h in r.targets ==>
          h in s.handlers && s.handlers[h].instance == i && Position(s.handlers[h]) == r.cursor)
    && (forall h :: h in r.dead ==> h in s.handlers && s.handlers[h].instance == i)
  }

  /** Where the next event for a socket in the table comes from. */
  ghost predicate CaughtUp(s: State, h: HandlerId) {
    h in s.handlers && s.handlers[h].instance in s.relays &&
    var c := s.handlers[h];
    var r := s.relays[c.instance];
    h in r.targets || h in r.dead || Position(c) == if r.sending then r.cursor + 1 else r.cursor
  }

  ghost predicate RelayInv(s: State) {
    && (forall h :: h in s.handlers ==> SocketInOrder(s, s.handlers[h]))
    && (forall i :: i in s.relays ==> RelayConsistent(s, i, s.relays[i]))
    && (forall h :: h in s.table ==> CaughtUp(s, h))
  }

  /** A longer channel and more instances change nothing for a socket. */
  lemma SocketInOrderFrame(s: State, s': State, c: Handler)
    requires SocketInOrder(s, c) && s.channel <= s'.channel && s.relays.Keys <= s'.relays.Keys
    ensures SocketInOrder(s', c)
  {
    assert s'.channel[c.start..c.start + |c.before|] == s.channel[c.start..c.start + |c.before|];
    assert s'.channel[c.start + |c.before|..Position(c)] == s.channel[c.start + |c.before|..Position(c)];
  }

  /** Taking the channel entry a socket is due next keeps it in order. */
  lemma ReceiveInOrder(s: State, c: Handler)
    requires SocketInOrder(s, c) && Position(c) < |s.channel|
    ensures SocketInOrder(s, Receive(c, s.channel[Position(c)]))
    ensures Position(Receive(c, s.channel[Position(c)])) == Position(c) + 1
  {
  }

  /** No step moves a socket between instances or changes its place in the channel, except a
      successful send, which moves that one socket on by one. */
  lemma PositionsStep(s: State, a: Action, h: HandlerId)
    requires Enabled(s, a) && h in s.handlers
    ensures var s' := Apply(s, a);
      h in s'.handlers && s'.handlers[h].instance == s.handlers[h].instance &&
      Position(s'.handlers[h]) == Position(s.handlers[h]) + if a.SendTo? && a.h == h then 1 else 0
  {
  }

  lemma OwnStepInOrder(s: State, s': State, c: Handler, step: Step)
    requires StepEnabled(s, c.pc, step) && SocketInOrder(s, c)
    requires s'.relays == s.relays && s'.channel == s.channel + Published(c, step)
    ensures SocketInOrder(s', NextHandler(s, c, step))
  {
    SocketInOrderFrame(s, s', c);
  }

  lemma SocketInOrderStep(s: State, a: Action, h: HandlerId)
    requires Enabled(s, a) && RelayInv(s)
    requires h in Apply(s, a).handlers
    ensures SocketInOrder(Apply(s, a), Apply(s, a).handlers[h])
  {
    var s' := Apply(s, a);
    if a.Connect? && a.h == h {
      assert RelayConsistent(s, a.i, s.relays[a.i]);
    } else if a.Run? && a.h == h {
      OwnStepInOrder(s, s', s.handlers[h], a.step);
    } else if a.SendTo? && a.h == h {
      assert RelayConsistent(s, a.i, s.relays[a.i]);
      ReceiveInOrder(s, s.handlers[h]);
      SocketInOrderFrame(s, s', s'.handlers[h]);
    } else {
      assert s'.handlers[h] == s.handlers[h];
      SocketInOrderFrame(s, s', s.handlers[h]);
    }
  }

  /** Taking up an entry: every socket of the table is due it. */
  lemma BeginRelayConsistent(s: State, i: InstanceId)
    requires Enabled(s, BeginRelay(i)) && RelayInv(s)
    ensures RelayConsistent(Apply(s, BeginRelay(i)), i, Apply(s, BeginRelay(i)).relays[i])
  {
    assert RelayConsistent(s, i, s.relays[i]);
    forall h | h in LocalSockets(s, i) ensures Position(s.handlers[h]) == s.relays[i].cursor {
      assert CaughtUp(s, h);
    }
  }

  lemma RelayConsistentStep(s: State, a: Action, i: InstanceId)
    requires Enabled(s, a) && RelayInv(s)
    requires i in Apply(s, a).relays
    ensures RelayConsistent(Apply(s, a), i, Apply(s, a).relays[i])
  {
    if a.BeginRelay? && a.i == i {
      BeginRelayConsistent(s, i);
    } else if i in s.relays {
      assert RelayConsistent(s, i, s.relays[i]);
      assert a.SendTo? ==> RelayConsistent(s, a.i, s.relays[a.i]);
      RelayStaysConsistent(s, a, i);
    }
  }

  lemma RelayStaysConsistent(s: State, a: Action, i: InstanceId)
    requires Enabled(s, a) && !(a.BeginRelay? && a.i == i)
    requires i in s.relays && RelayConsistent(s, i, s.relays[i])
    requires a.SendTo? ==> RelayConsistent(s, a.i, s.relays[a.i])
    ensures RelayConsistent(Apply(s, a), i, Apply(s, a).relays[i])
  {
    var s', r := Apply(s, a), s.relays[i];
    forall h | h in r.targets + r.dead
      ensures h in s'.handlers && s'.handlers[h].instance == i
      ensures h in r.targets && !(a.SendTo? && a.h == h) ==> Position(s'.handlers[h]) == r.cursor
    {
      PositionsStep(s, a, h);
    }
  }

  lemma CaughtUpStep(s: State, a: Action, h: HandlerId)
    requires Enabled(s, a) && RelayInv(s)
    requires h in Apply(s, a).table
    ensures CaughtUp(Apply(s, a), h)
  {
    if !(a.Connect? && a.h == h) {
      assert h in s.table && CaughtUp(s, h);
      var i := s.handlers[h].instance;
      assert RelayConsistent(s, i, s.relays[i]);
      PositionsStep(s, a, h);
      if a.SendTo? && a.h == h {
        assert RelayConsistent(s, a.i, s.relays[a.i]);
      }
    }
  }

  lemma {:induction false} RelayInvHolds(run: seq<Action>)
    requires Exec(run).Some?
    ensures RelayInv(Exec(run).value)
    decreases |run|
  {
    if run != [] {
      LastStep(run);
      RelayInvHolds(run[..|run| - 1]);
      var s, a := Exec(run[..|run| - 1]).value, run[|run| - 1];
      forall h | h in Apply(s, a).handlers ensures SocketInOrder(Apply(s, a), Apply(s, a).handlers[h]) {
        SocketInOrderStep(s, a, h);
      }
      forall i | i in Apply(s, a).relays ensures RelayConsistent(Apply(s, a), i, Apply(s, a).relays[i]) {
        RelayConsistentStep(s, a, i);
      }
      forall h | h in Apply(s, a).table ensures CaughtUp(Apply(s, a), h) {
        CaughtUpStep(s, a, h);
      }
    }
  }

  /** The relayed events a socket got are a contiguous run of the channel in publish order: no gap,
      no duplicate, no reordering. A socket still in the table, with its instance idle, has got
      every event up to the instance's cursor. */
  lemma RelayedEventsAreContiguous(run: seq<Action>, h: HandlerId)
    requires Exec(run).Some? && h in Exec(run).value.handlers
    ensures var s := Exec(run).value;
      var c := s.handlers[h];
      && Position(c) <= |s.channel|
      && c.before + c.after == s.channel[c.start..Position(c)]
      && c.instance in s.relays
      && (h in s.table && !s.relays[c.instance].sending ==> Position(c) == s.relays[c.instance].cursor)
  {
    RelayInvHolds(run);
    StretchOfChannel(Exec(run).value, h);
  }

  lemma SlicesJoin(channel: seq<Event>, from: nat, middle: nat, end: nat)
    requires from <= middle <= end <= |channel|
    ensures channel[from..middle] + channel[middle..end] == channel[from..end]
  {
  }

  lemma StretchOfChannel(s: State, h: HandlerId)
    requires RelayInv(s) && h in s.handlers
    ensures var c := s.handlers[h];
      && Position(c) <= |s.channel|
      && c.before + c.after == s.channel[c.start..Position(c)]
      && c.instance in s.relays
      && (h in s.table && !s.relays[c.instance].sending ==> Position(c) == s.relays[c.instance].cursor)
  {
    var c := s.handlers[h];
    assert SocketInOrder(s, c);
    SlicesJoin(s.channel, c.start, c.start + |c.before|, Position(c));
    assert RelayConsistent(s, c.instance, s.relays[c.instance]);
    assert h in s.table ==> CaughtUp(s, h);
  }

  /** A handler's own JOINED never reaches its socket before its snapshot: it is not among the
      events relayed earlier, wherever in the channel it went. */
  lemma OwnJoinedComesAfterSnapshot(run: seq<Action>, h: HandlerId)
    requires Exec(run).Some? && h in Exec(run).value.handlers
    ensures var s := Exec(run).value;
      var c := s.handlers[h];
      c.joinedAt.Some? ==>
        && c.snapshot.Some?
        && c.joinedAt.value < |s.channel| && s.channel[c.joinedAt.value] == Joined(c.user)
        && c.start + |c.before| <= c.joinedAt.value
        && (c.joinedAt.value < Position(c) ==>
              c.after[c.joinedAt.value - c.start - |c.before|] == Joined(c.user))
  {
    RelayInvHolds(run);
    assert SocketInOrder(Exec(run).value, Exec(run).value.handlers[h]);
  }

  // ----- who is in the table -----

  /** A send to `h` failed in the relay that instance `i` is in the middle of. */
  ghost predicate FailedInRelay(run: seq<Action>, i: InstanceId, h: HandlerId)
    decreases |run|
  {
    run != [] &&
    var init, a := run[..|run| - 1], run[|run| - 1];
    if a == BeginRelay(i) || a == EndRelay(i) then false
    else a == SendFails(i, h) || FailedInRelay(init, i, h)
  }

  /** Some relay has ended in which a send to `h` failed. */
  ghost predicate DroppedByRelay(run: seq<Action>, h: HandlerId)
    decreases |run|
  {
    run != [] &&
    var init, a := run[..|run| - 1], run[|run| - 1];
    DroppedByRelay(init, h) || (a.EndRelay? && FailedInRelay(init, a.i, h))
  }

  ghost predicate HasConnected(run: seq<Action>, h: HandlerId) {
    exists k :: 0 <= k < |run| && run[k].Connect? && run[k].h == h
  }

  ghost predicate HasDisconnected(run: seq<Action>, h: HandlerId) {
    exists k :: 0 <= k < |run| && run[k] == Run(h, Disconnect)
  }

  lemma EverAppend(run: seq<Action>, h: HandlerId)
    requires run != []
    ensures var init, a := run[..|run| - 1], run[|run| - 1];
      && (HasConnected(run, h) <==> HasConnected(init, h) || (a.Connect? && a.h == h))
      && (HasDisconnected(run, h) <==> HasDisconnected(init, h) || a == Run(h, Disconnect))
  {
    var init, a := run[..|run| - 1], run[|run| - 1];
    assert run == init + [a];
    if HasConnected(init, h) {
      var k :| 0 <= k < |init| && init[k].Connect? && init[k].h == h;
      assert run[k].Connect? && run[k].h == h;
    }
    if HasDisconnected(init, h) {
      var k :| 0 <= k < |init| && init[k] == Run(h, Disconnect);
      assert run[k] == Run(h, Disconnect);
    }
    assert run[|run| - 1] == a;
  }

  /** An instance's failed sockets are those whose send failed in its current relay. */
  ghost predicate DeadAreFailed(s: State, i: InstanceId, h: HandlerId, failed: bool) {
    if i in s.relays then h in s.relays[i].dead <==> failed else !failed
  }

  lemma DeadAreFailedStep(s: State, a: Action, i: InstanceId, h: HandlerId, failed: bool)
    requires Enabled(s, a) && RelayInv(s) && DeadAreFailed(s, i, h, failed)
    ensures DeadAreFailed(Apply(s, a), i, h,
                          !(a == BeginRelay(i) || a == EndRelay(i)) && (a == SendFails(i, h) || failed))
  {
    if i in s.relays {
      assert RelayConsistent(s, i, s.relays[i]);
    }
  }

  lemma {:induction false} DeadAreFailedHolds(run: seq<Action>, i: InstanceId, h: HandlerId)
    requires Exec(run).Some?
    ensures DeadAreFailed(Exec(run).value, i, h, FailedInRelay(run, i, h))
    decreases |run|
  {
    if run != [] {
      LastStep(run);
      var init := run[..|run| - 1];
      RelayInvHolds(init);
      DeadAreFailedHolds(init, i, h);
      DeadAreFailedStep(Exec(init).value, run[|run| - 1], i, h, FailedInRelay(init, i, h));
    }
  }

  lemma TableStep(s: State, a: Action, h: HandlerId)
    requires Enabled(s, a)
    ensures h in Apply(s, a).table <==>
      (a.Connect? && a.h == h) ||
      (h in s.table && a != Run(h, Disconnect) && !(a.EndRelay? && h in s.relays[a.i].dead))
    ensures h in Apply(s, a).handlers <==> h in s.handlers || (a.Connect? && a.h == h)
  {
  }

  /** Who is in the table, over every run: exactly the sockets that connected, whose handlers have not
      unregistered, and to which no relay that has ended failed to send. */
  lemma {:induction false} InTableIff(run: seq<Action>, h: HandlerId)
    requires Exec(run).Some?
    ensures h in Exec(run).value.handlers <==> HasConnected(run, h)
    ensures h in Exec(run).value.table <==>
      HasConnected(run, h) && !HasDisconnected(run, h) && !DroppedByRelay(run, h)
    ensures HasDisconnected(run, h) || DroppedByRelay(run, h) ==> HasConnected(run, h)
    decreases |run|
  {
    if run != [] {
      LastStep(run);
      var init, a := run[..|run| - 1], run[|run| - 1];
      var s := Exec(init).value;
      InTableIff(init, h);
      EverAppend(run, h);
      TableStep(s, a, h);
      if a.EndRelay? {
        DeadAreFailedHolds(init, a.i, h);
        RelayInvHolds(init);
        assert RelayConsistent(s, a.i, s.relays[a.i]);
      }
    }
  }

  // ----- what the channel holds -----

  /** The events the task, comment and attachment services published, in order. */
  ghost function OthersPublished(run: seq<Action>): seq<Event>
    decreases |run|
  {
    if run == [] then []
    else
      var a := run[|run| - 1];
      OthersPublished(run[..|run| - 1]) + if a.PublishOther? then [Other(a.tag)] else []
  }

  ghost function OthersOf(es: seq<Event>): seq<Event>
    decreases |es|
  {
    if es == [] then []
    else OthersOf(es[..|es| - 1]) + if es[|es| - 1].Other? then [es[|es| - 1]] else []
  }

  lemma OthersAppend(es: seq<Event>, more: seq<Event>)
    requires |more| <= 1
    ensures OthersOf(es + more) == OthersOf(es) + (if more != [] && more[0].Other? then more else [])
  {
    if more == [] {
      assert es + more == es;
    } else {
      assert (es + more)[..|es|] == es && more == [more[0]];
    }
  }

  lemma OthersStep(s: State, a: Action)
    requires Enabled(s, a)
    ensures OthersOf(Apply(s, a).channel) ==
      OthersOf(s.channel) + if a.PublishOther? then [Other(a.tag)] else []
  {
    if a.Run? {
      OthersAppend(s.channel, Published(s.handlers[a.h], a.step));
    } else if a.PublishOther? {
      OthersAppend(s.channel, [Other(a.tag)]);
    }
  }

  /** No event of theirs is lost, repeated or reordered on the channel. */
  lemma {:induction false} ChannelCarriesOthers(run: seq<Action>)
    requires Exec(run).Some?
    ensures OthersOf(Exec(run).value.channel) == OthersPublished(run)
    decreases |run|
  {
    if run != [] {
      LastStep(run);
      ChannelCarriesOthers(run[..|run| - 1]);
      OthersStep(Exec(run[..|run| - 1]).value, run[|run| - 1]);
    }
  }

  /** The channel's length when the instance subscribed. */
  ghost function SubscribedAt(run: seq<Action>, i: InstanceId): nat
    requires Exec(run).Some?
    decreases |run|
  {
    if run == [] then 0
    else if run[|run| - 1] == StartInstance(i) then |Exec(run[..|run| - 1]).value.channel|
    else SubscribedAt(run[..|run| - 1], i)
  }

  /** No socket is sent anything from before its instance subscribed. */
  lemma {:induction false} NothingFromBeforeSubscription(run: seq<Action>, i: InstanceId, h: HandlerId)
    requires Exec(run).Some?
    ensures i in Exec(run).value.relays ==> SubscribedAt(run, i) <= Exec(run).value.relays[i].cursor
    ensures h in Exec(run).value.handlers && Exec(run).value.handlers[h].instance == i ==>
      i in Exec(run).value.relays && SubscribedAt(run, i) <= Exec(run).value.handlers[h].start
    decreases |run|
  {
    if run != [] {
      LastStep(run);
      NothingFromBeforeSubscription(run[..|run| - 1], i, h);
    }
  }
}
