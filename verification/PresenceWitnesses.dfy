/** Short runs that show why each premise of the convergence theorem is there: the code does allow
    them, and in each a quiet system disagrees with its open connections. */
module PresenceWitnesses {
  import opened Common
  import opened PresenceHash
  import opened PresenceProtocol
  import opened PresenceClient
  import opened PresenceConvergence

  /** No await of any handler raised outside its `try`. */
  ghost predicate NoDeaths(run: seq<Action>) {
    forall k :: 0 <= k < |run| ==> !(run[k].Run? && IsDeath(run[k].step))
  }

  ghost predicate EverybodyAtRest(s: State) {
    forall u :: AtRest(s, u)
  }

  /** Some run without deaths leads here. */
  ghost predicate Reached(s: State) {
    exists run :: Exec(run) == Some(s) && NoDeaths(run)
  }

  lemma Then(s: State, a: Action) returns (s': State)
    requires Reached(s) && Enabled(s, a) && !(a.Run? && IsDeath(a.step))
    ensures s' == Apply(s, a) && Reached(s')
  {
    var run :| Exec(run) == Some(s) && NoDeaths(run);
    ExtendRun(run, a);
    s' := Apply(s, a);
    assert NoDeaths(run + [a]);
  }

  lemma Begin() returns (s: State)
    ensures s == INIT && Reached(s)
  {
    s := INIT;
    assert Exec([]) == Some(s) && NoDeaths([]);
  }

  lemma Arrive(s: State, h: HandlerId, u: UserId, i: InstanceId) returns (s': State)
    requires Reached(s) && h !in s.handlers && i in s.relays && !s.relays[i].sending
    ensures Reached(s')
    ensures s' == s.(table := s.table + {h}, handlers := s.handlers[h :=
      Handler(u, i, Registered, [], None, [], s.relays[i].cursor, 0, None)])
  {
    s' := Then(s, Connect(h, u, i));
  }

  lemma CountUp(s: State, h: HandlerId) returns (s': State)
    requires Reached(s) && h in s.handlers && s.handlers[h].pc.Registered? && Stored(s.hash, s.handlers[h].user) == 0
    ensures Reached(s')
    ensures s' == s.(hash := s.hash[s.handlers[h].user := 1],
                     handlers := s.handlers[h := s.handlers[h].(pc := Incremented(1))])
  {
    s' := Then(s, Run(h, CountIn));
  }

  /** A handler connects to an idle instance and takes its user's count to 1. */
  lemma StartJoining(s: State, h: HandlerId, u: UserId, i: InstanceId)
    returns (s': State)
    requires Reached(s) && h !in s.handlers && Stored(s.hash, u) == 0
    requires i in s.relays && !s.relays[i].sending
    ensures Reached(s')
    ensures s' == s.(hash := s.hash[u := 1], table := s.table + {h}, handlers := s.handlers[h :=
      Handler(u, i, Incremented(1), [], None, [], s.relays[i].cursor, 0, None)])
  {
    s' := Arrive(s, h, u, i);
    s' := CountUp(s', h);
  }

  /** From its HINCRBY on, the handler finishes its join section with nothing in between. */
  lemma FinishJoining(s: State, h: HandlerId, ids: seq<UserId>)
    returns (s': State)
    requires Reached(s)
    requires h in s.handlers && s.handlers[h].pc == Incremented(1)
    requires Distinct(ids) && Elements(ids) == s.hash.Keys
    ensures Reached(s')
    ensures s' == s.(channel := s.channel + [Joined(s.handlers[h].user)], handlers := s.handlers[h :=
      s.handlers[h].(pc := Serving, snapshot := Some(ids), listedAt := |s.channel|, joinedAt := Some(|s.channel|))])
  {
    s' := Then(s, Run(h, ListKeys(ids)));
    s' := Then(s', Run(h, SendSnapshot));
    s' := Then(s', Run(h, AnnounceJoin));
  }

  /** The only tab of its user closes and takes the count to 0; the HDEL is still to come. */
  lemma StartLeaving(s: State, h: HandlerId) returns (s': State)
    requires Reached(s)
    requires h in s.handlers && s.handlers[h].pc == Serving && Stored(s.hash, s.handlers[h].user) == 1
    ensures Reached(s')
    ensures s' == s.(hash := s.hash[s.handlers[h].user := 0], table := s.table - {h},
                     handlers := s.handlers[h := s.handlers[h].(pc := Decremented(0))])
  {
    s' := Then(s, Run(h, Disconnect));
    s' := Then(s', Run(h, CountOut));
  }

  /** An instance relays the next channel entry to its one socket. */
  lemma RelayNext(s: State, i: InstanceId, h: HandlerId)
    returns (s': State)
    requires Reached(s)
    requires i in s.relays && s.relays[i] == Relay(s.relays[i].cursor, false, {}, {})
    requires LocalSockets(s, i) == {h} && s.relays[i].cursor < |s.channel|
    ensures Reached(s')
    ensures s' == s.(relays := s.relays[i := Relay(s.relays[i].cursor + 1, false, {}, {})],
                     handlers := s.handlers[h := Receive(s.handlers[h], s.channel[s.relays[i].cursor])])
  {
    assert h in LocalSockets(s, i);
    s' := Then(s, BeginRelay(i));
    s' := Then(s', SendTo(i, h));
    assert s'.relays[i].targets == {};
    s' := Then(s', EndRelay(i));
    assert s'.table == s.table;
  }

  /** The first connection of all, from start to the end of its join section. */
  lemma JoinFirst(h: HandlerId, u: UserId) returns (s: State)
    ensures Reached(s)
    ensures s == State(map[u := 1], [Joined(u)], map[0 := Relay(0, false, {}, {})],
                       map[h := Handler(u, 0, Serving, [], Some([u]), [], 0, 0, Some(0))], {h})
  {
    s := Begin();
    s := Then(s, StartInstance(0));
    s := StartJoining(s, h, u, 0);
    assert Elements([u]) == s.hash.Keys;
    s := FinishJoining(s, h, [u]);
  }

  /** A second tab joins between the first one's HINCRBY -1 and its HDEL. */
  lemma JoinBeforeHdel() returns (s: State)
    ensures Reached(s)
    ensures s.hash == map[] && s.relays.Keys == {0} && s.handlers.Keys == {0, 1}
    ensures s.handlers[0].pc == Deleted
    ensures s.handlers[1].pc == Incremented(1) && s.handlers[1].user == UserId(7)
  {
    s := JoinFirst(0, UserId(7));
    s := StartLeaving(s, 0);
    s := StartJoining(s, 1, UserId(7), 0);
    s := Then(s, Run(0, DeleteKey));
  }

  /** A join that falls between another tab's HINCRBY -1 and its HDEL is erased: the user is online,
      no handler is mid-section, and Redis does not list the user. PROGRESS.md names the race but
      expects the opposite, a stale zero entry. */
  lemma HdelErasesLiveUser() returns (s: State)
    ensures Reached(s) && EverybodyAtRest(s)
    ensures Connected(s, UserId(7)) && UserId(7) !in s.hash
  {
    s := JoinBeforeHdel();
    assert Elements<UserId>([]) == s.hash.Keys;
    s := FinishJoining(s, 1, []);
    s := Then(s, Run(0, AnnounceLeft));
    assert s.handlers[1].pc == Serving && s.handlers[1].user == UserId(7);
  }

  /** A tab has closed and deleted the key; its LEFT is still to come. */
  lemma LeftStillOwed() returns (s: State)
    ensures Reached(s)
    ensures s.hash == map[] && s.table == {} && s.relays == map[0 := Relay(1, false, {}, {})]
    ensures s.channel == [Joined(UserId(7))] && s.handlers.Keys == {0}
    ensures s.handlers[0].pc == Deleted && s.handlers[0].user == UserId(7)
  {
    s := JoinFirst(0, UserId(7));
    assert LocalSockets(s, 0) == {0};
    s := RelayNext(s, 0, 0);
    s := StartLeaving(s, 0);
    s := Then(s, Run(0, DeleteKey));
  }

  /** A second tab opens and announces itself before the first publishes that LEFT. */
  lemma LeftAfterJoinedPublished() returns (s: State)
    ensures Reached(s)
    ensures s.hash == map[UserId(7) := 1] && s.table == {1} && s.relays == map[0 := Relay(1, false, {}, {})]
    ensures s.channel == [Joined(UserId(7)), Joined(UserId(7)), Left(UserId(7))]
    ensures s.handlers.Keys == {0, 1} && s.handlers[0].pc == Done
    ensures s.handlers[1] == Handler(UserId(7), 0, Serving, [], Some([UserId(7)]), [], 1, 1, Some(1))
  {
    s := LeftStillOwed();
    s := StartJoining(s, 1, UserId(7), 0);
    assert Elements([UserId(7)]) == s.hash.Keys;
    s := FinishJoining(s, 1, [UserId(7)]);
    s := Then(s, Run(0, AnnounceLeft));
  }

  /** A LEFT published after a newer JOINED of the same user: with every message relayed and Redis
      listing the user, the user's own page does not. */
  lemma LeftOvertakesJoined() returns (s: State)
    ensures Reached(s) && EverybodyAtRest(s) && Served(s, 1)
    ensures NothingOverwritten(s.handlers[1])
    ensures Connected(s, UserId(7)) && UserId(7) in s.hash && UserId(7) !in View(s.handlers[1])
  {
    s := LeftAfterJoinedPublished();
    assert LocalSockets(s, 0) == {1};
    s := RelayNext(s, 0, 1);
    assert LocalSockets(s, 0) == {1};
    s := RelayNext(s, 0, 1);
    var c := s.handlers[1];
    assert c.after == [Joined(UserId(7)), Left(UserId(7))];
    ViewAfterSnapshot(c, UserId(7));
    assert c.pc == Serving && c.user == UserId(7);
  }

  /** User 1's handler has read the keys and not yet sent its snapshot. */
  lemma HandshakeHalfway() returns (s: State)
    ensures Reached(s)
    ensures s == State(map[UserId(1) := 1], [], map[0 := Relay(0, false, {}, {}), 1 := Relay(0, false, {}, {})],
                       map[0 := Handler(UserId(1), 0, Listed(1, [UserId(1)]), [], None, [], 0, 0, None)], {0})
  {
    s := Begin();
    s := Then(s, StartInstance(0));
    s := Then(s, StartInstance(1));
    s := StartJoining(s, 0, UserId(1), 0);
    assert Elements([UserId(1)]) == s.hash.Keys;
    s := Then(s, Run(0, ListKeys([UserId(1)])));
  }

  /** Then user 2 joins on the other instance. */
  lemma JoinedDuringHandshake() returns (s: State)
    ensures Reached(s)
    ensures s == State(map[UserId(1) := 1, UserId(2) := 1], [Joined(UserId(2))],
      map[0 := Relay(0, false, {}, {}), 1 := Relay(0, false, {}, {})],
      map[0 := Handler(UserId(1), 0, Listed(1, [UserId(1)]), [], None, [], 0, 0, None),
          1 := Handler(UserId(2), 1, Serving, [], Some([UserId(1), UserId(2)]), [], 0, 0, Some(0))], {0, 1})
  {
    s := HandshakeHalfway();
    s := StartJoining(s, 1, UserId(2), 1);
    assert Elements([UserId(1), UserId(2)]) == s.hash.Keys;
    s := FinishJoining(s, 1, [UserId(1), UserId(2)]);
  }

  /** Its JOINED reaches user 1's socket before the snapshot does. */
  lemma DeltaBeforeSnapshot() returns (s: State)
    ensures Reached(s)
    ensures s.hash.Keys == {UserId(1), UserId(2)} && s.channel == [Joined(UserId(2))] && s.table == {0, 1}
    ensures s.relays == map[0 := Relay(1, false, {}, {}), 1 := Relay(0, false, {}, {})]
    ensures s.handlers.Keys == {0, 1} && s.handlers[1].user == UserId(2)
    ensures s.handlers[1].instance == 1 && s.handlers[1].pc == Serving
    ensures s.handlers[0] ==
      Handler(UserId(1), 0, SnapshotSent(1), [Joined(UserId(2))], Some([UserId(1)]), [], 0, 0, None)
  {
    s := JoinedDuringHandshake();
    assert LocalSockets(s, 0) == {0};
    s := RelayNext(s, 0, 0);
    assert s.handlers[0].before == [Joined(UserId(2))];
    s := Then(s, Run(0, SendSnapshot));
  }

  /** Then user 1's handler finishes its join section and gets its own JOINED. */
  lemma SnapshotAfterDelta() returns (s: State)
    ensures Reached(s)
    ensures s.hash.Keys == {UserId(1), UserId(2)} && s.table == {0, 1}
    ensures s.channel == [Joined(UserId(2)), Joined(UserId(1))]
    ensures s.relays == map[0 := Relay(2, false, {}, {}), 1 := Relay(0, false, {}, {})]
    ensures s.handlers.Keys == {0, 1} && s.handlers[1].user == UserId(2)
    ensures s.handlers[1].instance == 1 && s.handlers[1].pc == Serving
    ensures s.handlers[0] ==
      Handler(UserId(1), 0, Serving, [Joined(UserId(2))], Some([UserId(1)]), [Joined(UserId(1))], 0, 0, Some(1))
  {
    s := DeltaBeforeSnapshot();
    s := Then(s, Run(0, AnnounceJoin));
    assert LocalSockets(s, 0) == {0} && s.channel == [Joined(UserId(2)), Joined(UserId(1))];
    s := RelayNext(s, 0, 0);
    assert s.handlers[0].after == [Joined(UserId(1))];
  }

  /** The other instance catches up as well. */
  lemma EverythingRelayed() returns (s: State)
    ensures Reached(s) && s.relays.Keys == {0, 1} && s.channel == [Joined(UserId(2)), Joined(UserId(1))]
    ensures s.relays[0] == Relay(2, false, {}, {})
    ensures s.hash.Keys == {UserId(1), UserId(2)} && s.table == {0, 1} && s.handlers.Keys == {0, 1}
    ensures s.handlers[0] ==
      Handler(UserId(1), 0, Serving, [Joined(UserId(2))], Some([UserId(1)]), [Joined(UserId(1))], 0, 0, Some(1))
    ensures s.handlers[1].user == UserId(2) && s.handlers[1].pc == Serving
  {
    s := SnapshotAfterDelta();
    assert LocalSockets(s, 1) == {1};
    s := RelayNext(s, 1, 1);
    assert LocalSockets(s, 1) == {1};
    s := RelayNext(s, 1, 1);
  }

  /** A JOINED relayed between a client's HKEYS and its snapshot is overwritten by the snapshot: Redis
      and the connections agree, everything is relayed, and the page misses a connected user. */
  lemma SnapshotOverwritesDelta() returns (s: State)
    ensures Reached(s) && EverybodyAtRest(s) && Served(s, 0)
    ensures forall u :: u in s.hash <==> Connected(s, u)
    ensures Connected(s, UserId(2)) && UserId(2) !in View(s.handlers[0])
  {
    s := EverythingRelayed();
    ViewAfterSnapshot(s.handlers[0], UserId(2));
    assert s.handlers[0].user == UserId(1) && s.handlers[1].user == UserId(2);
  }

  /** An exception between HINCRBY and the `try` leaves the user listed with no connection left. */
  lemma DeathLeavesUserListed() returns (run: seq<Action>, s: State)
    ensures Exec(run) == Some(s) && (forall h :: h in s.handlers ==> s.handlers[h].pc.Died?)
    ensures UserId(7) in s.hash && !Connected(s, UserId(7))
  {
    s := Begin();
    s := Then(s, StartInstance(0));
    s := StartJoining(s, 0, UserId(7), 0);
    var before :| Exec(before) == Some(s);
    ExtendRun(before, Run(0, Die));
    run, s := before + [Run(0, Die)], Apply(s, Run(0, Die));
  }

  /** An exception at the HDEL itself leaves a zero entry for good: the user has no connection, no
      handler can take another step, and the key stays. */
  lemma DeathLeavesZeroEntry() returns (run: seq<Action>, s: State)
    ensures Exec(run) == Some(s)
    ensures forall h, step :: h in s.handlers ==> !StepEnabled(s, s.handlers[h].pc, step)
    ensures s.hash == map[UserId(7) := 0] && !Connected(s, UserId(7))
  {
    s := JoinFirst(0, UserId(7));
    s := StartLeaving(s, 0);
    var before :| Exec(before) == Some(s);
    ExtendRun(before, Run(0, Die));
    run, s := before + [Run(0, Die)], Apply(s, Run(0, Die));
  }
}
