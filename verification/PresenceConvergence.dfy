/** When the page's online list, the Redis keys and the open connections agree. Everything here is
    about one user at a time: no premise speaks of anybody else's handlers. */
module PresenceConvergence {
  import opened Common
  import opened PresenceHash
  import opened PresenceProtocol
  import opened PresenceCounts
  import opened PresenceRelay
  import opened PresenceClient

  // ----- the Redis keys -----

  /** Nothing the handler has to do before it serves, or after, is left half done. */
  predicate Resting(pc: Pc) {
    pc.Registered? || pc.Serving? || pc.Done? || pc.Died?
  }

  ghost predicate AtRest(s: State, u: UserId) {
    forall h :: h in s.handlers && s.handlers[h].user == u ==> Resting(s.handlers[h].pc)
  }

  ghost predicate Connected(s: State, u: UserId) {
    exists h :: h in s.handlers && s.handlers[h].user == u && s.handlers[h].pc.Serving?
  }

  /** Handlers that died between their HINCRBY +1 and their HINCRBY -1. */
  ghost function DeadHolders(s: State, u: UserId): set<HandlerId> {
    set h | h in Holders(s, u) && s.handlers[h].pc.Died?
  }

  /** At any moment of any run, with no HDEL of the user pending or missed, the user is listed exactly
      when HDELs have not erased the counts of all who hold one. */
  lemma ListedIffNotAllErased(run: seq<Action>, s: State, u: UserId)
    requires Exec(run) == Some(s) && !DeletePending(s, u) && !DeleteMissed(s, u)
    ensures u in s.hash <==> Erased(run, u) < |Holders(s, u)|
  {
    HoldersAreStoredPlusErased(run, u);
  }

  lemma HoldersAtRest(s: State, u: UserId)
    requires AtRest(s, u)
    ensures !DeletePending(s, u)
    ensures Connected(s, u) ==> Holders(s, u) != {}
    ensures !Connected(s, u) ==> Holders(s, u) == DeadHolders(s, u)
    ensures DeadHolders(s, u) == {} ==> (Connected(s, u) <==> Holders(s, u) != {})
  {
    if Connected(s, u) {
      var h :| h in s.handlers && s.handlers[h].user == u && s.handlers[h].pc.Serving?;
      assert h in Holders(s, u);
    }
    if Holders(s, u) != DeadHolders(s, u) {
      var h :| h in Holders(s, u) && h !in DeadHolders(s, u);
      assert s.handlers[h].pc.Serving?;
    }
  }

  /** When the key is right. With the user's handlers at rest and no HDEL missed, the user is listed
      exactly when connected, if and only if HDELs erased less than all counts of a connected user, and
      exactly the counts of the dead handlers of one who is not. */
  lemma KeyIsRightIff(run: seq<Action>, s: State, u: UserId)
    requires Exec(run) == Some(s) && AtRest(s, u) && !DeleteMissed(s, u)
    ensures (u in s.hash <==> Connected(s, u)) <==>
      if Connected(s, u) then Erased(run, u) < |Holders(s, u)| else Erased(run, u) == |DeadHolders(s, u)|
  {
    HoldersAtRest(s, u);
    HoldersAreStoredPlusErased(run, u);
    ListedIffNotAllErased(run, s, u);
  }

  /** So if no HDEL erased more than a zero and nobody died holding a count, the keys are exactly the
      users with a serving connection. */
  lemma KeysAreConnectedUsers(run: seq<Action>, s: State, u: UserId)
    requires Exec(run) == Some(s) && AtRest(s, u) && !DeleteMissed(s, u)
    requires ErasesOnlyZero(run, u) && DeadHolders(s, u) == {}
    ensures u in s.hash <==> Connected(s, u)
  {
    ExactIffOnlyZeroErased(run, u);
    HoldersAtRest(s, u);
    KeyIsRightIff(run, s, u);
  }

  // ----- the user's handlers -----

  /** The handler has yet to publish the JOINED it owes. */
  predicate OwesJoined(pc: Pc) {
    (pc.Incremented? || pc.Listed? || pc.SnapshotSent?) && pc.count == 1
  }

  /** The handler has brought the count to zero and has yet to delete the key or publish LEFT. */
  predicate OwesLeft(pc: Pc) {
    pc.Decremented? || pc.Deleted?
  }

  /** None of the user's handlers died after its HINCRBY. */
  ghost predicate NoHarm(run: seq<Action>, u: UserId)
    requires Exec(run).Some?
    decreases |run|
  {
    run == [] ||
    var init, a := run[..|run| - 1], run[|run| - 1];
    NoHarm(init, u) && Harmless(Exec(init).value, a, u)
  }

  ghost predicate Harmless(s: State, a: Action, u: UserId) {
    a.Run? && IsDeath(a.step) && a.h in s.handlers && s.handlers[a.h].user == u ==> s.handlers[a.h].pc.Registered?
  }

  /** Where the user's handlers stand. */
  ghost function Pcs(s: State, u: UserId): map<HandlerId, Pc> {
    map h | h in s.handlers && s.handlers[h].user == u :: s.handlers[h].pc
  }

  ghost function Holding(m: map<HandlerId, Pc>): set<HandlerId> {
    set h | h in m && Holds(m[h])
  }

  ghost predicate AnyOwesJoined(m: map<HandlerId, Pc>) {
    exists h :: h in m && OwesJoined(m[h])
  }

  ghost predicate AnyOwesLeft(m: map<HandlerId, Pc>) {
    exists h :: h in m && OwesLeft(m[h])
  }

  /** The dead never held a count. */
  ghost predicate NoneHarmed(m: map<HandlerId, Pc>) {
    forall h :: h in m && m[h].Died? ==> m[h].at.Registered?
  }

  /** The last delta about the user is a LEFT that was published while some handler held a count. */
  ghost predicate Overtaken(run: seq<Action>, u: UserId)
    requires Exec(run).Some?
    decreases |run|
  {
    run != [] &&
    var init, a := run[..|run| - 1], run[|run| - 1];
    OvertakenAfter(Exec(init).value, a, u, Overtaken(init, u))
  }

  ghost predicate OvertakenAfter(s: State, a: Action, u: UserId, before: bool)
    requires Enabled(s, a)
  {
    if IsStep(s, a, u, AnnounceLeft) then Holders(s, u) != {}
    else if Joined(u) in NewEvents(s, a) then false
    else before
  }

  /** Whether the user is announced, whether by mistake not, and what is owed. */
  ghost predicate UserInv(m: map<HandlerId, Pc>, announced: bool, overtaken: bool) {
    && NoneHarmed(m)
    && (Holding(m) != {} && !AnyOwesJoined(m) ==> (announced <==> !overtaken))
    && (Holding(m) == {} && (announced || overtaken) ==> AnyOwesLeft(m))
  }

  lemma HoldingStep(m: map<HandlerId, Pc>, h: HandlerId, pc: Pc)
    ensures Holding(m[h := pc]) == if Holds(pc) then Holding(m) + {h} else Holding(m) - {h}
  {
  }

  lemma OwingLeftStays(m: map<HandlerId, Pc>, h: HandlerId, pc: Pc)
    requires h in m && OwesLeft(m[h]) ==> OwesLeft(pc)
    ensures AnyOwesLeft(m) ==> AnyOwesLeft(m[h := pc])
  {
    if AnyOwesLeft(m) {
      var k :| k in m && OwesLeft(m[k]);
      assert OwesLeft(m[h := pc][k]);
    }
  }

  lemma OwingJoinedStays(m: map<HandlerId, Pc>, h: HandlerId, pc: Pc)
    requires h in m && OwesJoined(m[h]) ==> OwesJoined(pc)
    ensures AnyOwesJoined(m) ==> AnyOwesJoined(m[h := pc])
  {
    if AnyOwesJoined(m) {
      var k :| k in m && OwesJoined(m[k]);
      assert OwesJoined(m[h := pc][k]);
    }
  }

  lemma NoneHarmedStep(m: map<HandlerId, Pc>, h: HandlerId, pc: Pc)
    requires NoneHarmed(m) && (pc.Died? ==> pc.at.Registered?)
    ensures NoneHarmed(m[h := pc])
  {
  }

  lemma CountInKeepsInv(m: map<HandlerId, Pc>, announced: bool, overtaken: bool, h: HandlerId)
    requires UserInv(m, announced, overtaken) && h in m && m[h].Registered?
    ensures UserInv(m[h := Incremented(|Holding(m)| + 1)], announced, overtaken)
  {
    var pc := Incremented(|Holding(m)| + 1);
    HoldingStep(m, h, pc);
    NoneHarmedStep(m, h, pc);
    OwingJoinedStays(m, h, pc);
    if Holding(m) == {} {
      assert OwesJoined(m[h := pc][h]);
    }
  }

  lemma CountOutKeepsInv(m: map<HandlerId, Pc>, announced: bool, overtaken: bool, h: HandlerId)
    requires UserInv(m, announced, overtaken) && h in m && m[h].Unregistered?
    ensures UserInv(m[h := AfterCountOut(|Holding(m)| - 1)], announced, overtaken)
  {
    var pc := AfterCountOut(|Holding(m)| - 1);
    HoldingStep(m, h, pc);
    NoneHarmedStep(m, h, pc);
    OwingJoinedStays(m, h, pc);
    assert h in Holding(m) && |Holding(m) - {h}| == |Holding(m)| - 1;
    if |Holding(m)| == 1 {
      assert OwesLeft(m[h := pc][h]);
    }
  }

  function AfterCountOut(count: int): Pc {
    if count <= 0 then Decremented(count) else Done
  }

  lemma AnnounceJoinKeepsInv(m: map<HandlerId, Pc>, announced: bool, overtaken: bool, h: HandlerId)
    requires UserInv(m, announced, overtaken) && h in m && m[h].SnapshotSent?
    ensures var own := m[h].count == 1;
      UserInv(m[h := Serving], announced || own, overtaken && !own)
  {
    HoldingStep(m, h, Serving);
    NoneHarmedStep(m, h, Serving);
    assert h in Holding(m);
    if m[h].count != 1 {
      OwingJoinedStays(m, h, Serving);
    }
  }

  lemma AnnounceLeftKeepsInv(m: map<HandlerId, Pc>, announced: bool, overtaken: bool, h: HandlerId)
    requires UserInv(m, announced, overtaken) && h in m && m[h].Deleted?
    ensures UserInv(m[h := Done], false, Holding(m) != {})
  {
    HoldingStep(m, h, Done);
    NoneHarmedStep(m, h, Done);
  }

  /** A newcomer, or a step that changes neither what the handler holds nor what it owes. */
  lemma QuietStepKeepsInv(m: map<HandlerId, Pc>, announced: bool, overtaken: bool, h: HandlerId, pc: Pc)
    requires UserInv(m, announced, overtaken)
    requires Holds(pc) <==> h in m && Holds(m[h])
    requires h in m && OwesJoined(m[h]) ==> OwesJoined(pc)
    requires h in m && OwesLeft(m[h]) ==> OwesLeft(pc)
    requires pc.Died? ==> pc.at.Registered?
    ensures UserInv(m[h := pc], announced, overtaken)
  {
    HoldingStep(m, h, pc);
    NoneHarmedStep(m, h, pc);
    OwingJoinedStays(m, h, pc);
    OwingLeftStays(m, h, pc);
  }

  lemma PcsStep(s: State, a: Action, u: UserId)
    requires Enabled(s, a)
    ensures Pcs(Apply(s, a), u) ==
      if a.Run? && s.handlers[a.h].user == u then Pcs(s, u)[a.h := NextPc(s, s.handlers[a.h], a.step)]
      else if a.Connect? && a.u == u then Pcs(s, u)[a.h := Registered]
      else Pcs(s, u)
  {
  }

  lemma HoldingIsHolders(s: State, u: UserId)
    ensures Holding(Pcs(s, u)) == Holders(s, u)
  {
  }

  /** The user is online as far as the channel tells. */
  ghost predicate Announced(s: State, u: UserId) {
    Overlay(LastDelta(s.channel, u), false)
  }

  ghost function NewEvents(s: State, a: Action): seq<Event>
    requires Enabled(s, a)
    ensures Apply(s, a).channel == s.channel + NewEvents(s, a)
  {
    match a
    case Run(h, step) => Published(s.handlers[h], step)
    case PublishOther(tag) => [Other(tag)]
    case _ => []
  }

  /** What a step of one of the user's handlers publishes about the user. */
  lemma OwnEvents(s: State, h: HandlerId, step: Step, u: UserId)
    requires Enabled(s, Run(h, step)) && s.handlers[h].user == u && !IsDeath(step)
    ensures var es, c := NewEvents(s, Run(h, step)), s.handlers[h];
      LastDelta(es, u) ==
        if step.AnnounceJoin? && c.pc.count == 1 then Some(true)
        else if step.AnnounceLeft? then Some(false) else None
    ensures Joined(u) in NewEvents(s, Run(h, step)) <==> step.AnnounceJoin? && s.handlers[h].pc.count == 1
  {
  }

  lemma OtherEvents(s: State, a: Action, u: UserId)
    requires Enabled(s, a) && !(a.Run? && s.handlers[a.h].user == u)
    ensures LastDelta(NewEvents(s, a), u) == None && Joined(u) !in NewEvents(s, a)
  {
  }

  /** One step of one of the user's own handlers. */
  lemma UserStep(s: State, h: HandlerId, step: Step, u: UserId, announced: bool, overtaken: bool)
    requires Enabled(s, Run(h, step)) && s.handlers[h].user == u && Harmless(s, Run(h, step), u)
    requires UserInv(Pcs(s, u), announced, overtaken) && Stored(s.hash, u) == |Holders(s, u)|
    ensures var a := Run(h, step);
      UserInv(Pcs(s, u)[h := NextPc(s, s.handlers[h], step)],
              Overlay(LastDelta(NewEvents(s, a), u), announced), OvertakenAfter(s, a, u, overtaken))
  {
    var m, c := Pcs(s, u), s.handlers[h];
    assert m[h] == c.pc;
    HoldingIsHolders(s, u);
    if IsDeath(step) {
      QuietStepKeepsInv(m, announced, overtaken, h, Died(c.pc));
    } else {
      OwnEvents(s, h, step, u);
      if step.CountIn? {
        CountInKeepsInv(m, announced, overtaken, h);
      } else if step.CountOut? {
        CountOutKeepsInv(m, announced, overtaken, h);
      } else if step.AnnounceJoin? {
        AnnounceJoinKeepsInv(m, announced, overtaken, h);
      } else if step.AnnounceLeft? {
        AnnounceLeftKeepsInv(m, announced, overtaken, h);
      } else {
        QuietStepKeepsInv(m, announced, overtaken, h, NextPc(s, c, step));
      }
    }
  }

  lemma UserInvStep(s: State, a: Action, u: UserId, overtaken: bool)
    requires Enabled(s, a) && Harmless(s, a, u)
    requires UserInv(Pcs(s, u), Announced(s, u), overtaken) && Stored(s.hash, u) == |Holders(s, u)|
    ensures UserInv(Pcs(Apply(s, a), u), Announced(Apply(s, a), u), OvertakenAfter(s, a, u, overtaken))
  {
    PcsStep(s, a, u);
    LastDeltaConcat(s.channel, NewEvents(s, a), u);
    if a.Run? && s.handlers[a.h].user == u {
      UserStep(s, a.h, a.step, u, Announced(s, u), overtaken);
    } else {
      OtherEvents(s, a, u);
      if a.Connect? && a.u == u {
        QuietStepKeepsInv(Pcs(s, u), Announced(s, u), overtaken, a.h, Registered);
      }
    }
  }

  /** Over every run in which no HDEL of the user erased more than a zero and none of the user's handlers
      died after its HINCRBY. */
  lemma {:induction false} UserInvHolds(run: seq<Action>, u: UserId)
    requires Exec(run).Some? && NoHarm(run, u) && ErasesOnlyZero(run, u)
    ensures UserInv(Pcs(Exec(run).value, u), Announced(Exec(run).value, u), Overtaken(run, u))
    ensures Stored(Exec(run).value.hash, u) == |Holders(Exec(run).value, u)|
    decreases |run|
  {
    ExactIffOnlyZeroErased(run, u);
    if run == [] {
      assert Holding(map[]) == {};
    } else {
      LastStep(run);
      var init := run[..|run| - 1];
      UserInvHolds(init, u);
      UserInvStep(Exec(init).value, run[|run| - 1], u, Overtaken(init, u));
    }
  }

  lemma DebtsAtRest(s: State, u: UserId)
    requires AtRest(s, u) && NoneHarmed(Pcs(s, u))
    ensures !AnyOwesJoined(Pcs(s, u)) && !AnyOwesLeft(Pcs(s, u)) && !DeltaOwed(Pcs(s, u))
    ensures Connected(s, u) <==> Holding(Pcs(s, u)) != {}
    ensures !DeleteMissed(s, u) && DeadHolders(s, u) == {}
  {
    var m := Pcs(s, u);
    assert forall h :: h in m ==> m[h] == s.handlers[h].pc;
    HoldingIsHolders(s, u);
    assert forall h :: h in s.handlers && s.handlers[h].user == u ==> h in m;
    assert DeadHolders(s, u) == {};
    HoldersAtRest(s, u);
  }

  /** What the channel says. With the user's handlers at rest, it has the user online exactly when
      connected, if and only if no LEFT overtook the user's last JOINED. */
  lemma ChannelIsRightIffNotOvertaken(run: seq<Action>, s: State, u: UserId)
    requires Exec(run) == Some(s) && NoHarm(run, u) && ErasesOnlyZero(run, u) && AtRest(s, u)
    ensures (Announced(s, u) <==> Connected(s, u)) <==> !Overtaken(run, u)
  {
    UserInvHolds(run, u);
    DebtsAtRest(s, u);
  }

  // ----- the keys behind a snapshot -----

  /** The keys a handler read, once it has read them. */
  function KnownKeys(c: Handler): Option<seq<UserId>> {
    if c.pc.Listed? then Some(c.pc.ids) else c.snapshot
  }

  predicate Owes(pc: Pc) {
    OwesJoined(pc) || OwesLeft(pc)
  }

  /** Some JOINED or LEFT about the user is still to be published. */
  ghost predicate DeltaOwed(m: map<HandlerId, Pc>) {
    exists h :: h in m && Owes(m[h])
  }

  /** The keys a handler read list the user exactly if somebody holds a count now, unless news about the
      user has been published since or is still owed. */
  ghost predicate KeysExplained(s: State, c: Handler, u: UserId) {
    KnownKeys(c).Some? ==>
      && c.listedAt <= |s.channel|
      && ((u in KnownKeys(c).value <==> Holders(s, u) != {})
          || LastDelta(s.channel[c.listedAt..], u).Some?
          || DeltaOwed(Pcs(s, u)))
  }

  lemma DeltaOwedStep(s: State, a: Action, u: UserId)
    requires Enabled(s, a) && Harmless(s, a, u) && DeltaOwed(Pcs(s, u))
    ensures DeltaOwed(Pcs(Apply(s, a), u)) || LastDelta(NewEvents(s, a), u).Some?
  {
    PcsStep(s, a, u);
    var m, m' := Pcs(s, u), Pcs(Apply(s, a), u);
    var k :| k in m && Owes(m[k]);
    if a.Run? && a.h == k {
      assert m[k] == s.handlers[k].pc && s.handlers[k].user == u;
      assert Owes(m[k]);
      OwnEvents(s, k, a.step, u);
      assert !a.step.AnnounceJoin? && !a.step.AnnounceLeft? ==> Owes(m'[k]);
    } else {
      assert k in m' && m'[k] == m[k];
    }
  }

  /** When the first of the user's handlers comes or the last one goes, news is owed. */
  lemma ChangeIsOwed(s: State, a: Action, u: UserId)
    requires Enabled(s, a) && Stored(s.hash, u) == |Holders(s, u)|
    ensures (Holders(Apply(s, a), u) == {} <==> Holders(s, u) == {}) || DeltaOwed(Pcs(Apply(s, a), u))
  {
    HoldersAfter(s, a, u);
    PcsStep(s, a, u);
    var m' := Pcs(Apply(s, a), u);
    if IsStep(s, a, u, CountIn) && Holders(s, u) == {} {
      assert Owes(m'[a.h]);
    } else if IsStep(s, a, u, CountOut) && Holders(s, u) - {a.h} == {} {
      assert a.h in Holders(s, u) && Holders(s, u) == {a.h};
      assert Owes(m'[a.h]);
    }
  }

  /** Reading the keys: they list the user if somebody holds a count, or news is owed. */
  lemma KeysWhenRead(s: State, u: UserId)
    requires Stored(s.hash, u) == |Holders(s, u)| && StaleKeysExplained(s) && NoneHarmed(Pcs(s, u))
    ensures (u in s.hash <==> Holders(s, u) != {}) || DeltaOwed(Pcs(s, u))
  {
    var m := Pcs(s, u);
    assert forall h :: h in s.handlers && s.handlers[h].user == u ==> h in m && m[h] == s.handlers[h].pc;
    if u in s.hash && Holders(s, u) == {} {
      var h :| h in s.handlers && s.handlers[h].user == u && s.handlers[h].pc.Decremented?;
      assert Owes(m[h]);
    }
  }

  lemma KeysStayExplained(s: State, a: Action, c: Handler, u: UserId)
    requires Enabled(s, a) && Harmless(s, a, u) && Stored(s.hash, u) == |Holders(s, u)|
    requires KeysExplained(s, c, u)
    ensures KeysExplained(Apply(s, a), c, u)
  {
    if KnownKeys(c).Some? {
      var s', es := Apply(s, a), NewEvents(s, a);
      assert s'.channel[c.listedAt..] == s.channel[c.listedAt..] + es;
      LastDeltaConcat(s.channel[c.listedAt..], es, u);
      ChangeIsOwed(s, a, u);
      if DeltaOwed(Pcs(s, u)) {
        DeltaOwedStep(s, a, u);
      }
    }
  }

  lemma KnownKeysStep(s: State, a: Action, h: HandlerId)
    requires Enabled(s, a) && !(a.Run? && a.h == h && a.step.ListKeys?)
    requires h in s.handlers && SocketInOrder(s, s.handlers[h])
    ensures h in Apply(s, a).handlers
    ensures KnownKeys(Apply(s, a).handlers[h]).Some? ==>
      KnownKeys(Apply(s, a).handlers[h]) == KnownKeys(s.handlers[h])
    ensures Apply(s, a).handlers[h].listedAt == s.handlers[h].listedAt
  {
  }

  lemma ReadKeysAreExplained(s: State, h: HandlerId, ids: seq<UserId>, u: UserId)
    requires Enabled(s, Run(h, ListKeys(ids))) && Stored(s.hash, u) == |Holders(s, u)|
    requires StaleKeysExplained(s) && NoneHarmed(Pcs(s, u))
    ensures KeysExplained(Apply(s, Run(h, ListKeys(ids))), Apply(s, Run(h, ListKeys(ids))).handlers[h], u)
  {
    var a := Run(h, ListKeys(ids));
    assert u in ids <==> u in Elements(ids);
    KeysWhenRead(s, u);
    HoldersAfter(s, a, u);
    if DeltaOwed(Pcs(s, u)) {
      DeltaOwedStep(s, a, u);
    }
  }

  lemma KeysExplainedStep(s: State, a: Action, h: HandlerId, u: UserId)
    requires Enabled(s, a) && Harmless(s, a, u) && Stored(s.hash, u) == |Holders(s, u)|
    requires StaleKeysExplained(s) && NoneHarmed(Pcs(s, u))
    requires h in s.handlers ==> SocketInOrder(s, s.handlers[h]) && KeysExplained(s, s.handlers[h], u)
    requires h in Apply(s, a).handlers
    ensures KeysExplained(Apply(s, a), Apply(s, a).handlers[h], u)
  {
    if a.Run? && a.h == h && a.step.ListKeys? {
      ReadKeysAreExplained(s, h, a.step.ids, u);
    } else if h in s.handlers {
      KnownKeysStep(s, a, h);
      KeysStayExplained(s, a, s.handlers[h], u);
    }
  }

  lemma {:induction false} KeysExplainedHolds(run: seq<Action>, h: HandlerId, u: UserId)
    requires Exec(run).Some? && NoHarm(run, u) && ErasesOnlyZero(run, u) && h in Exec(run).value.handlers
    ensures KeysExplained(Exec(run).value, Exec(run).value.handlers[h], u)
    decreases |run|
  {
    if run != [] {
      LastStep(run);
      var init, a := run[..|run| - 1], run[|run| - 1];
      var s := Exec(init).value;
      UserInvHolds(init, u);
      HoldersAreStoredPlusErased(init, u);
      if h in s.handlers {
        RelayInvHolds(init);
        assert SocketInOrder(s, s.handlers[h]);
        KeysExplainedHolds(init, h, u);
      }
      KeysExplainedStep(s, a, h, u);
    }
  }

  // ----- the page -----

  /** A quiet moment as one of the connected pages sees it: its instance has relayed all there is. */
  ghost predicate Served(s: State, h: HandlerId) {
    h in s.table && h in s.handlers && s.handlers[h].pc.Serving? && s.handlers[h].instance in s.relays &&
    var r := s.relays[s.handlers[h].instance]; !r.sending && r.cursor == |s.channel|
  }

  /** A served socket has its snapshot and every event published since its start. */
  lemma ServedSocketHasEverything(s: State, h: HandlerId)
    requires RelayInv(s) && Served(s, h)
    ensures var c := s.handlers[h];
      c.snapshot.Some? && c.start + |c.before| <= |s.channel| && c.after == s.channel[c.start + |c.before|..]
  {
    assert SocketInOrder(s, s.handlers[h]) && CaughtUp(s, h);
    assert RelayConsistent(s, s.handlers[h].instance, s.relays[s.handlers[h].instance]);
  }

  /** The events a socket got after the channel had length `listedAt` but before position `end`. */
  function Between(channel: seq<Event>, listedAt: nat, end: nat): seq<Event>
    requires end <= |channel|
  {
    if listedAt <= end then channel[listedAt..end] else []
  }

  /** What the page needs in order to be right about a user: once a delta came after its snapshot, that no
      LEFT overtook a JOINED; before that, that the last delta its snapshot overwrote, if there is one,
      agrees with the snapshot, or disagrees if it is itself such a LEFT. */
  predicate PageMayRely(lost: Option<bool>, later: Option<bool>, listed: bool, overtaken: bool) {
    if later.Some? then !overtaken else lost.Some? ==> (listed <==> lost.value != overtaken)
  }

  /** The last delta a page's snapshot overwrote: relayed to it after its HKEYS and before its snapshot. */
  ghost function Lost(s: State, c: Handler, u: UserId): Option<bool>
    requires c.start + |c.before| <= |s.channel|
  {
    LastDelta(Between(s.channel, c.listedAt, c.start + |c.before|), u)
  }

  /** The arithmetic of convergence: keys read at `listedAt`, overlaid with the channel from `end`
      on, against the whole channel. */
  lemma LastOfChannel(channel: seq<Event>, listedAt: nat, end: nat, u: UserId)
    requires listedAt <= |channel| && end <= |channel|
    ensures var later, lost := LastDelta(channel[end..], u), LastDelta(Between(channel, listedAt, end), u);
      && (later.Some? ==> LastDelta(channel, u) == later)
      && (later == None && lost.Some? ==> LastDelta(channel, u) == lost)
      && (later == None && lost == None ==> LastDelta(channel[listedAt..], u) == None)
  {
    assert channel == channel[..end] + channel[end..];
    LastDeltaConcat(channel[..end], channel[end..], u);
    if listedAt <= end {
      assert channel[..end] == channel[..listedAt] + channel[listedAt..end];
      LastDeltaConcat(channel[..listedAt], channel[listedAt..end], u);
      assert channel[listedAt..] == channel[listedAt..end] + channel[end..];
      LastDeltaConcat(channel[listedAt..end], channel[end..], u);
    } else {
      assert channel[end..] == channel[end..listedAt] + channel[listedAt..];
      LastDeltaConcat(channel[end..listedAt], channel[listedAt..], u);
    }
  }

  /** At rest nothing is owed: keys read with no news since list exactly a connected user. */
  lemma SnapshotAtRest(run: seq<Action>, s: State, h: HandlerId, u: UserId)
    requires Exec(run) == Some(s) && NoHarm(run, u) && ErasesOnlyZero(run, u) && AtRest(s, u)
    requires h in s.handlers && s.handlers[h].pc.Serving? && s.handlers[h].snapshot.Some?
    ensures var c := s.handlers[h];
      && c.listedAt <= |s.channel|
      && (LastDelta(s.channel[c.listedAt..], u) == None ==> (u in c.snapshot.value <==> Connected(s, u)))
  {
    UserInvHolds(run, u);
    DebtsAtRest(s, u);
    HoldingIsHolders(s, u);
    KeysExplainedHolds(run, h, u);
  }

  /** Convergence. Take any run in which no HDEL of the user erased more than a zero and none of the user's
      handlers died after its HINCRBY, and any moment at which the user's handlers are at rest and a
      page's instance has relayed everything. Then the page shows the user correctly if and only if it may
      rely on what it received. Joins and leaves may interleave in any way. */
  lemma PageIsRightIff(run: seq<Action>, s: State, h: HandlerId, u: UserId)
    requires Exec(run) == Some(s) && NoHarm(run, u) && ErasesOnlyZero(run, u)
    requires AtRest(s, u) && Served(s, h)
    ensures var c := s.handlers[h];
      && c.snapshot.Some? && c.start + |c.before| <= |s.channel|
      && ((u in View(c) <==> Connected(s, u)) <==>
            PageMayRely(Lost(s, c, u), LastDelta(c.after, u), u in c.snapshot.value, Overtaken(run, u)))
  {
    var c := s.handlers[h];
    RelayInvHolds(run);
    ServedSocketHasEverything(s, h);
    SnapshotAtRest(run, s, h, u);
    ChannelIsRightIffNotOvertaken(run, s, u);
    ViewAfterSnapshot(c, u);
    LastOfChannel(s.channel, c.listedAt, c.start + |c.before|, u);
  }

  // ----- when joins wait for leaves -----

  /** None of the user's handlers increments the count while another one is between its decrement to
      zero and its LEFT. Nothing else about the user's tabs is restricted. */
  ghost predicate JoinsWaitForLeaves(run: seq<Action>, u: UserId)
    requires Exec(run).Some?
    decreases |run|
  {
    run == [] ||
    var init, a := run[..|run| - 1], run[|run| - 1];
    JoinsWaitForLeaves(init, u) &&
    (IsStep(Exec(init).value, a, u, CountIn) ==> !AnyOwesLeft(Pcs(Exec(init).value, u)))
  }

  /** While a LEFT is owed nobody holds a count. */
  ghost predicate LeavesAlone(s: State, u: UserId) {
    AnyOwesLeft(Pcs(s, u)) ==> Holders(s, u) == {}
  }

  /** A LEFT comes to be owed only by a decrement to zero. */
  lemma LeftOwedStep(s: State, a: Action, u: UserId)
    requires Enabled(s, a) && AnyOwesLeft(Pcs(Apply(s, a), u))
    ensures AnyOwesLeft(Pcs(s, u)) || (IsStep(s, a, u, CountOut) && Stored(s.hash, u) <= 1)
  {
    PcsStep(s, a, u);
    var m, m' := Pcs(s, u), Pcs(Apply(s, a), u);
    var k :| k in m' && OwesLeft(m'[k]);
    if !(IsStep(s, a, u, CountOut) && k == a.h) {
      assert k in m && OwesLeft(m[k]);
    }
  }

  lemma LeavesAloneStep(s: State, a: Action, u: UserId)
    requires Enabled(s, a) && LeavesAlone(s, u) && Stored(s.hash, u) == |Holders(s, u)|
    requires IsStep(s, a, u, CountIn) ==> !AnyOwesLeft(Pcs(s, u))
    ensures LeavesAlone(Apply(s, a), u)
  {
    if AnyOwesLeft(Pcs(Apply(s, a), u)) {
      LeftOwedStep(s, a, u);
      HoldersStep(s, a, u);
    }
  }

  /** Then no HDEL erases more than a zero, and no LEFT overtakes a JOINED. */
  lemma {:induction false} WaitingJoinsAreSafe(run: seq<Action>, u: UserId)
    requires Exec(run).Some? && JoinsWaitForLeaves(run, u)
    ensures ErasesOnlyZero(run, u) && !Overtaken(run, u) && LeavesAlone(Exec(run).value, u)
    decreases |run|
  {
    if run != [] {
      LastStep(run);
      var init, a := run[..|run| - 1], run[|run| - 1];
      WaitingJoinsAreSafe(init, u);
      ExactIffOnlyZeroErased(init, u);
      var s := Exec(init).value;
      LeavesAloneStep(s, a, u);
      if IsStep(s, a, u, DeleteKey) || IsStep(s, a, u, AnnounceLeft) {
        assert OwesLeft(Pcs(s, u)[a.h]);
      }
    }
  }

  /** Nothing published after the socket's HKEYS reached it before its snapshot. */
  ghost predicate NothingOverwritten(c: Handler) {
    c.start + |c.before| <= c.listedAt
  }

  /** So in such runs only the snapshot can do harm: the page is right if and only if the last delta the
      snapshot overwrote was followed by another one, or says what the snapshot says. */
  lemma PageConvergesIffNoDeltaLost(run: seq<Action>, s: State, h: HandlerId, u: UserId)
    requires Exec(run) == Some(s) && NoHarm(run, u) && JoinsWaitForLeaves(run, u)
    requires AtRest(s, u) && Served(s, h)
    ensures var c := s.handlers[h];
      && c.snapshot.Some? && c.start + |c.before| <= |s.channel|
      && ((u in View(c) <==> Connected(s, u)) <==>
            Lost(s, c, u).Some? ==>
              LastDelta(c.after, u).Some? || (u in c.snapshot.value <==> Lost(s, c, u).value))
  {
    WaitingJoinsAreSafe(run, u);
    PageIsRightIff(run, s, h, u);
  }

  lemma {:induction false} KnownKeysAreDistinct(run: seq<Action>, h: HandlerId)
    requires Exec(run).Some? && h in Exec(run).value.handlers
    ensures KnownKeys(Exec(run).value.handlers[h]).Some? ==>
      Distinct(KnownKeys(Exec(run).value.handlers[h]).value)
    decreases |run|
  {
    if run != [] {
      LastStep(run);
      var init, a := run[..|run| - 1], run[|run| - 1];
      var s := Exec(init).value;
      if h in s.handlers && !(a.Run? && a.h == h && a.step.ListKeys?) {
        KnownKeysAreDistinct(init, h);
        RelayInvHolds(init);
        KnownKeysStep(s, a, h);
      }
    }
  }

  /** The whole page: if nothing published after its HKEYS reached it before its snapshot, and each user is
      unharmed, not overtaken and at rest, the page lists each connected user once and nobody else, and so
      does Redis. */
  lemma PageShowsConnectedUsers(run: seq<Action>, s: State, h: HandlerId)
    requires Exec(run) == Some(s) && Served(s, h) && NothingOverwritten(s.handlers[h])
    requires forall u :: NoHarm(run, u) && ErasesOnlyZero(run, u) && !Overtaken(run, u) && AtRest(s, u)
    ensures Distinct(View(s.handlers[h]))
    ensures forall u :: u in View(s.handlers[h]) <==> Connected(s, u)
    ensures forall u :: u in s.hash <==> Connected(s, u)
  {
    var c := s.handlers[h];
    forall u ensures (u in View(c) <==> Connected(s, u)) && (u in s.hash <==> Connected(s, u)) {
      PageIsRightIff(run, s, h, u);
      UserInvHolds(run, u);
      DebtsAtRest(s, u);
      KeysAreConnectedUsers(run, s, u);
    }
    KnownKeysAreDistinct(run, h);
    ViewsListUsersOnce([], Inbox(c));
  }
}
