/** What the counts in the Redis hash are worth, over every run: all interleavings, including the
    race between one handler's HINCRBY/HDEL pair and another's HINCRBY, and handlers that die. */
module PresenceCounts {
  import opened Common
  import opened PresenceHash
  import opened PresenceProtocol

  /** The handler has incremented its user's count and not yet decremented it. */
  predicate Holds(pc: Pc) {
    match pc
    case Incremented(_) => true
    case Listed(_, _) => true
    case SnapshotSent(_) => true
    case Serving => true
    case Unregistered => true
    case Died(at) => Holds(at)
    case _ => false
  }

  ghost function Holders(s: State, u: UserId): set<HandlerId> {
    set h | h in s.handlers && s.handlers[h].user == u && Holds(s.handlers[h].pc)
  }

  /** The action is this step of one of the user's handlers. */
  ghost predicate IsStep(s: State, a: Action, u: UserId, step: Step) {
    a.Run? && a.step == step && a.h in s.handlers && s.handlers[a.h].user == u
  }

  /** One of the user's handlers is about to issue its HDEL. */
  ghost predicate DeletePending(s: State, u: UserId) {
    exists h :: h in s.handlers && s.handlers[h].user == u && s.handlers[h].pc.Decremented?
  }

  /** One of the user's handlers died there: its HDEL never comes. */
  ghost predicate DeleteMissed(s: State, u: UserId) {
    exists h :: h in s.handlers && s.handlers[h].user == u &&
      s.handlers[h].pc.Died? && s.handlers[h].pc.at.Decremented?
  }

  /** A key at or below zero is due to a handler between its decrement and its HDEL, alive or dead. */
  ghost predicate StaleKeysExplained(s: State) {
    forall u :: u in s.hash && s.hash[u] <= 0 ==> DeletePending(s, u) || DeleteMissed(s, u)
  }

  /** The sum of the counts of `u` that HDELs of the run removed. */
  ghost function Erased(run: seq<Action>, u: UserId): int
    requires Exec(run).Some?
    decreases |run|
  {
    if run == [] then 0
    else
      var init, a := run[..|run| - 1], run[|run| - 1];
      var s := Exec(init).value;
      Erased(init, u) +
      if IsStep(s, a, u, DeleteKey) then Stored(s.hash, u) else 0
  }

  ghost predicate ErasesOnlyZero(run: seq<Action>, u: UserId)
    requires Exec(run).Some?
    decreases |run|
  {
    run == [] ||
    var init, a := run[..|run| - 1], run[|run| - 1];
    var s := Exec(init).value;
    ErasesOnlyZero(init, u) &&
    (IsStep(s, a, u, DeleteKey) ==> Stored(s.hash, u) == 0)
  }

  ghost function CountChange(s: State, a: Action, u: UserId): int
    requires Enabled(s, a)
  {
    if IsStep(s, a, u, CountIn) then 1
    else if IsStep(s, a, u, CountOut) then -1
    else 0
  }

  /** Only its own CountIn makes a handler a holder, only its own CountOut ends that. */
  lemma HolderStep(s: State, a: Action, u: UserId, h: HandlerId)
    requires Enabled(s, a)
    ensures h in Holders(Apply(s, a), u) <==>
      (IsStep(s, a, u, CountIn) && a.h == h) ||
      (h in Holders(s, u) && !(IsStep(s, a, u, CountOut) && a.h == h))
  {
  }

  lemma HoldersAfter(s: State, a: Action, u: UserId)
    requires Enabled(s, a)
    ensures Holders(Apply(s, a), u) ==
      if IsStep(s, a, u, CountIn) then Holders(s, u) + {a.h}
      else if IsStep(s, a, u, CountOut) then Holders(s, u) - {a.h}
      else Holders(s, u)
  {
    forall h ensures h in Holders(Apply(s, a), u) <==>
      (IsStep(s, a, u, CountIn) && a.h == h) ||
      (h in Holders(s, u) && !(IsStep(s, a, u, CountOut) && a.h == h))
    {
      HolderStep(s, a, u, h);
    }
  }

  lemma HoldersStep(s: State, a: Action, u: UserId)
    requires Enabled(s, a)
    ensures |Holders(Apply(s, a), u)| == |Holders(s, u)| + CountChange(s, a, u)
    ensures CountChange(s, a, u) == 0 ==> Holders(Apply(s, a), u) == Holders(s, u)
  {
    HoldersAfter(s, a, u);
    assert IsStep(s, a, u, CountIn) ==> a.h !in Holders(s, u);
    assert IsStep(s, a, u, CountOut) ==> a.h in Holders(s, u);
  }

  lemma StoredStep(s: State, a: Action, u: UserId)
    requires Enabled(s, a)
    ensures Stored(Apply(s, a).hash, u) ==
      if IsStep(s, a, u, DeleteKey) then 0 else Stored(s.hash, u) + CountChange(s, a, u)
  {
  }

  lemma MissedStays(s: State, a: Action, u: UserId)
    requires Enabled(s, a) && DeleteMissed(s, u)
    ensures DeleteMissed(Apply(s, a), u)
  {
    var h :| h in s.handlers && s.handlers[h].user == u &&
      s.handlers[h].pc.Died? && s.handlers[h].pc.at.Decremented?;
    assert Apply(s, a).handlers[h].user == u && Apply(s, a).handlers[h].pc == s.handlers[h].pc;
  }

  /** A pending HDEL is issued, is missed, or stays pending. */
  lemma PendingStep(s: State, a: Action, u: UserId)
    requires Enabled(s, a) && DeletePending(s, u)
    ensures IsStep(s, a, u, DeleteKey) || DeletePending(Apply(s, a), u) || DeleteMissed(Apply(s, a), u)
  {
    var s' := Apply(s, a);
    var h :| h in s.handlers && s.handlers[h].user == u && s.handlers[h].pc.Decremented?;
    assert h in s'.handlers && s'.handlers[h].user == u;
    if a.Run? && a.h == h && IsDeath(a.step) {
      assert s'.handlers[h].pc.Died? && s'.handlers[h].pc.at.Decremented?;
    } else if !IsStep(s, a, u, DeleteKey) {
      assert s'.handlers[h].pc.Decremented?;
    }
  }

  lemma StaleKeysStep(s: State, a: Action)
    requires Enabled(s, a) && StaleKeysExplained(s)
    ensures StaleKeysExplained(Apply(s, a))
  {
    var s' := Apply(s, a);
    forall u | u in s'.hash && s'.hash[u] <= 0 ensures DeletePending(s', u) || DeleteMissed(s', u) {
      if IsStep(s, a, u, CountOut) {
        assert s'.handlers[a.h].pc.Decremented?;
      } else if DeleteMissed(s, u) {
        MissedStays(s, a, u);
      } else {
        assert DeletePending(s, u);
        PendingStep(s, a, u);
      }
    }
  }

  /** The exact account: in every run, the connections holding a count are the stored count plus
      whatever HDELs have erased. */
  lemma {:induction false} HoldersAreStoredPlusErased(run: seq<Action>, u: UserId)
    requires Exec(run).Some?
    ensures |Holders(Exec(run).value, u)| == Stored(Exec(run).value.hash, u) + Erased(run, u)
    ensures Erased(run, u) >= 0
    ensures StaleKeysExplained(Exec(run).value)
    decreases |run|
  {
    if run == [] {
      assert Holders(INIT, u) == {};
    } else {
      LastStep(run);
      var init, a := run[..|run| - 1], run[|run| - 1];
      HoldersAreStoredPlusErased(init, u);
      var s := Exec(init).value;
      HoldersStep(s, a, u);
      StoredStep(s, a, u);
      StaleKeysStep(s, a);
    }
  }

  /** Presence never overstates: a stored count never exceeds the connections that hold one, and a
      listed user has such a connection unless a handler is about to issue its HDEL or died there. */
  lemma PresenceNeverOverstates(run: seq<Action>, u: UserId)
    requires Exec(run).Some?
    ensures Stored(Exec(run).value.hash, u) <= |Holders(Exec(run).value, u)|
    ensures u in Exec(run).value.hash && !DeletePending(Exec(run).value, u) && !DeleteMissed(Exec(run).value, u)
      ==> Holders(Exec(run).value, u) != {}
  {
    HoldersAreStoredPlusErased(run, u);
  }

  /** At every moment of the run the stored count equals the number of connections holding one. */
  ghost predicate AlwaysExact(run: seq<Action>, u: UserId)
    requires Exec(run).Some?
    decreases |run|
  {
    Stored(Exec(run).value.hash, u) == |Holders(Exec(run).value, u)| &&
    (run != [] ==> AlwaysExact(run[..|run| - 1], u))
  }

  /** The counts are exact throughout a run if and only if no HDEL of the run removed anything but
      a zero. */
  lemma {:induction false} ExactIffOnlyZeroErased(run: seq<Action>, u: UserId)
    requires Exec(run).Some?
    ensures AlwaysExact(run, u) <==> ErasesOnlyZero(run, u)
    ensures ErasesOnlyZero(run, u) ==> Erased(run, u) == 0
    decreases |run|
  {
    HoldersAreStoredPlusErased(run, u);
    if run != [] {
      LastStep(run);
      ExactIffOnlyZeroErased(run[..|run| - 1], u);
      HoldersAreStoredPlusErased(run[..|run| - 1], u);
    }
  }

  /** No other HINCRBY of a user's count while one of the user's handlers sits between its
      decrement to zero and its HDEL: the pair behaves as if it were one command. */
  ghost predicate LeavesUninterrupted(run: seq<Action>, u: UserId)
    requires Exec(run).Some?
    decreases |run|
  {
    run == [] ||
    var init, a := run[..|run| - 1], run[|run| - 1];
    LeavesUninterrupted(init, u) &&
    (IsStep(Exec(init).value, a, u, CountIn) || IsStep(Exec(init).value, a, u, CountOut) ==>
       !DeletePending(Exec(init).value, u))
  }

  lemma {:induction false} UninterruptedLeavesAreExact(run: seq<Action>, u: UserId)
    requires Exec(run).Some? && LeavesUninterrupted(run, u)
    ensures AlwaysExact(run, u)
    ensures DeletePending(Exec(run).value, u) ==> Stored(Exec(run).value.hash, u) == 0
    ensures Holders(Exec(run).value, u) != {} ==> u in Exec(run).value.hash
    ensures !DeletePending(Exec(run).value, u) && !DeleteMissed(Exec(run).value, u) ==>
      (u in Exec(run).value.hash <==> Holders(Exec(run).value, u) != {})
    decreases |run|
  {
    HoldersAreStoredPlusErased(run, u);
    if run == [] {
      assert Holders(INIT, u) == {};
    } else {
      LastStep(run);
      var init, a := run[..|run| - 1], run[|run| - 1];
      UninterruptedLeavesAreExact(init, u);
      var s, s' := Exec(init).value, Exec(run).value;
      HoldersStep(s, a, u);
      StoredStep(s, a, u);
      if DeletePending(s', u) && !DeletePending(s, u) {
        assert IsStep(s, a, u, CountOut);
      }
    }
  }

  // ----- entries nobody holds -----

  predicate IsHashStep(step: Step) {
    step.CountIn? || step.CountOut? || step.DeleteKey?
  }

  /** The last command on the user's key, and whose it was. */
  ghost function LastCommand(run: seq<Action>, u: UserId): Option<(HandlerId, Step)>
    requires Exec(run).Some?
    decreases |run|
  {
    if run == [] then None
    else
      var a := run[|run| - 1];
      if a.Run? && IsHashStep(a.step) && IsStep(Exec(run[..|run| - 1]).value, a, u, a.step) then Some((a.h, a.step))
      else LastCommand(run[..|run| - 1], u)
  }

  /** What the last command leaves true: of the key, and of the handler that issued it. */
  ghost predicate CommandInv(s: State, u: UserId, last: Option<(HandlerId, Step)>) {
    if last == None then u !in s.hash
    else
      var (h, step) := last.value;
      h in s.handlers && s.handlers[h].user == u &&
      match step
      case CountIn => u in s.hash && Holds(s.handlers[h].pc)
      case CountOut =>
        u in s.hash && if s.hash[u] > 0 then !Holds(s.handlers[h].pc) else StandsAtDelete(s.handlers[h].pc)
      case DeleteKey => u !in s.hash
      case _ => false
  }

  predicate StandsAtDelete(pc: Pc) {
    pc.Decremented? || (pc.Died? && pc.at.Decremented?)
  }

  lemma OtherCommandsInv(s: State, a: Action, u: UserId, last: Option<(HandlerId, Step)>)
    requires Enabled(s, a) && CommandInv(s, u, last)
    requires !(a.Run? && IsHashStep(a.step) && IsStep(s, a, u, a.step))
    ensures CommandInv(Apply(s, a), u, last)
  {
    var s' := Apply(s, a);
    assert (u in s'.hash <==> u in s.hash) && (u in s.hash ==> s'.hash[u] == s.hash[u]);
    if last.Some? {
      var h := last.value.0;
      assert h in s'.handlers && s'.handlers[h].user == u;
      assert Holds(s'.handlers[h].pc) <==> Holds(s.handlers[h].pc);
      assert StandsAtDelete(s.handlers[h].pc) ==> StandsAtDelete(s'.handlers[h].pc);
    }
  }

  lemma {:induction false} CommandInvHolds(run: seq<Action>, u: UserId)
    requires Exec(run).Some?
    ensures CommandInv(Exec(run).value, u, LastCommand(run, u))
    decreases |run|
  {
    if run != [] {
      LastStep(run);
      var init, a := run[..|run| - 1], run[|run| - 1];
      CommandInvHolds(init, u);
      if !(a.Run? && IsHashStep(a.step) && IsStep(Exec(init).value, a, u, a.step)) {
        OtherCommandsInv(Exec(init).value, a, u, LastCommand(init, u));
      }
    }
  }

  lemma LastToCountInHolds(s: State, u: UserId, last: Option<(HandlerId, Step)>)
    requires CommandInv(s, u, last) && last.Some? && last.value.1.CountIn?
    ensures Holders(s, u) != {}
  {
    assert last.value.0 in Holders(s, u);
  }

  /** When an entry nobody holds stays. A user without holders is listed exactly when the last command on
      the key was a decrement; its handler then is about to delete the key, or died there. So once no HDEL
      is pending, the entry stays if and only if that last handler died. */
  lemma EntryWithoutHoldersIff(run: seq<Action>, s: State, u: UserId)
    requires Exec(run) == Some(s) && Holders(s, u) == {}
    ensures u in s.hash <==> LastCommand(run, u).Some? && LastCommand(run, u).value.1 == CountOut
    ensures !DeletePending(s, u) ==>
      (u in s.hash <==>
        var last := LastCommand(run, u);
        last.Some? && last.value.1 == CountOut && last.value.0 in s.handlers &&
        s.handlers[last.value.0].pc.Died? && s.handlers[last.value.0].pc.at.Decremented?)
  {
    CommandInvHolds(run, u);
    HoldersAreStoredPlusErased(run, u);
    if LastCommand(run, u).Some? && LastCommand(run, u).value.1.CountIn? {
      LastToCountInHolds(s, u, LastCommand(run, u));
    }
  }
}
