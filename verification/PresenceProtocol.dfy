/** Presence and event fan-out for one project as a protocol: any number of WebSocket handlers on
    any number of backend instances share one Redis hash and one ordered pub/sub channel. Each
    action below is the stretch of code between two awaits, so every interleaving the event loops
    allow is a run (backend/app/api/routers/ws.py, backend/app/ws/redis_listener.py,
    backend/app/ws/connection_manager.py). */
module PresenceProtocol {
  import opened Common
  import opened PresenceHash

  type HandlerId = nat
  type InstanceId = nat

  /** What travels on the project's channel. `Other` is any task, comment or attachment event. */
  datatype Event = Joined(user: UserId) | Left(user: UserId) | Other(tag: nat)

  /** Where a handler stands. `count` is what its last HINCRBY returned. */
  datatype Pc =
    | Registered                                    // in the connection table
    | Incremented(count: int)                       // HINCRBY +1 done
    | Listed(count: int, ids: seq<UserId>)          // HKEYS done, snapshot not yet sent
    | SnapshotSent(count: int)                      // JOINED still to be published if count == 1
    | Serving                                       // inside the receive loop
    | Unregistered                                  // in `finally`, out of the table
    | Decremented(count: int)                       // HINCRBY -1 gave count <= 0: HDEL pending
    | Deleted                                       // HDEL done: LEFT still to be published
    | Done
    | Died(at: Pc)                                  // an await raised outside the `try`

  /** A handler together with everything its socket received: relayed events before the snapshot,
      the snapshot, relayed events after it. `start`, `listedAt` and `joinedAt` are history: the
      channel position of the first event relayed to it, the channel length at its HKEYS, and the
      position of the JOINED it published itself. */
  datatype Handler = Handler(
    user: UserId, instance: InstanceId, pc: Pc,
    before: seq<Event>, snapshot: Option<seq<UserId>>, after: seq<Event>,
    start: nat, listedAt: nat, joinedAt: Option<nat>)

  /** One instance's listener. While `sending`, it works through `targets`, the sockets it found
      when it took up channel entry `cursor`; those whose send raised wait in `dead`. */
  datatype Relay = Relay(cursor: nat, sending: bool, targets: set<HandlerId>, dead: set<HandlerId>)

  datatype State = State(
    hash: Hash, channel: seq<Event>,
    relays: map<InstanceId, Relay>,
    handlers: map<HandlerId, Handler>,
    table: set<HandlerId>)

  const INIT := State(map[], [], map[], map[], {})

  /** One stretch of `project_websocket` between two awaits, or an await that raises. An await may also
      raise after its effect: for a publish of JOINED that is a step of its own, elsewhere it is the step
      followed by `Die`. */
  datatype Step =
    | CountIn | ListKeys(ids: seq<UserId>) | SendSnapshot | AnnounceJoin
    | Disconnect | CountOut | DeleteKey | AnnounceLeft | Die | DieAfterJoined

  predicate IsDeath(step: Step) {
    step.Die? || step.DieAfterJoined?
  }

  datatype Action =
    | StartInstance(i: InstanceId)
    | Connect(h: HandlerId, u: UserId, i: InstanceId)
    | Run(h: HandlerId, step: Step)
    | PublishOther(tag: nat)
    | BeginRelay(i: InstanceId)
    | SendTo(i: InstanceId, h: HandlerId)
    | SendFails(i: InstanceId, h: HandlerId)
    | EndRelay(i: InstanceId)

  /** Points outside the `try` block at which a raised exception ends the handler with no cleanup. */
  predicate MayDie(pc: Pc) {
    match pc
    case Serving => false
    case Done => false
    case Died(_) => false
    case _ => true
  }

  /** Any await but those of the receive loop may end the handler with no cleanup. */
  lemma DeathsOnlyOutsideTheLoop(s: State, pc: Pc)
    ensures StepEnabled(s, pc, Die) <==> !pc.Serving? && !pc.Done? && !pc.Died?
  {
  }

  ghost predicate StepEnabled(s: State, pc: Pc, step: Step) {
    match step
    case CountIn => pc.Registered?
    case ListKeys(ids) => pc.Incremented? && Distinct(ids) && Elements(ids) == s.hash.Keys
    case SendSnapshot => pc.Listed?
    case AnnounceJoin => pc.SnapshotSent?
    case Disconnect => pc.Serving?
    case CountOut => pc.Unregistered?
    case DeleteKey => pc.Decremented?
    case AnnounceLeft => pc.Deleted?
    case Die => MayDie(pc)
    case DieAfterJoined => pc == SnapshotSent(1)
  }

  ghost predicate Enabled(s: State, a: Action) {
    match a
    case StartInstance(i) => i !in s.relays
    case Connect(h, _, i) => h !in s.handlers && i in s.relays
    case Run(h, step) => h in s.handlers && StepEnabled(s, s.handlers[h].pc, step)
    case PublishOther(_) => true
    case BeginRelay(i) => i in s.relays && !s.relays[i].sending && s.relays[i].cursor < |s.channel|
    case SendTo(i, h) =>
      i in s.relays && h in s.relays[i].targets && h in s.handlers && s.relays[i].cursor < |s.channel|
    case SendFails(i, h) => i in s.relays && h in s.relays[i].targets
    case EndRelay(i) => i in s.relays && s.relays[i].sending && s.relays[i].targets == {}
  }

  function NextHash(h: Hash, u: UserId, step: Step): Hash {
    match step
    case CountIn => HIncrBy(h, u, 1)
    case CountOut => HIncrBy(h, u, -1)
    case DeleteKey => HDel(h, u)
    case _ => h
  }

  /** What the step publishes on the channel. */
  function Published(c: Handler, step: Step): seq<Event> {
    if (step.AnnounceJoin? || step.DieAfterJoined?) && c.pc == SnapshotSent(1) then [Joined(c.user)]
    else if step.AnnounceLeft? then [Left(c.user)]
    else []
  }

  ghost function NextPc(s: State, c: Handler, step: Step): Pc
    requires StepEnabled(s, c.pc, step)
  {
    match step
    case CountIn => Incremented(Stored(s.hash, c.user) + 1)
    case ListKeys(ids) => Listed(c.pc.count, ids)
    case SendSnapshot => SnapshotSent(c.pc.count)
    case AnnounceJoin => Serving
    case Disconnect => Unregistered
    case CountOut =>
      var count := Stored(s.hash, c.user) - 1;
      if count <= 0 then Decremented(count) else Done
    case DeleteKey => Deleted
    case AnnounceLeft => Done
    case Die => Died(c.pc)
    case DieAfterJoined => Died(c.pc)
  }

  ghost function NextHandler(s: State, c: Handler, step: Step): Handler
    requires StepEnabled(s, c.pc, step)
  {
    c.(pc := NextPc(s, c, step),
       snapshot := if step.SendSnapshot? then Some(c.pc.ids) else c.snapshot,
       listedAt := if step.ListKeys? then |s.channel| else c.listedAt,
       joinedAt := if Published(c, step) == [Joined(c.user)] then Some(|s.channel|) else c.joinedAt)
  }

  ghost function LocalSockets(s: State, i: InstanceId): set<HandlerId> {
    set h | h in s.table && h in s.handlers && s.handlers[h].instance == i
  }

  function Receive(c: Handler, e: Event): Handler {
    if c.snapshot == None then c.(before := c.before + [e]) else c.(after := c.after + [e])
  }

  ghost function Apply(s: State, a: Action): State
    requires Enabled(s, a)
  {
    match a
    case StartInstance(i) => s.(relays := s.relays[i := Relay(|s.channel|, false, {}, {})])
    case Connect(h, u, i) =>
      var r := s.relays[i];
      var start := if r.sending then r.cursor + 1 else r.cursor;
      s.(handlers := s.handlers[h := Handler(u, i, Registered, [], None, [], start, 0, None)],
         table := s.table + {h})
    case Run(h, step) =>
      var c := s.handlers[h];
      s.(hash := NextHash(s.hash, c.user, step),
         channel := s.channel + Published(c, step),
         handlers := s.handlers[h := NextHandler(s, c, step)],
         table := if step.Disconnect? then s.table - {h} else s.table)
    case PublishOther(tag) => s.(channel := s.channel + [Other(tag)])
    case BeginRelay(i) =>
      s.(relays := s.relays[i := s.relays[i].(sending := true, targets := LocalSockets(s, i))])
    case SendTo(i, h) =>
      var r := s.relays[i];
      s.(relays := s.relays[i := r.(targets := r.targets - {h})],
         handlers := s.handlers[h := Receive(s.handlers[h], s.channel[r.cursor])])
    case SendFails(i, h) =>
      var r := s.relays[i];
      s.(relays := s.relays[i := r.(targets := r.targets - {h}, dead := r.dead + {h})])
    case EndRelay(i) =>
      var r := s.relays[i];
      s.(relays := s.relays[i := Relay(r.cursor + 1, false, {}, {})], table := s.table - r.dead)
  }

  /** The state a list of actions leads to from the empty system, if each was enabled in turn. */
  ghost function Exec(run: seq<Action>): Option<State>
    decreases |run|
  {
    if run == [] then Some(INIT)
    else
      var s := Exec(run[..|run| - 1]);
      var a := run[|run| - 1];
      if s.Some? && Enabled(s.value, a) then Some(Apply(s.value, a)) else None
  }

  /** The last step of a run, in the form inductive proofs need it. */
  lemma LastStep(run: seq<Action>)
    requires run != [] && Exec(run).Some?
    ensures Exec(run[..|run| - 1]).Some?
    ensures Enabled(Exec(run[..|run| - 1]).value, run[|run| - 1])
    ensures Exec(run).value == Apply(Exec(run[..|run| - 1]).value, run[|run| - 1])
  {
  }

  lemma ExtendRun(run: seq<Action>, a: Action)
    requires Exec(run).Some? && Enabled(Exec(run).value, a)
    ensures Exec(run + [a]) == Some(Apply(Exec(run).value, a))
  {
    assert (run + [a])[..|run|] == run;
  }
}
