/** The long-running relay loop of one instance (backend/app/ws/redis_listener.py) delivering into
    the connection table. The endless subscription is a finite list of messages here: whatever it
    has yielded so far. */
module RedisListener {
  import opened Common
  import opened ConnectionManager

  datatype Message = Message(kind: string, channel: string, data: string)

  /** How channels and payloads are decoded; both may fail. */
  datatype Decoder<!Payload> = Decoder(
    projectOf: string -> Option<ProjectId>, payloadOf: string -> Option<Payload>)

  datatype Delivery<Payload> = Delivery(
    project: ProjectId, payload: Payload, attempts: seq<(UserId, Socket)>)

  predicate Relayable<Payload>(d: Decoder<Payload>, m: Message) {
    m.kind == "pmessage" && d.projectOf(m.channel).Some? && d.payloadOf(m.data).Some?
  }

  /** The payloads published for project `p` among the messages, in publish order. */
  function PublishedTo<Payload>(d: Decoder<Payload>, ms: seq<Message>, p: ProjectId): seq<Payload>
    decreases |ms|
  {
    if ms == [] then []
    else
      var last := ms[|ms| - 1];
      PublishedTo(d, ms[..|ms| - 1], p) +
      if Relayable(d, last) && d.projectOf(last.channel) == Some(p) then [d.payloadOf(last.data).value] else []
  }

  /** The payloads a socket was sent, in order. */
  function SentTo<Payload>(ds: seq<Delivery<Payload>>, p: ProjectId, u: UserId, w: Socket): seq<Payload>
    decreases |ds|
  {
    if ds == [] then []
    else
      var last := ds[|ds| - 1];
      SentTo(ds[..|ds| - 1], p, u, w) +
      if last.project == p && (u, w) in last.attempts then [last.payload] else []
  }

  lemma SentToAppend<Payload>(ds: seq<Delivery<Payload>>, d: Delivery<Payload>, p: ProjectId, u: UserId, w: Socket)
    ensures SentTo(ds + [d], p, u, w) ==
      SentTo(ds, p, u, w) + if d.project == p && (u, w) in d.attempts then [d.payload] else []
  {
    assert (ds + [d])[..|ds|] == ds;
  }

  /** The schedule leaves this entry alone: nobody removes it and no send raises. */
  ghost predicate Spares(schedule: nat -> Await, e: Entry) {
    forall n: nat :: !schedule(n).raises && Remove(e.0, e.1, e.2) !in schedule(n).ops
  }

  lemma {:induction false} SparedByOps(es: set<Entry>, ops: seq<TableOp>, e: Entry)
    requires e in es && Remove(e.0, e.1, e.2) !in ops
    ensures e in ApplyOps(es, ops)
    decreases |ops|
  {
    if ops != [] {
      assert ops == ops[..|ops| - 1] + [ops[|ops| - 1]];
      SparedByOps(es, ops[..|ops| - 1], e);
    }
  }

  lemma {:induction false} SparedBySchedule(es: set<Entry>, schedule: nat -> Await, n: nat, e: Entry)
    requires e in es && Spares(schedule, e)
    ensures e in Scheduled(es, schedule, n)
  {
    if n > 0 {
      SparedBySchedule(es, schedule, n - 1, e);
      SparedByOps(Scheduled(es, schedule, n - 1), schedule(n - 1).ops, e);
    }
  }

  ghost predicate NeverAdds(schedule: nat -> Await, e: Entry) {
    forall n: nat :: Add(e.0, e.1, e.2) !in schedule(n).ops
  }

  lemma {:induction false} AddedByOps(es: set<Entry>, ops: seq<TableOp>, e: Entry)
    requires (e in es || Add(e.0, e.1, e.2) in ops) && Remove(e.0, e.1, e.2) !in ops
    ensures e in ApplyOps(es, ops)
    decreases |ops|
  {
    if ops != [] {
      var init, last := ops[..|ops| - 1], ops[|ops| - 1];
      assert ops == init + [last];
      if last != Add(e.0, e.1, e.2) {
        AddedByOps(es, init, e);
      }
    }
  }

  lemma {:induction false} NotAddedByOps(es: set<Entry>, ops: seq<TableOp>, e: Entry)
    requires e !in es && Add(e.0, e.1, e.2) !in ops
    ensures e !in ApplyOps(es, ops)
    decreases |ops|
  {
    if ops != [] {
      var init, last := ops[..|ops| - 1], ops[|ops| - 1];
      assert ops == init + [last];
      NotAddedByOps(es, init, e);
    }
  }

  lemma {:induction false} NotAddedBySchedule(es: set<Entry>, schedule: nat -> Await, n: nat, e: Entry)
    requires e !in es && NeverAdds(schedule, e)
    ensures e !in Scheduled(es, schedule, n)
  {
    if n > 0 {
      NotAddedBySchedule(es, schedule, n - 1, e);
      NotAddedByOps(Scheduled(es, schedule, n - 1), schedule(n - 1).ops, e);
    }
  }

  /** The socket connects right before message `since` is taken up, or is there from the start, and then
      stays: nobody removes it and no send to it raises. */
  ghost predicate Attends(start: set<Entry>, between: nat -> seq<TableOp>, schedules: nat -> (nat -> Await),
                          e: Entry, since: nat) {
    && (if since == 0 && e in start then true else e !in start && Add(e.0, e.1, e.2) in between(since))
    && (forall k: nat :: k < since ==> Add(e.0, e.1, e.2) !in between(k) && NeverAdds(schedules(k), e))
    && (forall k: nat :: k >= since ==> Remove(e.0, e.1, e.2) !in between(k) && Spares(schedules(k), e))
  }

  /** What one delivery adds to what a socket is sent. */
  lemma OneDelivery<Payload>(ds: seq<Delivery<Payload>>, d: Delivery<Payload>, before: set<Entry>, after: set<Entry>,
                             schedule: nat -> Await, e: Entry)
    requires forall u, w :: (u, w) in d.attempts <==> (d.project, u, w) in before
    requires after == Scheduled(before, schedule, |d.attempts|) - Raised(d.project, d.attempts, schedule)
    ensures e !in before ==> SentTo(ds + [d], e.0, e.1, e.2) == SentTo(ds, e.0, e.1, e.2)
    ensures e !in before && NeverAdds(schedule, e) ==> e !in after
    ensures e in before ==>
      SentTo(ds + [d], e.0, e.1, e.2) == SentTo(ds, e.0, e.1, e.2) + (if d.project == e.0 then [d.payload] else [])
    ensures e in before && Spares(schedule, e) ==> e in after
  {
    SentToAppend(ds, d, e.0, e.1, e.2);
    assert SentTo(ds, e.0, e.1, e.2) + [] == SentTo(ds, e.0, e.1, e.2);
    if e !in before && NeverAdds(schedule, e) {
      NotAddedBySchedule(before, schedule, |d.attempts|, e);
    }
    if e in before && Spares(schedule, e) {
      SparedBySchedule(before, schedule, |d.attempts|, e);
      assert Raised(d.project, d.attempts, schedule) == {};
    }
  }

  lemma Arrives(es: set<Entry>, ops: seq<TableOp>, e: Entry)
    ensures e !in es && Add(e.0, e.1, e.2) !in ops ==> e !in ApplyOps(es, ops)
    ensures (e in es || Add(e.0, e.1, e.2) in ops) && Remove(e.0, e.1, e.2) !in ops ==> e in ApplyOps(es, ops)
  {
    if e !in es && Add(e.0, e.1, e.2) !in ops {
      NotAddedByOps(es, ops, e);
    }
    if (e in es || Add(e.0, e.1, e.2) in ops) && Remove(e.0, e.1, e.2) !in ops {
      AddedByOps(es, ops, e);
    }
  }

  /** How far a socket that connects before message `since` is when message `k` is next. */
  ghost predicate UpToDate<Payload>(d: Decoder<Payload>, messages: seq<Message>, k: nat,
                                    ds: seq<Delivery<Payload>>, here: bool, e: Entry, since: nat)
    requires k <= |messages|
  {
    if k > since then here && SentTo(ds, e.0, e.1, e.2) == PublishedTo(d, messages[since..k], e.0)
    else SentTo(ds, e.0, e.1, e.2) == [] && (k < since ==> !here)
  }

  /** Taking up message `k`, with the socket in the table exactly from `since` on. */
  lemma OneMessage<Payload>(d: Decoder<Payload>, messages: seq<Message>, k: nat, ds: seq<Delivery<Payload>>,
                            ds': seq<Delivery<Payload>>, here: bool, e: Entry, since: nat)
    requires k < |messages| && UpToDate(d, messages, k, ds, here, e, since)
    requires var m := messages[k];
      SentTo(ds', e.0, e.1, e.2) == SentTo(ds, e.0, e.1, e.2) +
        (if k >= since && Relayable(d, m) && d.projectOf(m.channel) == Some(e.0)
         then [d.payloadOf(m.data).value] else [])
    ensures UpToDate(d, messages, k + 1, ds', k >= since, e, since)
  {
    if k >= since {
      var ms := messages[since..k + 1];
      assert ms[..|ms| - 1] == messages[since..k] && ms[|ms| - 1] == messages[k];
      if k == since {
        assert ms[..0] == [] && PublishedTo(d, ms[..0], e.0) == [];
      }
    }
  }

  /** Relays every well-formed message of a known channel, in order, to the sockets its project has when
      it is taken up. Other coroutines change the table while the loop awaits a message (`between`) and
      at every send (`schedules`). A socket that connects and stays is sent exactly what was published to
      its project since it connected: no gap, no duplicate, same order. */
  method RunPatternListener<Payload>(messages: seq<Message>, d: Decoder<Payload>, table: ConnectionTable,
                                     between: nat -> seq<TableOp>, schedules: nat -> (nat -> Await),
                                     ghost e: Entry, ghost since: nat)
    returns (deliveries: seq<Delivery<Payload>>)
    requires table.Valid()
    modifies table
    ensures table.Valid()
    ensures Attends(old(Entries(table.connections)), between, schedules, e, since) && since < |messages| ==>
      e in Entries(table.connections) &&
      SentTo(deliveries, e.0, e.1, e.2) == PublishedTo(d, messages[since..], e.0)
  {
    deliveries := [];
    ghost var start := Entries(table.connections);
    ghost var attends := Attends(start, between, schedules, e, since);
    var k := 0;
    while k < |messages|
      invariant 0 <= k <= |messages| && table.Valid()
      invariant k == 0 ==> Entries(table.connections) == start
      invariant attends && k > 0 ==> (e in Entries(table.connections) <==> k > since)
      invariant attends ==> UpToDate(d, messages, k, deliveries, k > since, e, since)
    {
      Arrives(Entries(table.connections), between(k), e);
      table.RunOthers(between(k));
      assert attends ==> (e in Entries(table.connections) <==> k >= since);
      ghost var ds := deliveries;
      var delivered := Relay(messages[k], d, table, schedules(k), e);
      deliveries := deliveries + delivered;
      if attends {
        SentToConcat(ds, delivered, e.0, e.1, e.2);
        OneMessage(d, messages, k, ds, deliveries, k > since, e, since);
      }
      k := k + 1;
    }
    assert since < |messages| ==> messages[since..k] == messages[since..];
  }

  lemma SentToConcat<Payload>(ds: seq<Delivery<Payload>>, more: seq<Delivery<Payload>>,
                              p: ProjectId, u: UserId, w: Socket)
    requires |more| <= 1
    ensures SentTo(ds + more, p, u, w) == SentTo(ds, p, u, w) + SentTo(more, p, u, w)
  {
    if more == [] {
      assert ds + more == ds && SentTo(ds, p, u, w) + [] == SentTo(ds, p, u, w);
    } else {
      assert more == [more[0]] && SentTo<Payload>([], p, u, w) == [];
      SentToAppend(ds, more[0], p, u, w);
      SentToAppend([], more[0], p, u, w);
      assert [] + more == more;
    }
  }

  /** One turn of the loop: a message of another type, of an unknown channel or with a malformed payload is
      dropped; any other goes to the sockets of its project. */
  method Relay<Payload>(m: Message, d: Decoder<Payload>, table: ConnectionTable, schedule: nat -> Await,
                        ghost e: Entry) returns (delivered: seq<Delivery<Payload>>)
    requires table.Valid()
    modifies table
    ensures table.Valid() && |delivered| <= 1
    ensures delivered != [] <==>
      m.kind == "pmessage" && d.projectOf(m.channel).Some? && d.payloadOf(m.data).Some?
    ensures forall x :: x in delivered ==>
      d.projectOf(m.channel) == Some(x.project) && d.payloadOf(m.data) == Some(x.payload)
    ensures SentTo(delivered, e.0, e.1, e.2) ==
      if e in old(Entries(table.connections)) && Relayable(d, m) && d.projectOf(m.channel) == Some(e.0)
      then [d.payloadOf(m.data).value] else []
    ensures e !in old(Entries(table.connections)) && NeverAdds(schedule, e) ==> e !in Entries(table.connections)
    ensures e in old(Entries(table.connections)) && Spares(schedule, e) ==> e in Entries(table.connections)
  {
    delivered := [];
    if m.kind != "pmessage" {
      return;
    }
    var project := d.projectOf(m.channel);
    if project == None {
      return;
    }
    var payload := d.payloadOf(m.data);
    if payload == None {
      return;
    }
    ghost var before := Entries(table.connections);
    var attempts := table.SendToProject(project.value, schedule);
    delivered := [Delivery(project.value, payload.value, attempts)];
    OneDelivery([], delivered[0], before, Entries(table.connections), schedule, e);
    assert [] + delivered == delivered;
  }
}
