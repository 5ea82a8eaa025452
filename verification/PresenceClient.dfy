/** The browser's side of presence: the socket callback of the project page folds the snapshot and
    the later joined/left events into an array of online user ids
    (frontend/src/pages/ProjectPage.tsx). */
module PresenceClient {
  import opened Common
  import opened PresenceProtocol

  datatype ClientMessage = Snapshot(ids: seq<UserId>) | Relayed(event: Event)

  function Without(ids: seq<UserId>, u: UserId): (r: seq<UserId>)
    ensures forall v :: v in r <==> v in ids && v != u
  {
    if ids == [] then []
    else if ids[0] == u then Without(ids[1..], u)
    else [ids[0]] + Without(ids[1..], u)
  }

  function OnMessage(ids: seq<UserId>, m: ClientMessage): seq<UserId> {
    match m
    case Snapshot(list) => list
    case Relayed(Joined(u)) => if u in ids then ids else ids + [u]
    case Relayed(Left(u)) => Without(ids, u)
    case Relayed(Other(_)) => ids
  }

  function OnMessages(ids: seq<UserId>, ms: seq<ClientMessage>): seq<UserId>
    decreases |ms|
  {
    if ms == [] then ids else OnMessage(OnMessages(ids, ms[..|ms| - 1]), ms[|ms| - 1])
  }

  function Wrap(es: seq<Event>): (ms: seq<ClientMessage>)
    ensures |ms| == |es| && forall k :: 0 <= k < |es| ==> ms[k] == Relayed(es[k])
  {
    seq(|es|, k requires 0 <= k < |es| => Relayed(es[k]))
  }

  /** Everything a handler's socket received, in order. */
  function Inbox(c: Handler): seq<ClientMessage> {
    Wrap(c.before) + (if c.snapshot.Some? then [Snapshot(c.snapshot.value)] else []) + Wrap(c.after)
  }

  /** The online list the page holds after its inbox; it starts empty. */
  function View(c: Handler): seq<UserId> {
    OnMessages([], Inbox(c))
  }

  /** What the last joined/left event about `u` says, if there is one. */
  function LastDelta(es: seq<Event>, u: UserId): Option<bool>
    decreases |es|
  {
    if es == [] then None
    else if es[|es| - 1] == Joined(u) then Some(true)
    else if es[|es| - 1] == Left(u) then Some(false)
    else LastDelta(es[..|es| - 1], u)
  }

  predicate Overlay(delta: Option<bool>, base: bool) {
    if delta.Some? then delta.value else base
  }

  lemma {:induction false} LastDeltaConcat(a: seq<Event>, b: seq<Event>, u: UserId)
    ensures LastDelta(a + b, u) == if LastDelta(b, u).Some? then LastDelta(b, u) else LastDelta(a, u)
    decreases |b|
  {
    if b == [] {
      assert a + b == a;
    } else {
      assert (a + b)[..|a + b| - 1] == a + b[..|b| - 1];
      LastDeltaConcat(a, b[..|b| - 1], u);
    }
  }

  lemma {:induction false} OnMessagesConcat(ids: seq<UserId>, a: seq<ClientMessage>, b: seq<ClientMessage>)
    ensures OnMessages(ids, a + b) == OnMessages(OnMessages(ids, a), b)
    decreases |b|
  {
    if b == [] {
      assert a + b == a;
    } else {
      assert (a + b)[..|a + b| - 1] == a + b[..|b| - 1];
      OnMessagesConcat(ids, a, b[..|b| - 1]);
    }
  }

  lemma {:induction false} FoldMembership(ids: seq<UserId>, es: seq<Event>, u: UserId)
    ensures u in OnMessages(ids, Wrap(es)) <==> Overlay(LastDelta(es, u), u in ids)
    decreases |es|
  {
    if es != [] {
      assert Wrap(es)[..|es| - 1] == Wrap(es[..|es| - 1]);
      FoldMembership(ids, es[..|es| - 1], u);
    }
  }

  /** Once the snapshot has arrived, the page shows exactly the snapshot overlaid with the events
      that came after it; whatever came before is overwritten. */
  lemma ViewAfterSnapshot(c: Handler, u: UserId)
    requires c.snapshot.Some?
    ensures u in View(c) <==> Overlay(LastDelta(c.after, u), u in c.snapshot.value)
  {
    var head := Wrap(c.before) + [Snapshot(c.snapshot.value)];
    assert head[..|head| - 1] == Wrap(c.before);
    OnMessagesConcat([], head, Wrap(c.after));
    FoldMembership(c.snapshot.value, c.after, u);
  }

  lemma {:induction false} WithoutDistinct(ids: seq<UserId>, u: UserId)
    requires Distinct(ids)
    ensures Distinct(Without(ids, u))
  {
    if ids != [] {
      assert forall i, j :: 0 <= i < j < |ids[1..]| ==> ids[1..][i] == ids[i + 1] && ids[1..][j] == ids[j + 1];
      WithoutDistinct(ids[1..], u);
      assert ids[0] !in ids[1..];
    }
  }

  /** The callback never lists a user twice, provided each snapshot lists its users once. */
  lemma {:induction false} ViewsListUsersOnce(ids: seq<UserId>, ms: seq<ClientMessage>)
    requires Distinct(ids)
    requires forall k :: 0 <= k < |ms| && ms[k].Snapshot? ==> Distinct(ms[k].ids)
    ensures Distinct(OnMessages(ids, ms))
    decreases |ms|
  {
    if ms != [] {
      ViewsListUsersOnce(ids, ms[..|ms| - 1]);
      var last, view := ms[|ms| - 1], OnMessages(ids, ms[..|ms| - 1]);
      if last.Relayed? && last.event.Left? {
        WithoutDistinct(view, last.event.user);
      }
    }
  }
}
