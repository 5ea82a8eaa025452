/** The per-process table of live sockets and its fan-out (backend/app/ws/connection_manager.py). */
module ConnectionManager {
  import opened Common

  datatype Socket = Socket(id: nat)
  type Entry = (ProjectId, UserId, Socket)

  datatype TableOp =
    | Add(project: ProjectId, user: UserId, socket: Socket)
    | Remove(project: ProjectId, user: UserId, socket: Socket)

  /** What happens at one `await websocket.send_json`: other coroutines change the table, and the
      send itself either succeeds or raises. */
  datatype Await = Await(ops: seq<TableOp>, raises: bool)

  type Table = map<ProjectId, map<UserId, set<Socket>>>

  /** The (project, user, socket) triples a nested table stands for. */
  ghost function Entries(t: Table): set<Entry> {
    set p, u, w | p in t && u in t[p] && w in t[p][u] :: (p, u, w)
  }

  ghost predicate Has(t: Table, p: ProjectId, u: UserId, w: Socket) {
    p in t && u in t[p] && w in t[p][u]
  }

  /** No empty inner container is left behind at either level. */
  ghost predicate NoEmptyRooms(t: Table) {
    forall p :: p in t ==> t[p] != map[] && forall u :: u in t[p] ==> t[p][u] != {}
  }

  /** Without empty containers the nested table carries exactly the information of its triples. */
  lemma TablesEqualIffEntriesEqual(t: Table, t': Table)
    requires NoEmptyRooms(t) && NoEmptyRooms(t')
    ensures t == t' <==> Entries(t) == Entries(t')
  {
    if Entries(t) == Entries(t') {
      RoomsFollowEntries(t, t');
      RoomsFollowEntries(t', t);
      forall p | p in t ensures t[p] == t'[p] {
        assert t[p].Keys == t'[p].Keys;
        forall u | u in t[p] ensures t[p][u] == t'[p][u] {
          assert forall w :: w in t[p][u] <==> (p, u, w) in Entries(t);
          assert forall w :: w in t'[p][u] <==> (p, u, w) in Entries(t');
        }
      }
    }
  }

  function RoomOf(t: Table, p: ProjectId): map<UserId, set<Socket>> {
    if p in t then t[p] else map[]
  }

  function SocketsOf(room: map<UserId, set<Socket>>, u: UserId): set<Socket> {
    if u in room then room[u] else {}
  }

  lemma EntriesAfterAdding(t: Table, p: ProjectId, u: UserId, w: Socket, t': Table)
    requires t' == t[p := RoomOf(t, p)[u := SocketsOf(RoomOf(t, p), u) + {w}]]
    ensures Entries(t') == Entries(t) + {(p, u, w)}
  {
    forall q, v, x ensures (q, v, x) in Entries(t') <==> (q, v, x) in Entries(t) + {(p, u, w)} {
      assert (q, v, x) in Entries(t') <==> Has(t', q, v, x);
      assert (q, v, x) in Entries(t) <==> Has(t, q, v, x);
    }
  }

  lemma EntriesAfterRemoving(t: Table, p: ProjectId, u: UserId, w: Socket,
                             room: map<UserId, set<Socket>>, t': Table)
    requires p in t && u in t[p]
    requires room == if t[p][u] - {w} == {} then t[p] - {u} else t[p][u := t[p][u] - {w}]
    requires t' == if room == map[] then t - {p} else t[p := room]
    ensures Entries(t') == Entries(t) - {(p, u, w)}
  {
    forall q, v, x ensures (q, v, x) in Entries(t') <==> (q, v, x) in Entries(t) - {(p, u, w)} {
      assert (q, v, x) in Entries(t') <==> Has(t', q, v, x);
      assert (q, v, x) in Entries(t) <==> Has(t, q, v, x);
      assert x in t[p][u] - {w} <==> x in t[p][u] && x != w;
      assert v in t[p] && v != u ==> v in room;
    }
  }

  lemma RoomsFollowEntries(t: Table, t': Table)
    requires NoEmptyRooms(t) && Entries(t) <= Entries(t')
    ensures forall p :: p in t ==> p in t' && t[p].Keys <= t'[p].Keys
  {
    forall p, u | p in t && u in t[p] ensures p in t' && u in t'[p] {
      var w :| w in t[p][u];
      assert (p, u, w) in Entries(t');
    }
    forall p | p in t ensures p in t' {
      var u :| u in t[p];
    }
  }

  ghost function ApplyOp(es: set<Entry>, op: TableOp): set<Entry> {
    match op
    case Add(p, u, w) => es + {(p, u, w)}
    case Remove(p, u, w) => es - {(p, u, w)}
  }

  ghost function ApplyOps(es: set<Entry>, ops: seq<TableOp>): set<Entry>
    decreases |ops|
  {
    if ops == [] then es else ApplyOp(ApplyOps(es, ops[..|ops| - 1]), ops[|ops| - 1])
  }

  /** The table changes of the first `n` awaits of a schedule. */
  ghost function Scheduled(es: set<Entry>, schedule: nat -> Await, n: nat): set<Entry> {
    if n == 0 then es else ApplyOps(Scheduled(es, schedule, n - 1), schedule(n - 1).ops)
  }

  /** The entries of `attempts` whose send raised. */
  ghost function Raised(project: ProjectId, attempts: seq<(UserId, Socket)>, schedule: nat -> Await): set<Entry> {
    set k | 0 <= k < |attempts| && schedule(k).raises :: (project, attempts[k].0, attempts[k].1)
  }

  ghost function EntriesOf(project: ProjectId, pairs: seq<(UserId, Socket)>): set<Entry> {
    set d | d in pairs :: (project, d.0, d.1)
  }

  function Pairs(user: UserId, sockets: seq<Socket>): (r: seq<(UserId, Socket)>)
    ensures |r| == |sockets| && forall k :: 0 <= k < |r| ==> r[k] == (user, sockets[k])
  {
    seq(|sockets|, k requires 0 <= k < |sockets| => (user, sockets[k]))
  }

  function Flatten(snapshot: seq<(UserId, seq<Socket>)>): seq<(UserId, Socket)>
    decreases |snapshot|
  {
    if snapshot == [] then []
    else
      var last := snapshot[|snapshot| - 1];
      Flatten(snapshot[..|snapshot| - 1]) + Pairs(last.0, last.1)
  }

  lemma FlattenAppend(snapshot: seq<(UserId, seq<Socket>)>, user: UserId, sockets: seq<Socket>)
    ensures Flatten(snapshot + [(user, sockets)]) == Flatten(snapshot) + Pairs(user, sockets)
  {
    assert (snapshot + [(user, sockets)])[..|snapshot|] == snapshot;
  }

  /** `list(sockets)`: the members of a set once each, in no particular order. */
  method ListOf(sockets: set<Socket>) returns (r: seq<Socket>)
    ensures Distinct(r) && forall w :: w in r <==> w in sockets
  {
    r := [];
    var rest := sockets;
    while rest != {}
      invariant rest <= sockets && Distinct(r)
      invariant forall w :: w in r <==> w in sockets - rest
      decreases rest
    {
      var w :| w in rest;
      assert w !in r;
      r, rest := r + [w], rest - {w};
    }
  }

  /** Both levels of a room copied into plain lists. */
  method SnapshotOf(room: map<UserId, set<Socket>>) returns (snapshot: seq<(UserId, seq<Socket>)>)
    ensures Distinct(Flatten(snapshot))
    ensures forall u, w :: (u, w) in Flatten(snapshot) <==> u in room && w in room[u]
  {
    snapshot := [];
    var rest := room.Keys;
    while rest != {}
      invariant rest <= room.Keys
      invariant Distinct(Flatten(snapshot))
      invariant forall u, w :: (u, w) in Flatten(snapshot) <==> u in room.Keys - rest && w in room[u]
      decreases rest
    {
      var user :| user in rest;
      var sockets := ListOf(room[user]);
      FlattenAppend(snapshot, user, sockets);
      snapshot, rest := snapshot + [(user, sockets)], rest - {user};
    }
  }

  class ConnectionTable {
    var connections: Table

    ghost predicate Valid()
      reads this
    {
      NoEmptyRooms(connections)
    }

    constructor ()
      ensures Valid() && Entries(connections) == {}
    {
      connections := map[];
    }

    method Connect(p: ProjectId, u: UserId, w: Socket)
      requires Valid()
      modifies this
      ensures Valid() && Entries(connections) == old(Entries(connections)) + {(p, u, w)}
    {
      var room := RoomOf(connections, p);
      var sockets := SocketsOf(room, u);
      EntriesAfterAdding(connections, p, u, w, connections[p := room[u := sockets + {w}]]);
      connections := connections[p := room[u := sockets + {w}]];
    }

    method Disconnect(p: ProjectId, u: UserId, w: Socket)
      requires Valid()
      modifies this
      ensures Valid() && Entries(connections) == old(Entries(connections)) - {(p, u, w)}
    {
      if p !in connections {
        return;
      }
      var room: map<UserId, set<Socket>> := connections[p];
      if u !in room {
        return;
      }
      var sockets := room[u] - {w};
      room := if sockets == {} then room - {u} else room[u := sockets];
      var t' := if room == map[] then connections - {p} else connections[p := room];
      EntriesAfterRemoving(connections, p, u, w, room, t');
      connections := t';
    }

    method OnlineUserIds(p: ProjectId) returns (ids: set<UserId>)
      requires Valid()
      ensures forall u :: u in ids <==> exists w :: (p, u, w) in Entries(connections)
    {
      ids := if p in connections then connections[p].Keys else {};
      forall u | u in ids ensures exists w :: (p, u, w) in Entries(connections) {
        var w :| w in connections[p][u];
        assert (p, u, w) in Entries(connections);
      }
    }

    /** What other coroutines do to the table while this one awaits. */
    method RunOthers(ops: seq<TableOp>)
      requires Valid()
      modifies this
      ensures Valid() && Entries(connections) == ApplyOps(old(Entries(connections)), ops)
    {
      var i := 0;
      while i < |ops|
        invariant 0 <= i <= |ops|
        invariant Valid() && Entries(connections) == ApplyOps(old(Entries(connections)), ops[..i])
      {
        assert ops[..i + 1][..i] == ops[..i];
        match ops[i] {
          case Add(p, u, w) => Connect(p, u, w);
          case Remove(p, u, w) => Disconnect(p, u, w);
        }
        i := i + 1;
      }
      assert ops[..i] == ops;
    }

    /** Tries every socket the project had at the start exactly once, whatever `schedule` does to the
        table at each await, and then drops exactly the sockets whose send raised. */
    method SendToProject(p: ProjectId, schedule: nat -> Await) returns (attempts: seq<(UserId, Socket)>)
      requires Valid()
      modifies this
      ensures Valid()
      ensures Distinct(attempts)
      ensures forall u, w :: (u, w) in attempts <==> (p, u, w) in old(Entries(connections))
      ensures Entries(connections) ==
        Scheduled(old(Entries(connections)), schedule, |attempts|) - Raised(p, attempts, schedule)
    {
      attempts := [];
      if p !in connections {
        return;
      }
      var snapshot := SnapshotOf(connections[p]);
      ghost var start := Entries(connections);
      var dead: seq<(UserId, Socket)> := [];
      var i := 0;
      while i < |snapshot|
        invariant 0 <= i <= |snapshot|
        invariant Valid() && attempts == Flatten(snapshot[..i])
        invariant Tried(p, schedule, start, Entries(connections), attempts, dead)
      {
        var (user, sockets) := snapshot[i];
        var j := 0;
        while j < |sockets|
          invariant 0 <= j <= |sockets|
          invariant Valid() && attempts == Flatten(snapshot[..i]) + Pairs(user, sockets[..j])
          invariant Tried(p, schedule, start, Entries(connections), attempts, dead)
        {
          var send := schedule(|attempts|);
          TriedStep(p, schedule, start, Entries(connections), attempts, dead, (user, sockets[j]));
          RunOthers(send.ops);
          if send.raises {
            dead := dead + [(user, sockets[j])];
          }
          assert Pairs(user, sockets[..j + 1]) == Pairs(user, sockets[..j]) + [(user, sockets[j])];
          attempts := attempts + [(user, sockets[j])];
          j := j + 1;
        }
        assert sockets[..j] == sockets && snapshot[..i + 1][..i] == snapshot[..i];
        i := i + 1;
      }
      assert snapshot[..i] == snapshot;
      DropDead(p, dead);
    }

    method DropDead(p: ProjectId, dead: seq<(UserId, Socket)>)
      requires Valid()
      modifies this
      ensures Valid() && Entries(connections) == old(Entries(connections)) - EntriesOf(p, dead)
    {
      var k := 0;
      while k < |dead|
        invariant 0 <= k <= |dead|
        invariant Valid()
        invariant Entries(connections) == old(Entries(connections)) - EntriesOf(p, dead[..k])
      {
        assert dead[..k + 1] == dead[..k] + [dead[k]];
        EntriesOfAppend(p, dead[..k], dead[k]);
        Disconnect(p, dead[k].0, dead[k].1);
        k := k + 1;
      }
      assert dead[..k] == dead;
    }
  }

  /** After some attempts: the schedule has run up to here, and `dead` lists the failures. */
  ghost predicate Tried(p: ProjectId, schedule: nat -> Await, start: set<Entry>, now: set<Entry>,
                        attempts: seq<(UserId, Socket)>, dead: seq<(UserId, Socket)>)
  {
    now == Scheduled(start, schedule, |attempts|) && EntriesOf(p, dead) == Raised(p, attempts, schedule)
  }

  lemma TriedStep(p: ProjectId, schedule: nat -> Await, start: set<Entry>, now: set<Entry>,
                  attempts: seq<(UserId, Socket)>, dead: seq<(UserId, Socket)>, next: (UserId, Socket))
    requires Tried(p, schedule, start, now, attempts, dead)
    ensures Tried(p, schedule, start, ApplyOps(now, schedule(|attempts|).ops), attempts + [next],
                  if schedule(|attempts|).raises then dead + [next] else dead)
  {
    RaisedAppend(p, attempts, next, schedule);
    EntriesOfAppend(p, dead, next);
  }

  lemma EntriesOfAppend(p: ProjectId, pairs: seq<(UserId, Socket)>, last: (UserId, Socket))
    ensures EntriesOf(p, pairs + [last]) == EntriesOf(p, pairs) + {(p, last.0, last.1)}
  {
    assert forall d :: d in pairs + [last] <==> d in pairs || d == last;
  }

  lemma RaisedAppend(p: ProjectId, attempts: seq<(UserId, Socket)>, last: (UserId, Socket), schedule: nat -> Await)
    ensures Raised(p, attempts + [last], schedule) ==
      Raised(p, attempts, schedule) + if schedule(|attempts|).raises then {(p, last.0, last.1)} else {}
  {
    var longer := attempts + [last];
    forall e | e in Raised(p, attempts, schedule) ensures e in Raised(p, longer, schedule) {
      var k :| 0 <= k < |attempts| && schedule(k).raises && e == (p, attempts[k].0, attempts[k].1);
      assert longer[k] == attempts[k];
    }
    if schedule(|attempts|).raises {
      assert longer[|attempts|] == last;
    }
  }
}
