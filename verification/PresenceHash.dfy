/** The Redis hash `presence:{project}` of one project: user id -> number of open connections.
    Every command on it is atomic; `leave` issues two of them (backend/app/ws/presence.py). */
module PresenceHash {
  import opened Common

  type Hash = map<UserId, int>

  function Stored(h: Hash, u: UserId): int {
    if u in h then h[u] else 0
  }

  /** HINCRBY: a missing field counts as 0, and the field always exists afterwards. */
  function HIncrBy(h: Hash, u: UserId, delta: int): Hash {
    h[u := Stored(h, u) + delta]
  }

  /** HDEL: removing a missing field is a no-op. */
  function HDel(h: Hash, u: UserId): Hash {
    h - {u}
  }

  /** What other handlers may do to the hash while one handler awaits. */
  datatype Command = Increment(user: UserId) | Decrement(user: UserId) | Delete(user: UserId)

  function Execute(h: Hash, c: Command): Hash {
    match c
    case Increment(u) => HIncrBy(h, u, 1)
    case Decrement(u) => HIncrBy(h, u, -1)
    case Delete(u) => HDel(h, u)
  }

  function ExecuteAll(h: Hash, cs: seq<Command>): Hash
    decreases |cs|
  {
    if cs == [] then h else Execute(ExecuteAll(h, cs[..|cs| - 1]), cs[|cs| - 1])
  }

  /** Increments minus decrements of `u` among `cs`, counted from the last deletion of `u` on. */
  function NetJoins(cs: seq<Command>, u: UserId): int
    decreases |cs|
  {
    if cs == [] then 0
    else
      var earlier := NetJoins(cs[..|cs| - 1], u);
      match cs[|cs| - 1]
      case Increment(v) => if u == v then earlier + 1 else earlier
      case Decrement(v) => if u == v then earlier - 1 else earlier
      case Delete(v) => if u == v then 0 else earlier
  }

  lemma {:induction false} InterferenceMovesCountByNetJoins(h: Hash, cs: seq<Command>, u: UserId)
    ensures Stored(ExecuteAll(h, cs), u) == (if Delete(u) in cs then 0 else Stored(h, u)) + NetJoins(cs, u)
    decreases |cs|
  {
    if cs != [] {
      var init, last := cs[..|cs| - 1], cs[|cs| - 1];
      assert cs == init + [last];
      InterferenceMovesCountByNetJoins(h, init, u);
    }
  }

  /** The state `leave` produces when `between` runs between its HINCRBY and its HDEL. */
  function AfterLeave(h: Hash, u: UserId, between: seq<Command>): Hash {
    var decremented := HIncrBy(h, u, -1);
    if Stored(decremented, u) <= 0 then HDel(ExecuteAll(decremented, between), u) else decremented
  }

  /** `leave` as it would act were its two commands one: decrement, delete, then the interference. */
  function AfterAtomicLeave(h: Hash, u: UserId, between: seq<Command>): Hash {
    var decremented := HIncrBy(h, u, -1);
    ExecuteAll(if Stored(decremented, u) <= 0 then HDel(decremented, u) else decremented, between)
  }

  /** A `leave` that reaches zero has the effect of an atomic one exactly when the joins and the
      leaves of the same user that slip in between its two commands, since the last deletion among
      them, cancel out. A surplus join is a live connection whose count the HDEL erases. */
  lemma LeaveIsAtomicIffNothingSlippedIn(h: Hash, u: UserId, between: seq<Command>)
    requires Stored(h, u) <= 1
    ensures Stored(AfterLeave(h, u, between), u) == Stored(AfterAtomicLeave(h, u, between), u)
       <==> NetJoins(between, u) == 0
  {
    InterferenceMovesCountByNetJoins(HDel(HIncrBy(h, u, -1), u), between, u);
  }

  /** backend/app/ws/presence.py on one project's hash. */
  class PresenceStore {
    var counts: Hash

    constructor ()
      ensures counts == map[]
    {
      counts := map[];
    }

    method Join(u: UserId) returns (count: int)
      modifies this
      ensures counts == HIncrBy(old(counts), u, 1)
      ensures count == Stored(old(counts), u) + 1 == counts[u]
    {
      counts := HIncrBy(counts, u, 1);
      count := counts[u];
    }

    /** `between` is what other handlers do while this one awaits between its two commands. */
    method Leave(u: UserId, between: seq<Command>) returns (count: int)
      modifies this
      ensures count == Stored(old(counts), u) - 1
      ensures counts == AfterLeave(old(counts), u, between)
      ensures count <= 0 ==> u !in counts
      ensures count > 0 ==> u in counts && counts[u] == count
    {
      counts := HIncrBy(counts, u, -1);
      count := counts[u];
      if count <= 0 {
        Interfere(between);
        counts := HDel(counts, u);
      }
    }

    method Interfere(between: seq<Command>)
      modifies this
      ensures counts == ExecuteAll(old(counts), between)
    {
      var i := 0;
      while i < |between|
        invariant 0 <= i <= |between|
        invariant counts == ExecuteAll(old(counts), between[..i])
      {
        assert between[..i + 1][..i] == between[..i];
        counts := Execute(counts, between[i]);
        i := i + 1;
      }
      assert between[..i] == between;
    }

    /** HKEYS lists the fields once each, in no particular order. */
    method OnlineUserIds() returns (ids: seq<UserId>)
      ensures Distinct(ids) && Elements(ids) == counts.Keys
    {
      ids := [];
      var rest := counts.Keys;
      while rest != {}
        invariant rest <= counts.Keys
        invariant Distinct(ids) && Elements(ids) == counts.Keys - rest
        decreases rest
      {
        var u :| u in rest;
        assert Elements(ids + [u]) == Elements(ids) + {u};
        ids, rest := ids + [u], rest - {u};
      }
    }
  }
}
