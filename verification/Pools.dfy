/** The two pool managers (pkg/pgpool/pool.go, pkg/mysqlpool/pool.go), which hold one
    connection of a library pool per session. */
module Pools {
  import opened ByteStrings
  import opened Http

  /** One taking of a connection out of the library pool: pgxpool.Conn or sql.Conn. The library
      hands the same physical connection out again after it was given back; that is another
      lease, and what is said of a lease is said of the time between its taking and its
      giving back. */
  type Lease = nat

  /** The library pool: how many leases were given out (they are numbered), which were given
      back and in what order, the capacity (None: no limit), and whether it is open. */
  datatype Backing = Backing(taken: nat, returned: seq<Lease>, capacity: Option<nat>, open: bool) {
    /** Every connection is in use. */
    predicate InUse() {
      capacity.Some? && taken - |returned| >= capacity.value
    }
  }

  /** What AcquireSession comes to. `Waits`: it has not returned; it waits, with the lock of the
      manager held, for a connection to be given back or for its context to end. */
  datatype Acquired = Got | Failed | Waits

  datatype PoolState = PoolState(sessions: map<SessionId, Lease>, backing: Backing) {

    // ---------- what the methods do ----------

    /** AcquireSession. `reachable`: the database accepts connections and the context of the
        call does not end. */
    function Acquire(id: SessionId, reachable: bool): (PoolState, Acquired) {
      if id in sessions then (this, Got)
      else if !backing.open || !reachable then (this, Failed)
      else if backing.InUse() then (this, Waits)
      else
        (PoolState(sessions[id := backing.taken], backing.(taken := backing.taken + 1)), Got)
    }

    function Release(id: SessionId): PoolState {
      if id in sessions then PoolState(sessions - {id}, backing.(returned := backing.returned + [sessions[id]]))
      else this
    }

    function ReleaseAll(order: seq<SessionId>): PoolState
      decreases |order|
    {
      if order == [] then this else Release(order[0]).ReleaseAll(order[1..])
    }

    function Closed(order: seq<SessionId>): PoolState {
      var p := ReleaseAll(order);
      p.(backing := p.backing.(open := false))
    }

    function Find(id: SessionId): Option<Lease> {
      if id in sessions then Some(sessions[id]) else None
    }

    // ---------- conservation ----------

    /** A lease in the map was taken, is not given back, and is held by one session. */
    ghost predicate HeldApart() {
      && (forall id <- sessions :: sessions[id] < backing.taken && sessions[id] !in backing.returned)
      && (forall a, b :: a in sessions && b in sessions && sessions[a] == sessions[b] ==> a == b)
    }

    /** A lease is given back once. */
    ghost predicate ReturnedApart() {
      && (forall i :: 0 <= i < |backing.returned| ==> backing.returned[i] < backing.taken)
      && (forall i, j :: 0 <= i < j < |backing.returned| ==> backing.returned[i] != backing.returned[j])
    }

    ghost predicate NothingLost() {
      forall l: Lease :: l < backing.taken ==>
        l in backing.returned || exists id :: id in sessions && sessions[id] == l
    }

    ghost predicate Counted() {
      && backing.taken == |sessions| + |backing.returned|
      && (backing.capacity.Some? ==> |sessions| <= backing.capacity.value)
      && (!backing.open ==> sessions == map[])
    }

    ghost predicate Valid() {
      HeldApart() && ReturnedApart() && NothingLost() && Counted()
    }
  }

  function Empty(capacity: Option<nat>): PoolState {
    PoolState(map[], Backing(0, [], capacity, true))
  }

  lemma AcquireKeepsValid(p: PoolState, id: SessionId, reachable: bool)
    requires p.Valid()
    ensures p.Acquire(id, reachable).0.Valid()
  {
    hide PoolState.HeldApart, PoolState.ReturnedApart, PoolState.NothingLost, PoolState.Counted;
    if p.Acquire(id, reachable).0 != p {
      TakingKeepsHeld(p, id);
      TakingKeepsReturned(p, id);
      AcquireLosesNothing(p, id);
      TakingCounts(p, id);
    }
  }

  /** The next connection is taken for the session. */
  function Taking(p: PoolState, id: SessionId): PoolState {
    PoolState(p.sessions[id := p.backing.taken], p.backing.(taken := p.backing.taken + 1))
  }

  lemma TakingKeepsHeld(p: PoolState, id: SessionId)
    requires id !in p.sessions && p.HeldApart() && p.ReturnedApart()
    ensures Taking(p, id).HeldApart()
  {
  }

  lemma TakingKeepsReturned(p: PoolState, id: SessionId)
    requires p.ReturnedApart()
    ensures Taking(p, id).ReturnedApart()
  {
  }

  lemma TakingCounts(p: PoolState, id: SessionId)
    requires id !in p.sessions && p.Counted() && p.backing.open && !p.backing.InUse()
    ensures Taking(p, id).Counted()
  {
    var q := Taking(p, id);
    assert q.sessions.Keys == p.sessions.Keys + {id};
    assert |q.sessions.Keys| == |p.sessions.Keys| + 1;
  }

  lemma AcquireLosesNothing(p: PoolState, id: SessionId)
    requires id !in p.sessions && p.NothingLost()
    ensures Taking(p, id).NothingLost()
  {
    var q := Taking(p, id);
    forall l: Lease | l < q.backing.taken && l !in q.backing.returned
      ensures exists k :: k in q.sessions && q.sessions[k] == l
    {
      if l == p.backing.taken {
        assert q.sessions[id] == l;
      } else {
        var k :| k in p.sessions && p.sessions[k] == l;
        assert k in q.sessions && q.sessions[k] == l;
      }
    }
  }

  lemma ReleaseKeepsValid(p: PoolState, id: SessionId)
    requires p.Valid()
    ensures p.Release(id).Valid()
    ensures id !in p.Release(id).sessions
  {
    hide PoolState.HeldApart, PoolState.ReturnedApart, PoolState.NothingLost, PoolState.Counted;
    if id in p.sessions {
      ReleaseKeepsHeld(p, id);
      ReleaseReturnsOnce(p, id);
      ReleaseLosesNothing(p, id);
      ReleaseCounts(p, id);
    }
  }

  lemma ReleaseKeepsHeld(p: PoolState, id: SessionId)
    requires p.HeldApart()
    ensures p.Release(id).HeldApart()
  {
  }

  lemma ReleaseReturnsOnce(p: PoolState, id: SessionId)
    requires p.HeldApart() && p.ReturnedApart()
    ensures p.Release(id).ReturnedApart()
  {
  }

  lemma ReleaseCounts(p: PoolState, id: SessionId)
    requires id in p.sessions && p.Counted()
    ensures p.Release(id).Counted()
  {
    var q := p.Release(id);
    assert q.sessions.Keys == p.sessions.Keys - {id};
    assert |q.sessions.Keys| == |p.sessions.Keys| - 1;
  }

  /** A lease that is in neither place after the release was in neither before. */
  lemma ReleaseLosesNothing(p: PoolState, id: SessionId)
    requires p.NothingLost()
    ensures p.Release(id).NothingLost()
  {
    var q := p.Release(id);
    forall l: Lease | l < q.backing.taken && l !in q.backing.returned
      ensures exists k :: k in q.sessions && q.sessions[k] == l
    {
      if id in p.sessions {
        assert q.backing.returned[|p.backing.returned|] == p.sessions[id];
        assert forall i :: 0 <= i < |p.backing.returned| ==> q.backing.returned[i] == p.backing.returned[i];
        var k :| k in p.sessions && p.sessions[k] == l;
        assert k in q.sessions && q.sessions[k] == l;
      }
    }
  }

  lemma ReleaseRemoves(p: PoolState, id: SessionId)
    ensures var q := p.Release(id);
            && q.sessions.Keys == p.sessions.Keys - {id} && q.backing.taken == p.backing.taken
            && q.backing.open == p.backing.open && q.backing.capacity == p.backing.capacity
  {
  }

  lemma {:induction false} ReleaseAllKeepsValid(p: PoolState, order: seq<SessionId>)
    requires p.Valid()
    ensures var q := p.ReleaseAll(order);
            && q.Valid() && q.sessions.Keys == p.sessions.Keys - (set id | id in order)
            && q.backing.taken == p.backing.taken && q.backing.open == p.backing.open
            && q.backing.capacity == p.backing.capacity
    decreases |order|
  {
    hide PoolState.Valid;
    if order != [] {
      ReleaseKeepsValid(p, order[0]);
      ReleaseRemoves(p, order[0]);
      ReleaseAllKeepsValid(p.Release(order[0]), order[1..]);
      hide PoolState.Release;
      assert (set id | id in order) == {order[0]} + (set id | id in order[1..]);
    }
  }

  // ---------- runs ----------

  datatype PoolOp =
    | AcquireOp(id: SessionId, reachable: bool)
    | ReleaseOp(id: SessionId)
    | CloseOp

  /** The states a call can lead to; Close goes through the map in some order. */
  ghost predicate Leads(p: PoolState, op: PoolOp, q: PoolState) {
    match op
    case AcquireOp(id, reachable) => q == p.Acquire(id, reachable).0
    case ReleaseOp(id) => q == p.Release(id)
    case CloseOp => exists order: seq<SessionId> :: (set id | id in order) == p.sessions.Keys && q == p.Closed(order)
  }

  ghost predicate IsRun(states: seq<PoolState>, ops: seq<PoolOp>) {
    |states| == |ops| + 1 && forall i :: 0 <= i < |ops| ==> Leads(states[i], ops[i], states[i + 1])
  }

  lemma LeadsKeepsValid(p: PoolState, op: PoolOp, q: PoolState)
    requires p.Valid() && Leads(p, op, q)
    ensures q.Valid()
    ensures op.CloseOp? ==> q.sessions == map[] && !q.backing.open && |q.backing.returned| == q.backing.taken
    ensures !p.backing.open ==> q.sessions == map[] && !q.backing.open
    ensures p.backing.returned <= q.backing.returned && p.backing.taken <= q.backing.taken
  {
    hide PoolState.Valid;
    ValidFacts(p);
    match op
    case AcquireOp(id, reachable) =>
      AcquireKeepsValid(p, id, reachable);
    case ReleaseOp(id) =>
      ReleaseKeepsValid(p, id);
    case CloseOp =>
      var order: seq<SessionId> :| (set id | id in order) == p.sessions.Keys && q == p.Closed(order);
      CloseKeepsValid(p, order);
  }

  lemma ValidFacts(p: PoolState)
    requires p.Valid()
    ensures !p.backing.open ==> p.sessions == map[]
    ensures p.backing.taken == |p.sessions| + |p.backing.returned|
  {
  }

  lemma CloseKeepsValid(p: PoolState, order: seq<SessionId>)
    requires p.Valid() && (set id | id in order) == p.sessions.Keys
    ensures var q := p.Closed(order);
            && q.Valid() && q.sessions == map[] && !q.backing.open && |q.backing.returned| == q.backing.taken
            && p.backing.returned <= q.backing.returned && p.backing.taken == q.backing.taken
  {
    ReleaseAllKeepsValid(p, order);
    ReleaseAllAppends(p, order);
    var q := p.ReleaseAll(order);
    assert q.sessions.Keys == {};
    assert q.sessions == map[];
  }

  lemma {:induction false} ReleaseAllAppends(p: PoolState, order: seq<SessionId>)
    ensures p.backing.returned <= p.ReleaseAll(order).backing.returned
    decreases |order|
  {
    if order != [] {
      ReleaseAllAppends(p.Release(order[0]), order[1..]);
    }
  }

  lemma EmptyIsValid(capacity: Option<nat>)
    ensures Empty(capacity).Valid()
  {
    assert |Empty(capacity).sessions| == 0;
  }

  lemma {:induction false} RunKeepsValid(states: seq<PoolState>, ops: seq<PoolOp>, capacity: Option<nat>, k: nat)
    requires IsRun(states, ops) && states[0] == Empty(capacity) && k < |states|
    ensures states[k].Valid()
  {
    EmptyIsValid(capacity);
    hide PoolState.Valid, Leads;
    if k > 0 {
      RunKeepsValid(states, ops, capacity, k - 1);
      LeadsKeepsValid(states[k - 1], ops[k - 1], states[k]);
    }
  }

  /** Conservation, over any sequence of AcquireSession, ReleaseSession and Close calls on a
      new pool manager: in every state each lease that was taken is held by exactly one
      session or was given back, once; the map stays within the capacity; and once the
      manager is closed it holds nothing, for good. */
  lemma PoolConservation(states: seq<PoolState>, ops: seq<PoolOp>, capacity: Option<nat>, k: nat)
    requires IsRun(states, ops) && states[0] == Empty(capacity) && k < |states|
    ensures states[k].Valid()
    ensures forall i :: 0 <= i < k && ops[i].CloseOp? ==>
              states[k].sessions == map[] && |states[k].backing.returned| == states[k].backing.taken
  {
    RunKeepsValid(states, ops, capacity, k);
    forall i | 0 <= i < k && ops[i].CloseOp?
      ensures states[k].sessions == map[]
    {
      hide PoolState.Valid, Leads;
      forall j | 0 <= j < k ensures states[j].Valid() {
        RunKeepsValid(states, ops, capacity, j);
      }
      ClosedStaysClosed(states, ops, i, k);
    }
  }

  lemma {:induction false} ClosedStaysClosed(states: seq<PoolState>, ops: seq<PoolOp>, i: nat, k: nat)
    requires IsRun(states, ops) && i < k < |states| && ops[i].CloseOp?
    requires forall j :: 0 <= j < k ==> states[j].Valid()
    ensures states[k].sessions == map[] && !states[k].backing.open
    decreases k
  {
    hide PoolState.Valid, Leads;
    if i + 1 < k {
      ClosedStaysClosed(states, ops, i, k - 1);
    }
    LeadsKeepsValid(states[k - 1], ops[k - 1], states[k]);
  }

  // ---------- cells ----------

  /** A database value, already printed; None is an SQL null. */
  function TextOf(v: Option<bytes>): bytes {
    match v
    case None => NULL_TEXT
    case Some(text) => text
  }

  function RowText(row: seq<Option<bytes>>): (r: seq<bytes>)
    ensures |r| == |row|
  {
    seq(|row|, i requires 0 <= i < |row| => TextOf(row[i]))
  }

  function RowsText(rows: seq<seq<Option<bytes>>>): (r: seq<seq<bytes>>)
    ensures |r| == |rows|
  {
    seq(|rows|, i requires 0 <= i < |rows| => RowText(rows[i]))
  }

  // ---------- the manager ----------

  class PoolManager {
    var sessions: map<SessionId, Lease>
    var pool: Backing

    function State(): PoolState
      reads this
    {
      PoolState(sessions, pool)
    }

    constructor (capacity: Option<nat>)
      ensures State() == Empty(capacity)
    {
      sessions := map[];
      pool := Backing(0, [], capacity, true);
    }

    /** Takes a connection for a session, unless it has one. On `Waits` the method of the
        source is still inside, with the lock, so none of the other methods can be called. */
    method AcquireSession(id: SessionId, reachable: bool) returns (r: Acquired)
      modifies this
      ensures (State(), r) == old(State()).Acquire(id, reachable)
    {
      if id in sessions {
        return Got;
      }
      if !pool.open || !reachable {
        return Failed;
      }
      if pool.InUse() {
        return Waits;
      }
      var conn := pool.taken;
      pool := pool.(taken := pool.taken + 1);
      sessions := sessions[id := conn];
      return Got;
    }

    method ReleaseSession(id: SessionId)
      modifies this
      ensures State() == old(State()).Release(id)
    {
      if id in sessions {
        pool := pool.(returned := pool.returned + [sessions[id]]);
        sessions := sessions - {id};
      }
    }

    method GetSessionConn(id: SessionId) returns (conn: Option<Lease>)
      ensures conn == State().Find(id)
    {
      if id in sessions {
        return Some(sessions[id]);
      }
      return None;
    }

    /** Gives back the connection of every session, in the order the map is gone through. */
    method Close() returns (ghost order: seq<SessionId>)
      modifies this
      ensures (set id | id in order) == old(sessions).Keys && State() == old(State()).Closed(order)
    {
      order := [];
      ghost var start := State();
      var ids := sessions.Keys;
      while ids != {}
        invariant ids == sessions.Keys
        invariant (set id | id in order) + ids == old(sessions).Keys
        invariant State() == start.ReleaseAll(order)
        decreases ids
      {
        var id :| id in ids;
        pool := pool.(returned := pool.returned + [sessions[id]]);
        sessions := sessions - {id};
        ids := ids - {id};
        ReleaseAllThen(start, order, id);
        order := order + [id];
      }
      pool := pool.(open := false);
    }

    /** The part of ExecSQL that turns database rows into texts. */
    static method RowsToText(rows: seq<seq<Option<bytes>>>) returns (texts: seq<seq<bytes>>)
      ensures texts == RowsText(rows)
    {
      texts := [];
      for r := 0 to |rows|
        invariant texts == RowsText(rows)[..r]
      {
        var row := new bytes[|rows[r]|];
        for i := 0 to |rows[r]|
          invariant row[..i] == RowText(rows[r])[..i]
        {
          if rows[r][i] == None {
            row[i] := NULL_TEXT;
          } else {
            row[i] := rows[r][i].value;
          }
        }
        assert row[..] == RowText(rows[r]);
        texts := texts + [row[..]];
      }
    }
  }

  lemma {:induction false} ReleaseAllThen(p: PoolState, order: seq<SessionId>, id: SessionId)
    ensures p.ReleaseAll(order + [id]) == p.ReleaseAll(order).Release(id)
    decreases |order|
  {
    if order == [] {
      assert p.ReleaseAll([id]) == p.Release(id).ReleaseAll([id][1..]);
    } else {
      assert (order + [id])[1..] == order[1..] + [id];
      ReleaseAllThen(p.Release(order[0]), order[1..], id);
    }
  }
}
