/** The deadlock of a full pool (pkg/pgpool/pool.go:49-75): that it is reached at every capacity,
    and what it stops. */
module Deadlock {
  import opened ByteStrings
  import opened Http
  import opened MessageTypes
  import opened Pools
  import opened HandlerState
  import opened Interleaving
  import opened Progress

  // ---------- what runs in a jam ----------

  predicate NoneRunning(calls: map<CallId, Call>, w: Which) {
    forall c <- calls :: calls[c].Running? ==> calls[c].w != w
  }

  /** `later` goes on from `ran` without another statement on database `w`. */
  ghost predicate NoMoreOn(ran: seq<Statement>, later: seq<Statement>, w: Which) {
    ran <= later && forall i :: |ran| <= i < |later| ==> later[i].w != w
  }

  lemma StepRunsElsewhere(g: World, call: Call, reachable: bool, db: DbOutcome, w: Which)
    requires (call.Running? ==> call.w != w) && PoolNeeded(call) != Some(w)
    ensures var (n, next) := Step(g, call, reachable, db);
            NoMoreOn(g.h.ran, n.h.ran, w) && (next.Running? ==> next.w != w)
  {
    hide PoolState.Acquire, PoolState.Release, Respond, Failure, Nothing, NotFound, PoolState.Find;
  }

  lemma JamStepRunsNothing(m: Machine, e: Event, w: Which)
    requires Inv(m) && Jammed(m, w) && Patient(e) && NoneRunning(m.calls, w)
    ensures NoneRunning(Apply(m, e).calls, w) && NoMoreOn(m.g.h.ran, Apply(m, e).g.h.ran, w)
  {
    hide Inv, Step, PoolState.Acquire, Full, LocksAfter;
    if e.Work? && e.c in m.calls && !Blocked(m.locks, m.calls[e.c]) {
      if e.c == m.locks[w] {
        HolderStep(m, w, e.db);
      } else {
        LockIsOthers(m, e.c, w);
        StepRunsElsewhere(m.g, m.calls[e.c], e.reachable, e.db, w);
      }
    }
  }

  /** While a pool is jammed, its database is given no statement once those that were already
      running are done: no session of the pool is served, whatever its clients do. */
  lemma {:induction false} JamRunsNothing(m: Machine, es: seq<Event>, w: Which)
    requires Inv(m) && Jammed(m, w) && AllPatient(es) && NoneRunning(m.calls, w)
    ensures NoMoreOn(m.g.h.ran, Run(m, es).g.h.ran, w)
    decreases |es|
  {
    hide Inv, Apply, Jammed, Stopped, Patient, NoneRunning;
    if es != [] {
      assert Patient(es[0]);
      JamStays(m, es[0], w);
      StoppedIsJammed(m, Apply(m, es[0]), w);
      ApplyKeepsInv(m, es[0]);
      JamStepRunsNothing(m, es[0], w);
      JamRunsNothing(Apply(m, es[0]), es[1..], w);
    }
  }

  // ---------- the way into it ----------

  function ProtocolOf(w: Which): Protocol {
    if w.PG? then PgSQL else MySQL
  }

  /** The server serves the protocol of this pool. */
  predicate Serves(h: HState, w: Which) {
    w.MY? ==> h.hasMy
  }

  /** A session is created without interruption. */
  function Create(c: CallId, w: Which, id: SessionId, db: DbOutcome): seq<Event> {
    [StartCreate(c, ProtocolOf(w), id)] + Turns(c, db)
  }

  function Turns(c: CallId, db: DbOutcome): seq<Event> {
    [Work(c, true, db), Work(c, true, db), Work(c, true, db)]
  }

  lemma RunCreate(m: Machine, c: CallId, w: Which, id: SessionId, db: DbOutcome)
    ensures var turn := Work(c, true, db);
            var m1 := Apply(m, StartCreate(c, ProtocolOf(w), id));
            Run(m, Create(c, w, id, db)) == Apply(Apply(Apply(m1, turn), turn), turn)
    ensures Run(m, Create(c, w, id, db)) == Run(Apply(m, StartCreate(c, ProtocolOf(w), id)), Turns(c, db))
  {
    hide Apply;
    var start, turn := StartCreate(c, ProtocolOf(w), id), Work(c, true, db);
    var m1 := Apply(m, start);
    var m2 := Apply(m1, turn);
    assert Create(c, w, id, db)[1..] == Turns(c, db);
    assert [turn, turn, turn][1..] == [turn, turn] && [turn, turn][1..] == [turn];
    RunOne(Apply(m2, turn), turn);
    assert Run(m2, [turn, turn]) == Run(Apply(m2, turn), [turn]);
    assert Run(m1, [turn, turn, turn]) == Run(m2, [turn, turn]);
  }

  lemma AsksForLock(m: Machine, c: CallId, w: Which, id: SessionId)
    requires c !in m.calls && id !in m.g.seen && Serves(m.g.h, w)
    ensures var n := Apply(m, StartCreate(c, ProtocolOf(w), id));
            n == m.(g := m.g.(seen := m.g.seen + {id}, home := m.g.home[id := w]),
                    calls := m.calls[c := Acquiring(w, id)])
  {
  }

  lemma TakesLock(m: Machine, c: CallId, w: Which, id: SessionId, db: DbOutcome)
    requires c in m.calls && m.calls[c] == Acquiring(w, id) && m.locks == map[]
    ensures Apply(m, Work(c, true, db)) == m.(calls := m.calls[c := Connecting(w, id)], locks := map[w := c])
  {
  }

  lemma TakesConnection(m: Machine, c: CallId, w: Which, id: SessionId, db: DbOutcome)
    requires c in m.calls && m.calls[c] == Connecting(w, id) && m.locks == map[w := c]
    requires id !in m.g.h.Pool(w).sessions && m.g.h.Pool(w).backing.open && !m.g.h.Pool(w).backing.InUse()
    ensures var n := Apply(m, Work(c, true, db));
            && n.calls == m.calls[c := Recording(w, id)] && n.locks == map[]
            && n.g.h == m.g.h.WithPool(w, m.g.h.Pool(w).Acquire(id, true).0)
            && n.g.seen == m.g.seen && n.g.known == m.g.known && n.g.released == m.g.released
  {
  }

  lemma Records(m: Machine, c: CallId, w: Which, id: SessionId, db: DbOutcome)
    requires c in m.calls && m.calls[c] == Recording(w, id) && m.locks == map[]
    ensures var n := Apply(m, Work(c, true, db));
            && n.calls == m.calls[c := Created(id)] && n.locks == map[] && n.g.h == m.g.h.RecordStep(w, id)
            && n.g.seen == m.g.seen && n.g.known == m.g.known + {id} && n.g.released == m.g.released
  {
  }

  lemma CreateRuns(m: Machine, c: CallId, w: Which, id: SessionId, db: DbOutcome)
    requires c !in m.calls && m.locks == map[] && id !in m.g.seen && Serves(m.g.h, w)
    requires id !in m.g.h.Pool(w).sessions && m.g.h.Pool(w).backing.open && !m.g.h.Pool(w).backing.InUse()
    ensures var n := Run(m, Create(c, w, id, db));
            && n.locks == map[] && n.calls == m.calls[c := Created(id)]
            && n.g.h.Pool(w) == m.g.h.Pool(w).Acquire(id, true).0 && n.g.h.hasMy == m.g.h.hasMy
            && n.g.seen == m.g.seen + {id} && n.g.known == m.g.known + {id} && n.g.released == m.g.released
  {
    hide Apply, Run, PoolState.Acquire;
    RunCreate(m, c, w, id, db);
    var turn := Work(c, true, db);
    AsksForLock(m, c, w, id);
    var m1 := Apply(m, StartCreate(c, ProtocolOf(w), id));
    TakesLock(m1, c, w, id, db);
    var m2 := Apply(m1, turn);
    TakesConnection(m2, c, w, id, db);
    var m3 := Apply(m2, turn);
    Records(m3, c, w, id, db);
    assert m.calls[c := Acquiring(w, id)][c := Connecting(w, id)][c := Recording(w, id)][c := Created(id)]
        == m.calls[c := Created(id)];
  }

  predicate Distinct(ids: seq<SessionId>) {
    forall i, j :: 0 <= i < j < |ids| ==> ids[i] != ids[j]
  }

  /** The sessions of `ids`, one after another. */
  function Fill(w: Which, ids: seq<SessionId>, db: DbOutcome): seq<Event> {
    if ids == [] then [] else Fill(w, ids[..|ids| - 1], db) + Create(|ids| - 1, w, ids[|ids| - 1], db)
  }

  /** The state in which just these sessions exist. */
  ghost predicate Filled(m: Machine, w: Which, ids: seq<SessionId>, capacity: nat) {
    && m.locks == map[] && Serves(m.g.h, w)
    && (forall c <- m.calls :: c < |ids| && m.calls[c].Created?)
    && (forall id :: id in m.g.seen <==> id in ids) && (forall id :: id in m.g.known <==> id in ids)
    && m.g.released == {}
    && (forall id :: id in m.g.h.Pool(w).sessions <==> id in ids) && |m.g.h.Pool(w).sessions| == |ids|
    && m.g.h.Pool(w).backing == Backing(|ids|, [], Some(capacity), true)
  }

  lemma FilledOneMore(m: Machine, w: Which, front: seq<SessionId>, id: SessionId, capacity: nat, db: DbOutcome)
    requires Filled(m, w, front, capacity) && |front| < capacity && id !in front
    ensures Filled(Run(m, Create(|front|, w, id, db)), w, front + [id], capacity)
  {
    hide Run;
    CreateRuns(m, |front|, w, id, db);
    AcquireAdds(m.g.h.Pool(w), id);
    hide PoolState.Acquire;
  }

  lemma AcquireAdds(p: PoolState, id: SessionId)
    requires id !in p.sessions && p.backing.open && !p.backing.InUse()
    ensures var q := p.Acquire(id, true).0;
            && (forall k :: k in q.sessions <==> k in p.sessions || k == id)
            && |q.sessions| == |p.sessions| + 1
            && q.backing == p.backing.(taken := p.backing.taken + 1)
  {
    var q := p.Acquire(id, true).0;
    assert q.sessions.Keys == p.sessions.Keys + {id};
    assert |q.sessions.Keys| == |p.sessions.Keys| + 1;
  }

  lemma {:induction false} FillRuns(w: Which, ids: seq<SessionId>, start: Machine, capacity: nat, db: DbOutcome)
    requires Distinct(ids) && |ids| <= capacity && Filled(start, w, [], capacity)
    ensures Filled(Run(start, Fill(w, ids, db)), w, ids, capacity)
  {
    hide Filled, Run;
    if ids == [] {
      RunNothing(start);
    } else {
      var front, id := ids[..|ids| - 1], ids[|ids| - 1];
      FillRuns(w, front, start, capacity, db);
      RunConcat(start, Fill(w, front, db), Create(|front|, w, id, db));
      FilledOneMore(Run(start, Fill(w, front, db)), w, front, id, capacity, db);
      assert front + [id] == ids;
    }
  }

  lemma RunNothing(m: Machine)
    ensures Run(m, []) == m
  {
  }

  function CapacityOf(w: Which, pgCapacity: Option<nat>, myCapacity: Option<nat>): Option<nat> {
    if w.PG? then pgCapacity else myCapacity
  }

  lemma EmptyIsFilled(w: Which, pgCapacity: Option<nat>, hasMy: bool, myCapacity: Option<nat>)
    requires CapacityOf(w, pgCapacity, myCapacity).Some? && (w.MY? ==> hasMy)
    ensures Filled(Start(pgCapacity, hasMy, myCapacity), w, [], CapacityOf(w, pgCapacity, myCapacity).value)
  {
    assert |Start(pgCapacity, hasMy, myCapacity).g.h.Pool(w).sessions| == 0;
  }

  /** One session more is asked for, and takes the lock. */
  function OneTooMany(c: CallId, w: Which, id: SessionId, db: DbOutcome): seq<Event> {
    [StartCreate(c, ProtocolOf(w), id), Work(c, true, db)]
  }

  lemma OneTooManyJams(m: Machine, w: Which, ids: seq<SessionId>, id: SessionId, db: DbOutcome)
    requires Filled(m, w, ids, |ids|) && id !in ids
    ensures var n := Run(m, OneTooMany(|ids|, w, id, db));
            Jammed(n, w) && NoneRunning(n.calls, w) && n.g.h == m.g.h && n.g.known == m.g.known && n.g.released == {}
  {
    hide Apply, Run;
    var a, b := StartCreate(|ids|, ProtocolOf(w), id), Work(|ids|, true, db);
    AsksForLock(m, |ids|, w, id);
    var m1 := Apply(m, a);
    TakesLock(m1, |ids|, w, id, db);
    RunTwo(m, a, b);
  }

  lemma RunTwo(m: Machine, a: Event, b: Event)
    ensures Run(m, [a, b]) == Apply(Apply(m, a), b)
  {
    hide Apply;
    assert [a, b][1..] == [b];
    RunOne(Apply(m, a), b);
    assert Run(m, [a, b]) == Run(Apply(m, a), [b]);
  }

  lemma FrontIsDistinct(ids: seq<SessionId>, id: SessionId)
    requires Distinct(ids + [id])
    ensures Distinct(ids) && id !in ids
  {
    assert (ids + [id])[|ids|] == id;
    assert forall i :: 0 <= i < |ids| ==> (ids + [id])[i] == ids[i];
  }

  /** The deadlock at capacity, for every capacity and both pools: as many sessions as the pool
      has connections are created and live, and one client more connects. From then on, whatever
      is called and however the calls interleave, as long as no context ends, no session of the
      pool is served a statement, none is released, and no call that needs the pool goes on. */
  lemma DeadlockAtCapacity(w: Which, ids: seq<SessionId>, id: SessionId, pgCapacity: Option<nat>, hasMy: bool,
                           myCapacity: Option<nat>, db: DbOutcome, es: seq<Event>)
    requires Distinct(ids + [id]) && AllPatient(es)
    requires CapacityOf(w, pgCapacity, myCapacity) == Some(|ids|) && (w.MY? ==> hasMy)
    ensures var m := Run(Start(pgCapacity, hasMy, myCapacity), Fill(w, ids, db) + OneTooMany(|ids|, w, id, db));
            && (forall i :: 0 <= i < |ids| ==>
              ids[i] in m.g.known && ids[i] !in m.g.released && ids[i] in m.g.h.Pool(w).sessions)
            && Jammed(m, w) && Stopped(m, Run(m, es), w) && NoMoreOn(m.g.h.ran, Run(m, es).g.h.ran, w)
  {
    hide Run, Start, Inv, Jammed, Stopped, NoMoreOn, Fill, Distinct;
    FrontIsDistinct(ids, id);
    var start := Start(pgCapacity, hasMy, myCapacity);
    EmptyIsFilled(w, pgCapacity, hasMy, myCapacity);
    FillRuns(w, ids, start, |ids|, db);
    var full := Run(start, Fill(w, ids, db));
    OneTooManyJams(full, w, ids, id, db);
    RunConcat(start, Fill(w, ids, db), OneTooMany(|ids|, w, id, db));
    var m := Run(full, OneTooMany(|ids|, w, id, db));
    StartIsOk(pgCapacity, hasMy, myCapacity);
    RunKeepsInv(start, Fill(w, ids, db));
    RunKeepsInv(full, OneTooMany(|ids|, w, id, db));
    FullPoolStops(m, es, w);
    JamRunsNothing(m, es, w);
  }

  // ---------- distinct ids ----------

  function NumberedId(k: nat): SessionId {
    LE(k, 36)
  }

  function NumberedIds(n: nat): (r: seq<SessionId>)
    ensures |r| == n
  {
    seq(n, i requires 0 <= i < n => NumberedId(i))
  }

  lemma {:induction false} Pow256Grows(k: nat)
    requires k >= 4
    ensures Pow256(k) >= TWO_32
  {
    if k == 4 {
      Pow256Values();
    } else {
      Pow256Grows(k - 1);
    }
  }

  lemma NumberedIdsAreDistinct(n: nat)
    requires n <= TWO_32
    ensures Distinct(NumberedIds(n))
    ensures n > 0 ==> NumberedIds(n)[..n - 1] == NumberedIds(n - 1)
  {
    hide LE, FromLE, Pow256;
    Pow256Grows(36);
    var ids := NumberedIds(n);
    forall i, j | 0 <= i < j < n ensures ids[i] != ids[j] {
      FromLEOfLE(i, 36);
      FromLEOfLE(j, 36);
    }
  }

  /** The capacity of the shipped configuration is 20: the 21st client stops the pool. */
  lemma TwentyFirstClientStopsThePool(hasMy: bool, myCapacity: Option<nat>, db: DbOutcome, es: seq<Event>)
    requires AllPatient(es)
    ensures var ids := NumberedIds(20);
            var way := Fill(PG, ids, db) + OneTooMany(20, PG, NumberedId(20), db);
            var m := Run(Start(Some(20), hasMy, myCapacity), way);
            Jammed(m, PG) && Stopped(m, Run(m, es), PG) && NoMoreOn(m.g.h.ran, Run(m, es).g.h.ran, PG)
  {
    hide Run, Start, Stopped, NoMoreOn, Fill, Full, Distinct, NumberedId;
    var ids := NumberedIds(20);
    NumberedIdsAreDistinct(21);
    assert ids + [NumberedId(20)] == NumberedIds(21);
    DeadlockAtCapacity(PG, ids, NumberedId(20), Some(20), hasMy, myCapacity, db, es);
  }
}
