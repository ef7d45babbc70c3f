/** Which calls can move. AcquireSession keeps the lock of its pool while it waits for a
    connection, and giving one back needs that lock (pkg/pgpool/pool.go, pkg/mysqlpool/pool.go):
    an acquire that takes the lock of a full pool stops the pool for good, unless its context
    ends. */
module Progress {
  import opened ByteStrings
  import opened Http
  import opened MessageTypes
  import opened Pools
  import opened HandlerState
  import opened Interleaving

  // ---------- full pools ----------

  /** The map has reached the capacity of the pool. */
  predicate Full(p: PoolState) {
    p.backing.open && p.backing.capacity.Some? && |p.sessions| >= p.backing.capacity.value
  }

  /** A call is inside AcquireSession of a full pool. */
  predicate Jammed(m: Machine, w: Which) {
    w in m.locks && Full(m.g.h.Pool(w))
  }

  predicate NoJam(m: Machine) {
    !Jammed(m, PG) && !Jammed(m, MY)
  }

  /** No database is out of reach and no context ends. */
  predicate Patient(e: Event) {
    e.Work? ==> e.reachable
  }

  predicate AllPatient(es: seq<Event>) {
    forall i :: 0 <= i < |es| ==> Patient(es[i])
  }

  /** Steps of calls in flight, no call of which has its context end. */
  predicate OnlyWork(es: seq<Event>) {
    forall i :: 0 <= i < |es| ==> es[i].Work? && es[i].reachable
  }

  lemma InUseIsFull(p: PoolState)
    requires p.Valid()
    ensures p.backing.open && p.backing.InUse() <==> Full(p)
  {
  }

  lemma HolderIs(m: Machine, w: Which)
    requires Inv(m) && w in m.locks
    ensures m.locks[w] in m.calls && m.calls[m.locks[w]].Connecting? && m.calls[m.locks[w]].w == w
    ensures m.calls[m.locks[w]].id !in m.g.h.Pool(w).sessions && m.g.h.Pool(w).Valid()
  {
    hide PoolState.Valid, HeldOk, CreatesOk, HomeOk, LiveOk, ReleasedOk, TakenOk, OnceOk, RanOk, KnownOk, IdsOk;
    assert CallOk(m.g, m.calls[m.locks[w]]);
  }

  /** The two sides of waiting with the lock: a full pool keeps the call there; in any other it
      leaves AcquireSession with its next step, and the lock is free. */
  lemma HolderStep(m: Machine, w: Which, db: DbOutcome)
    requires Inv(m) && w in m.locks
    ensures var n := Apply(m, Work(m.locks[w], true, db));
            && m.locks[w] in n.calls
            && if Full(m.g.h.Pool(w)) then n == m
               else w !in n.locks && !n.calls[m.locks[w]].Connecting? && n.locks == m.locks - {w}
  {
    hide Inv, PoolState.Valid;
    HolderIs(m, w);
    InUseIsFull(m.g.h.Pool(w));
    var call := m.calls[m.locks[w]];
    assert m.calls[m.locks[w] := call] == m.calls;
  }

  // ---------- a jam ----------

  /** The part of a step that concerns one pool: only a call that needs the pool touches it. */
  lemma StepOfPool(g: World, call: Call, reachable: bool, db: DbOutcome, w: Which)
    requires PoolNeeded(call) != Some(w)
    ensures Step(g, call, reachable, db).0.h.Pool(w) == g.h.Pool(w)
  {
    hide PoolState.Acquire, PoolState.Release, Respond, NotFound, Nothing, Failure;
  }

  /** While a jam lasts the pool does not change and no call that needs it moves. */
  ghost predicate Stopped(m: Machine, n: Machine, w: Which) {
    && w in m.locks && w in n.locks && n.locks[w] == m.locks[w] && n.g.h.Pool(w) == m.g.h.Pool(w)
    && (forall c <- m.calls :: PoolNeeded(m.calls[c]) == Some(w) ==> c in n.calls && n.calls[c] == m.calls[c])
  }

  lemma JamStays(m: Machine, e: Event, w: Which)
    requires Inv(m) && Jammed(m, w) && Patient(e)
    ensures Stopped(m, Apply(m, e), w)
  {
    hide Inv, Step, PoolState.Acquire;
    if e.Work? && e.c in m.calls && !Blocked(m.locks, m.calls[e.c]) {
      if e.c == m.locks[w] {
        HolderStep(m, w, e.db);
      } else {
        LockIsOthers(m, e.c, w);
        StepOfPool(m.g, m.calls[e.c], e.reachable, e.db, w);
        StepOfLocks(m.g, m.calls[e.c], e.reachable, e.db);
      }
    }
  }

  lemma LockIsOthers(m: Machine, c: CallId, w: Which)
    requires Inv(m) && w in m.locks && c in m.calls && c != m.locks[w] && !Blocked(m.locks, m.calls[c])
    ensures PoolNeeded(m.calls[c]) != Some(w)
  {
    hide WorldOk, HeldOk, CallsOk, CreatesOk;
  }

  lemma StoppedStays(m: Machine, n: Machine, o: Machine, w: Which)
    requires Stopped(m, n, w) && Stopped(n, o, w)
    ensures Stopped(m, o, w)
  {
    hide PoolNeeded;
  }

  lemma StoppedStarts(m: Machine, w: Which)
    requires Jammed(m, w)
    ensures Stopped(m, m, w)
  {
  }

  lemma StoppedIsJammed(m: Machine, n: Machine, w: Which)
    requires Jammed(m, w) && Stopped(m, n, w)
    ensures Jammed(n, w)
  {
  }

  /** The deadlock: once an acquire waits at capacity, then whatever is called and whoever moves,
      as long as no context ends the acquire stays where it is, the pool stays as it is, and no
      call that needs the pool (to look a connection up, to release one or to acquire one) ever
      takes that step. */
  lemma {:induction false} FullPoolStops(m: Machine, es: seq<Event>, w: Which)
    requires Inv(m) && Jammed(m, w) && AllPatient(es)
    ensures Jammed(Run(m, es), w) && Stopped(m, Run(m, es), w)
    decreases |es|
  {
    hide Inv, Apply, Jammed, Stopped, Patient;
    if es == [] {
      StoppedStarts(m, w);
    } else {
      assert Patient(es[0]);
      var n := Apply(m, es[0]);
      JamStays(m, es[0], w);
      StoppedIsJammed(m, n, w);
      ApplyKeepsInv(m, es[0]);
      FullPoolStops(n, es[1..], w);
      StoppedStays(m, n, Run(n, es[1..]), w);
    }
  }

  /** The turns that let call `c` take its pool step: the holder of the lock first. */
  function Turns(m: Machine, c: CallId, db: DbOutcome): seq<Event> {
    if c in m.calls && Blocked(m.locks, m.calls[c])
    then [Work(m.locks[PoolNeeded(m.calls[c]).value], true, db), Work(c, true, db)]
    else [Work(c, true, db)]
  }

  /** The exact condition for one pool step: a call can take it, in some schedule in which no
      context ends, if and only if no acquire is inside the full pool. */
  lemma PoolStepExactlyWhen(m: Machine, c: CallId, w: Which, db: DbOutcome)
    requires Inv(m) && c in m.calls && PoolNeeded(m.calls[c]) == Some(w)
    ensures (exists es :: AllPatient(es) && c in Run(m, es).calls && Run(m, es).calls[c] != m.calls[c]) <==>
            !Jammed(m, w)
  {
    hide Inv, Run, Jammed, StepsLeft, PoolNeeded;
    if Jammed(m, w) {
      forall es | AllPatient(es) ensures c in Run(m, es).calls && Run(m, es).calls[c] == m.calls[c] {
        FullPoolStops(m, es, w);
      }
    } else {
      TurnsMove(m, c, w, db);
      TurnsArePatient(m, c, db);
    }
  }

  lemma TurnsArePatient(m: Machine, c: CallId, db: DbOutcome)
    ensures AllPatient(Turns(m, c, db))
  {
    hide Blocked;
  }

  lemma {:induction false} TurnsMove(m: Machine, c: CallId, w: Which, db: DbOutcome)
    requires Inv(m) && c in m.calls && PoolNeeded(m.calls[c]) == Some(w) && !Jammed(m, w)
    ensures c in Run(m, Turns(m, c, db)).calls && StepsLeft(Run(m, Turns(m, c, db)).calls[c]) < StepsLeft(m.calls[c])
  {
    hide Inv, Apply, StepsLeft, PoolNeeded, Full, Blocked;
    var own := Work(c, true, db);
    NeedsPool(m.locks, m.calls[c], w);
    if Blocked(m.locks, m.calls[c]) {
      var first := Work(m.locks[w], true, db);
      HolderIs(m, w);
      HolderStep(m, w, db);
      ApplyKeepsInv(m, first);
      OthersStay(m, first, c);
      var n := Apply(m, first);
      NeedsPool(n.locks, n.calls[c], w);
      FreeMoves(n, c, db);
      RunOne(n, own);
      assert [first, own][1..] == [own];
      assert Run(m, [first, own]) == Run(n, [own]);
    } else {
      FreeMoves(m, c, db);
      RunOne(m, own);
    }
  }

  lemma NeedsPool(locks: map<Which, CallId>, call: Call, w: Which)
    requires PoolNeeded(call) == Some(w)
    ensures StepsLeft(call) > 0 && (call.Connecting? ==> call.w == w)
    ensures Blocked(locks, call) <==> !call.Connecting? && w in locks
  {
  }

  lemma RunOne(m: Machine, e: Event)
    ensures Run(m, [e]) == Apply(m, e)
  {
    hide Apply;
    assert [e][1..] == [];
    assert Run(Apply(m, e), []) == Apply(m, e);
  }

  lemma OthersStay(m: Machine, e: Event, c: CallId)
    requires c in m.calls && (e.Work? ==> e.c != c)
    ensures c in Apply(m, e).calls && Apply(m, e).calls[c] == m.calls[c]
  {
    hide Step, Blocked, LocksAfter;
  }

  // ---------- steps left ----------

  /** The most steps a call still takes. */
  function StepsLeft(call: Call): nat {
    match call
    case Acquiring(_, _) => 3
    case Connecting(_, _) => 2
    case Recording(_, _) => 1
    case Asked(_, _, _) => 4
    case LookingUp(_, _) => 3
    case Finding(_, _, _) => 2
    case Running(_, _, _, _) => 1
    case Closing(_) => 4
    case Releasing(_, _) => 2
    case ReleasingPg(_) => 3
    case ReleasingMy(_) => 2
    case Forgetting(_) => 1
    case _ => 0
  }

  lemma StepCounts(g: World, call: Call, reachable: bool, db: DbOutcome)
    ensures var next := Step(g, call, reachable, db).1;
            StepsLeft(next) < StepsLeft(call) || (next == call && Step(g, call, reachable, db).0 == g)
    ensures StepsLeft(call) > 0 && !call.Connecting? ==> StepsLeft(Step(g, call, reachable, db).1) < StepsLeft(call)
  {
    hide PoolState.Acquire, PoolState.Release, Respond, Failure, Nothing, NotFound, PoolState.Find;
  }

  /** An event moves no call back; a turn of a call takes it forward or changes nothing at all. */
  lemma TurnCounts(m: Machine, e: Event, c: CallId)
    requires c in m.calls
    ensures c in Apply(m, e).calls && StepsLeft(Apply(m, e).calls[c]) <= StepsLeft(m.calls[c])
    ensures e.Work? && e.c == c ==> Apply(m, e) == m || StepsLeft(Apply(m, e).calls[c]) < StepsLeft(m.calls[c])
  {
    hide Step, Blocked, StepsLeft, LocksAfter;
    if e.Work? && e.c in m.calls {
      StepCounts(m.g, m.calls[e.c], e.reachable, e.db);
      StandingKeepsLocks(m.locks, e.c, m.calls[e.c]);
      assert m.calls[e.c := m.calls[e.c]] == m.calls;
      AcquiringGoesOn(m.g, m.calls[e.c], e.reachable, e.db);
    }
  }

  lemma StandingKeepsLocks(locks: map<Which, CallId>, c: CallId, call: Call)
    ensures !call.Acquiring? ==> LocksAfter(locks, c, call, call) == locks
  {
  }

  lemma AcquiringGoesOn(g: World, call: Call, reachable: bool, db: DbOutcome)
    ensures call.Acquiring? ==> Step(g, call, reachable, db).1 != call
  {
  }

  /** A call that is neither finished, nor blocked, nor inside a full pool moves on its turn. */
  lemma FreeMoves(m: Machine, c: CallId, db: DbOutcome)
    requires Inv(m) && c in m.calls && StepsLeft(m.calls[c]) > 0 && !Blocked(m.locks, m.calls[c])
    requires m.calls[c].Connecting? ==> !Jammed(m, m.calls[c].w)
    ensures c in Apply(m, Work(c, true, db)).calls
            && StepsLeft(Apply(m, Work(c, true, db)).calls[c]) < StepsLeft(m.calls[c])
  {
    hide Inv, Step, Blocked, StepsLeft, LocksAfter, Full;
    StepCounts(m.g, m.calls[c], true, db);
    TurnCounts(m, Work(c, true, db), c);
    if m.calls[c].Connecting? {
      LockOfConnecting(m, c);
      HolderStep(m, m.calls[c].w, db);
    }
  }

  lemma LockOfConnecting(m: Machine, c: CallId)
    requires Inv(m) && c in m.calls && m.calls[c].Connecting?
    ensures m.calls[c].w in m.locks && m.locks[m.calls[c].w] == c
  {
    hide WorldOk, HeldOk, CallsOk, CreatesOk;
  }

  /** The call whose turn it is: the holder of the lock a blocked call waits for. */
  function Ahead(m: Machine, c: CallId): CallId
    requires c in m.calls
  {
    if Blocked(m.locks, m.calls[c]) then m.locks[PoolNeeded(m.calls[c]).value] else c
  }

  /** No deadlock without a jam: if any call is unfinished, some call moves on its next turn. */
  lemma {:induction false} SomeCallMoves(m: Machine, c: CallId, db: DbOutcome)
    requires Inv(m) && NoJam(m) && c in m.calls && StepsLeft(m.calls[c]) > 0
    ensures Ahead(m, c) in m.calls && Ahead(m, c) in Apply(m, Work(Ahead(m, c), true, db)).calls
    ensures var d := Ahead(m, c); StepsLeft(Apply(m, Work(d, true, db)).calls[d]) < StepsLeft(m.calls[d])
  {
    hide Inv, Apply, StepsLeft, Jammed, PoolNeeded;
    if Blocked(m.locks, m.calls[c]) {
      HolderIs(m, PoolNeeded(m.calls[c]).value);
    }
    var d := Ahead(m, c);
    HoldersAreUnfinished(m.calls[d]);
    NoJamAnywhere(m);
    FreeMoves(m, d, db);
  }

  lemma NoJamAnywhere(m: Machine)
    requires NoJam(m)
    ensures forall w :: !Jammed(m, w)
  {
    forall w: Which ensures !Jammed(m, w) {
      assert w == PG || w == MY;
    }
  }

  lemma HoldersAreUnfinished(call: Call)
    ensures call.Connecting? ==> StepsLeft(call) > 0
  {
  }

  // ---------- room when a lock is taken ----------

  /** An acquire that takes the lock of its pool finds the map below the capacity. */
  predicate FindsRoom(m: Machine, e: Event) {
    e.Work? && e.c in m.calls && m.calls[e.c].Acquiring? && m.calls[e.c].w !in m.locks ==>
      !Full(m.g.h.Pool(m.calls[e.c].w))
  }

  /** Every acquire of a run does. */
  predicate AlwaysRoom(m: Machine, es: seq<Event>)
    decreases |es|
  {
    es == [] || (FindsRoom(m, es[0]) && AlwaysRoom(Apply(m, es[0]), es[1..]))
  }

  /** While a lock is held the pool changes only when the holder leaves. */
  lemma LockedPoolStays(m: Machine, e: Event, w: Which)
    requires Inv(m) && w in m.locks && w in Apply(m, e).locks && Patient(e)
    ensures Apply(m, e).g.h.Pool(w) == m.g.h.Pool(w)
  {
    hide Inv, Step, Full, PoolState.Acquire;
    if e.Work? && e.c in m.calls && !Blocked(m.locks, m.calls[e.c]) {
      if e.c == m.locks[w] {
        HolderStep(m, w, e.db);
      } else {
        LockIsOthers(m, e.c, w);
        StepOfPool(m.g, m.calls[e.c], e.reachable, e.db, w);
      }
    }
  }

  /** A jam comes about only where an acquire takes the lock of a full pool. */
  lemma JamNeedsTaking(m: Machine, e: Event, w: Which)
    requires Inv(m) && !Jammed(m, w) && Patient(e)
    ensures Jammed(Apply(m, e), w) <==>
            e.Work? && e.c in m.calls && m.calls[e.c].Acquiring? && m.calls[e.c].w == w && w !in m.locks
              && Full(m.g.h.Pool(w))
  {
    hide Inv, Full, PoolState.Acquire, Dispatch, RunSql;
    if w in m.locks && w in Apply(m, e).locks {
      LockedPoolStays(m, e, w);
    }
    if e.Work? && e.c in m.calls {
      StepOfLocks(m.g, m.calls[e.c], e.reachable, e.db);
    }
    hide Step;
  }

  lemma {:induction false} JamExactlyWhen(m: Machine, es: seq<Event>)
    requires Inv(m) && NoJam(m) && AllPatient(es)
    ensures NoJam(Run(m, es)) <==> AlwaysRoom(m, es)
    decreases |es|
  {
    hide Inv, Apply, Jammed, Full, Patient;
    if es != [] {
      assert Patient(es[0]);
      var n := Apply(m, es[0]);
      ApplyKeepsInv(m, es[0]);
      JamNeedsTaking(m, es[0], PG);
      JamNeedsTaking(m, es[0], MY);
      if NoJam(n) {
        JamExactlyWhen(n, es[1..]);
      } else {
        var w := if Jammed(n, PG) then PG else MY;
        FullPoolStops(n, es[1..], w);
      }
    }
  }

  lemma {:induction false} RunConcat(m: Machine, a: seq<Event>, b: seq<Event>)
    ensures Run(m, a + b) == Run(Run(m, a), b)
    ensures AlwaysRoom(m, a + b) <==> AlwaysRoom(m, a) && AlwaysRoom(Run(m, a), b)
    decreases |a|
  {
    hide Apply, FindsRoom;
    if a == [] {
      assert a + b == b;
    } else {
      assert (a + b)[1..] == a[1..] + b;
      RunConcat(Apply(m, a[0]), a[1..], b);
    }
  }
}
