/** What the interleaving invariant means for sessions and connections, over every run. */
module Ownership {
  import opened ByteStrings
  import opened Http
  import opened MessageTypes
  import opened Pools
  import opened HandlerState
  import opened Interleaving

  // ---------- who holds what ----------

  ghost predicate NoIdInBothPools(h: HState) {
    h.pg.sessions.Keys !! h.my.sessions.Keys
  }

  /** A mapped id that no close has released is held by its mapped pool, and only there. */
  ghost predicate MappedIsHeld(m: Machine) {
    forall id <- m.g.h.mapped :: id !in m.g.released ==>
      var w := m.g.h.mapped[id];
      id in m.g.h.Pool(w).sessions && id !in m.g.h.Pool(Other(w)).sessions
  }

  /** A held id is mapped to the pool that holds it, or is still being recorded there. */
  ghost predicate HeldIsMapped(m: Machine) {
    forall w: Which, id :: id in m.g.h.Pool(w).sessions ==>
      (id in m.g.h.mapped && m.g.h.mapped[id] == w) || exists c :: c in m.calls && m.calls[c] == Recording(w, id)
  }

  ghost predicate NoConnectionShared(p: PoolState) {
    forall a, b :: a in p.sessions && b in p.sessions && p.sessions[a] == p.sessions[b] ==> a == b
  }

  ghost predicate ReturnedOnce(p: PoolState) {
    forall i, j :: 0 <= i < j < |p.backing.returned| ==> p.backing.returned[i] != p.backing.returned[j]
  }

  /** Session ownership, after any events from the start: an id is held by at most one pool;
      a mapped id that no close has released is held by exactly its mapped pool; a held id is
      mapped to that pool or still being recorded there; two sessions never share a
      connection; and no connection is given back twice, however many closes run at once. */
  lemma SessionOwnership(pgCapacity: Option<nat>, hasMy: bool, myCapacity: Option<nat>, es: seq<Event>)
    ensures var m := Run(Start(pgCapacity, hasMy, myCapacity), es);
            && NoIdInBothPools(m.g.h) && MappedIsHeld(m) && HeldIsMapped(m)
            && NoConnectionShared(m.g.h.pg) && NoConnectionShared(m.g.h.my)
            && ReturnedOnce(m.g.h.pg) && ReturnedOnce(m.g.h.my)
  {
    hide *;
    StartIsOk(pgCapacity, hasMy, myCapacity);
    RunKeepsInv(Start(pgCapacity, hasMy, myCapacity), es);
    var m := Run(Start(pgCapacity, hasMy, myCapacity), es);
    InvGivesPools(m);
    InvGivesMapped(m);
    InvGivesHeld(m);
  }

  lemma InvGivesHeld(m: Machine)
    requires Inv(m)
    ensures HeldIsMapped(m)
  {
    hide Inv;
    forall w: Which, id | id in m.g.h.Pool(w).sessions
      ensures (id in m.g.h.mapped && m.g.h.mapped[id] == w)
              || exists c :: c in m.calls && m.calls[c] == Recording(w, id)
    {
      HeldIsMappedOrRecorded(m, w, id);
    }
  }

  lemma InvGivesPools(m: Machine)
    requires Inv(m)
    ensures NoConnectionShared(m.g.h.pg) && NoConnectionShared(m.g.h.my)
    ensures ReturnedOnce(m.g.h.pg) && ReturnedOnce(m.g.h.my)
  {
    hide IdsOk, HomeOk, ReleasedOk, LiveOk, TakenOk, OnceOk, RanOk, HeldOk, CallsOk, CreatesOk;
    ValidGives(m.g.h.pg);
    ValidGives(m.g.h.my);
    hide PoolState.Valid;
  }

  lemma ValidGives(p: PoolState)
    requires p.Valid()
    ensures NoConnectionShared(p) && ReturnedOnce(p)
  {
  }

  lemma InvGivesMapped(m: Machine)
    requires Inv(m)
    ensures NoIdInBothPools(m.g.h) && MappedIsHeld(m)
  {
    hide PoolState.Valid, ReleasedOk, TakenOk, OnceOk, RanOk, HeldOk, CallsOk, CreatesOk;
    forall id | id in m.g.h.mapped && id !in m.g.released
      ensures id in m.g.h.Pool(m.g.h.mapped[id]).sessions && id !in m.g.h.Pool(Other(m.g.h.mapped[id])).sessions
    {
      assert HomeIs(m.g.home, id, m.g.h.mapped[id]);
    }
  }

  lemma HeldIsMappedOrRecorded(m: Machine, w: Which, id: SessionId)
    requires Inv(m) && id in m.g.h.Pool(w).sessions
    ensures (id in m.g.h.mapped && m.g.h.mapped[id] == w) || exists c :: c in m.calls && m.calls[c] == Recording(w, id)
  {
    hide PoolState.Valid, TakenOk, OnceOk, RanOk, CallsOk, CreatesOk;
    assert HomeIs(m.g.home, id, w);
  }

  // ---------- statements and connections ----------

  /** The statements run for a session, in order. */
  function RanFor(ran: seq<Statement>, id: SessionId): seq<Statement> {
    if ran == [] then []
    else RanFor(ran[..|ran| - 1], id) + if ran[|ran| - 1].id == id then [ran[|ran| - 1]] else []
  }

  /** The statements run on a connection, in order. */
  function RanOn(ran: seq<Statement>, k: Connection): seq<Statement> {
    if ran == [] then []
    else
      var r := ran[|ran| - 1];
      RanOn(ran[..|ran| - 1], k) + if On(r.w, r.lease) == k then [r] else []
  }

  lemma {:induction false} SameStatements(ran: seq<Statement>, known: set<SessionId>, owner: map<Connection, SessionId>,
                                          k: Connection, id: SessionId)
    requires RanOk(ran, known, owner) && OnceOk(owner) && OwnedBy(owner, k, id)
    ensures RanOn(ran, k) == RanFor(ran, id)
  {
    if ran != [] {
      var r := ran[|ran| - 1];
      assert OwnedBy(owner, On(r.w, r.lease), r.id);
      SameStatements(ran[..|ran| - 1], known, owner, k, id);
    }
  }

  lemma InvGivesPrivate(m: Machine, k: Connection)
    requires Inv(m) && k in m.g.owner
    ensures RanOn(m.g.h.ran, k) == RanFor(m.g.h.ran, m.g.owner[k])
  {
    hide PoolState.Valid, IdsOk, HomeOk, ReleasedOk, LiveOk, TakenOk, HeldOk, CallsOk, CreatesOk, RanOn, RanFor;
    SameStatements(m.g.h.ran, m.g.known, m.g.owner, k, m.g.owner[k]);
  }

  /** Isolation of connections, after any events: everything that ran on the connection of a
      session was run for that session, and everything run for it ran there. */
  lemma ConnectionIsPrivate(pgCapacity: Option<nat>, hasMy: bool, myCapacity: Option<nat>, es: seq<Event>,
                            k: Connection)
    ensures var g := Run(Start(pgCapacity, hasMy, myCapacity), es).g;
            k in g.owner ==> RanOn(g.h.ran, k) == RanFor(g.h.ran, g.owner[k])
  {
    hide *;
    StartIsOk(pgCapacity, hasMy, myCapacity);
    RunKeepsInv(Start(pgCapacity, hasMy, myCapacity), es);
    var m := Run(Start(pgCapacity, hasMy, myCapacity), es);
    if k in m.g.owner {
      InvGivesPrivate(m, k);
    }
  }

  // ---------- ids that are not live ----------

  /** An id that has been mentioned and was never created, or was released by a close. */
  predicate Dead(g: World, id: SessionId) {
    id in g.seen && (id !in g.home || id in g.released)
  }

  /** What a query for a dead id can come to. */
  predicate DeadReply(id: SessionId, kind: byte, reply: HttpReply) {
    if kind == PARSE || kind == DESCRIBE || kind == SYNC then reply == Replied(Nothing())
    else if kind == BIND then reply == Replied(Nothing()) || reply == Replied(Failure(NO_STATEMENT))
    else reply == Replied(NotFound(id)) || (kind == EXECUTE && reply == HttpFailed(NO_STATEMENT))
  }

  /** The stages of a query that runs nothing. */
  predicate Doomed(call: Call, id: SessionId, kind: byte) {
    match call
    case Asked(i, k, _) => i == id && k == kind
    case LookingUp(i, _) => i == id && kind !in {PARSE, BIND, DESCRIBE, SYNC}
    case Finding(i, _, _) => i == id && kind !in {PARSE, BIND, DESCRIBE, SYNC}
    case Answered(i, reply, ran) => i == id && !ran && DeadReply(id, kind, reply)
    case _ => false
  }

  lemma DeadHoldsNothing(g: World, id: SessionId)
    requires WorldOk(g) && Dead(g, id)
    ensures id !in g.h.pg.sessions && id !in g.h.my.sessions
  {
    hide PoolState.Valid, TakenOk, OnceOk, RanOk, LiveOk, IdsOk;
    assert id in g.h.pg.sessions ==> HomeIs(g.home, id, PG);
    assert id in g.h.my.sessions ==> HomeIs(g.home, id, MY);
  }

  lemma DeadStaysDead(m: Machine, e: Event, id: SessionId)
    requires Dead(m.g, id)
    ensures Dead(Apply(m, e).g, id)
  {
  }

  lemma DoomedStaysDoomed(m: Machine, e: Event, c: CallId, id: SessionId, kind: byte)
    requires Inv(m) && Dead(m.g, id) && c in m.calls && Doomed(m.calls[c], id, kind)
    ensures c in Apply(m, e).calls && Doomed(Apply(m, e).calls[c], id, kind)
  {
    DeadHoldsNothing(m.g, id);
    hide Inv, Step, Dead, Doomed, LocksAfter, Speakable, HState.PoolFor;
    if e.Work? && e.c == c {
      DoomedStep(m.g, m.calls[c], id, kind, e.reachable, e.db);
    }
  }

  lemma DoomedStep(g: World, call: Call, id: SessionId, kind: byte, reachable: bool, db: DbOutcome)
    requires id !in g.h.pg.sessions && id !in g.h.my.sessions && Doomed(call, id, kind)
    ensures Doomed(Step(g, call, reachable, db).1, id, kind)
  {
    hide PoolState.Acquire, PoolState.Release, NotFound, Nothing, Failure, Respond;
  }

  lemma {:induction false} DoomedRun(m: Machine, es: seq<Event>, c: CallId, id: SessionId, kind: byte)
    requires Inv(m) && Dead(m.g, id) && c in m.calls && Doomed(m.calls[c], id, kind)
    ensures var n := Run(m, es); c in n.calls && Doomed(n.calls[c], id, kind)
    decreases |es|
  {
    if es != [] {
      ApplyKeepsInv(m, es[0]);
      DeadStaysDead(m, es[0], id);
      DoomedStaysDoomed(m, es[0], c, id, kind);
      hide Inv, Apply, Dead, Doomed;
      DoomedRun(Apply(m, es[0]), es[1..], c, id, kind);
    }
  }

  /** A step for a dead id runs nothing for it. */
  lemma DeadRunsNothing(m: Machine, e: Event, id: SessionId)
    requires Inv(m) && Dead(m.g, id)
    ensures RanFor(Apply(m, e).g.h.ran, id) == RanFor(m.g.h.ran, id)
  {
    var before, after := m.g.h.ran, Apply(m, e).g.h.ran;
    if after != before {
      OnlyRunningRuns(m, e);
      var call := m.calls[e.c];
      assert after[..|after| - 1] == before;
      RunningIsLive(m, e.c);
    }
  }

  /** A call about to run a statement on a connection that is still held is not for a dead id. */
  lemma RunningIsLive(m: Machine, c: CallId)
    requires Inv(m) && c in m.calls && m.calls[c].Running?
    requires m.calls[c].lease !in m.g.h.Pool(m.calls[c].w).backing.returned
    ensures !Dead(m.g, m.calls[c].id)
  {
    var call := m.calls[c];
    assert CallOk(m.g, call);
    hide PoolState.Valid, LiveOk, OnceOk, RanOk, HeldOk, CreatesOk, TakenOk, HomeOk;
  }

  lemma OnlyRunningRuns(m: Machine, e: Event)
    requires Apply(m, e).g.h.ran != m.g.h.ran
    ensures e.Work? && e.c in m.calls && m.calls[e.c].Running?
    ensures var call := m.calls[e.c];
            && call.lease !in m.g.h.Pool(call.w).backing.returned
            && Apply(m, e).g.h.ran ==
               m.g.h.ran + [Statement(call.w, call.lease, call.id, call.sql, Respond(call.sql, e.db))]
  {
    hide Respond, Step, HState.PoolFor, Speakable;
    if e.Work? && e.c in m.calls {
      StepRan(m.g, m.calls[e.c], e.reachable, e.db);
    }
  }

  lemma StepRan(g: World, call: Call, reachable: bool, db: DbOutcome)
    ensures var ran := Step(g, call, reachable, db).0.h.ran;
            if call.Running? && call.lease !in g.h.Pool(call.w).backing.returned
            then ran == g.h.ran + [Statement(call.w, call.lease, call.id, call.sql, Respond(call.sql, db))]
            else ran == g.h.ran
  {
    hide Respond, PoolState.Acquire, PoolState.Release, NotFound, Nothing, Failure;
  }

  lemma {:induction false} DeadRunRunsNothing(m: Machine, es: seq<Event>, id: SessionId)
    requires Inv(m) && Dead(m.g, id)
    ensures RanFor(Run(m, es).g.h.ran, id) == RanFor(m.g.h.ran, id)
    decreases |es|
  {
    if es != [] {
      ApplyKeepsInv(m, es[0]);
      DeadStaysDead(m, es[0], id);
      DeadRunsNothing(m, es[0], id);
      hide Inv, Apply, Dead, RanFor;
      DeadRunRunsNothing(Apply(m, es[0]), es[1..], id);
    }
  }

  /** A query for an id that was never created or has been released by a close, asked at any
      point of any run and interleaved with anything: it runs no statement, and if it comes
      to an answer, a Query gets "session not found", and an Execute that or "no parsed
      statement". No statement is ever run for that id again, by this call or any other. */
  lemma ClosedOrUnknownRunsNothing(pgCapacity: Option<nat>, hasMy: bool, myCapacity: Option<nat>,
                                   before: seq<Event>, c: CallId, id: SessionId, kind: byte, sql: bytes,
                                   after: seq<Event>)
    requires var m := Run(Start(pgCapacity, hasMy, myCapacity), before);
             c !in m.calls && Speakable(m.g, id) && (id !in m.g.home || id in m.g.released)
    ensures var m := Run(Start(pgCapacity, hasMy, myCapacity), before);
            var n := Run(Apply(m, StartQuery(c, id, kind, sql)), after);
            && RanFor(n.g.h.ran, id) == RanFor(m.g.h.ran, id)
            && c in n.calls && (n.calls[c].Answered? ==> !n.calls[c].ran && DeadReply(id, kind, n.calls[c].reply))
  {
    hide *;
    StartIsOk(pgCapacity, hasMy, myCapacity);
    RunKeepsInv(Start(pgCapacity, hasMy, myCapacity), before);
    DeadQuery(Run(Start(pgCapacity, hasMy, myCapacity), before), c, id, kind, sql, after);
  }

  lemma DeadQuery(m: Machine, c: CallId, id: SessionId, kind: byte, sql: bytes, after: seq<Event>)
    requires Inv(m) && c !in m.calls && Speakable(m.g, id) && (id !in m.g.home || id in m.g.released)
    ensures var n := Run(Apply(m, StartQuery(c, id, kind, sql)), after);
            && RanFor(n.g.h.ran, id) == RanFor(m.g.h.ran, id)
            && c in n.calls && (n.calls[c].Answered? ==> !n.calls[c].ran && DeadReply(id, kind, n.calls[c].reply))
  {
    hide Inv, DeadReply, RanFor, Run;
    var m1 := Apply(m, StartQuery(c, id, kind, sql));
    ApplyKeepsInv(m, StartQuery(c, id, kind, sql));
    assert Dead(m1.g, id) && Doomed(m1.calls[c], id, kind) && m1.g.h.ran == m.g.h.ran;
    DoomedRun(m1, after, c, id, kind);
    DeadRunRunsNothing(m1, after, id);
  }
}
