/** When a pool can jam, told before the server starts: exactly if more clients speak its protocol
    than it has connections. */
module Capacity {
  import opened ByteStrings
  import opened Http
  import opened Pools
  import opened HandlerState
  import opened Interleaving
  import opened Progress
  import opened Deadlock
  import opened Clients
  import CP = ClientProgress

  /** The clients of one protocol, by number. */
  function ClientsOf(programs: seq<Program>, w: Which): (r: seq<ClientId>)
    ensures forall k :: 0 <= k < |r| ==> r[k] < |programs| && programs[r[k]].Home() == w
    ensures forall j, k :: 0 <= j < k < |r| ==> r[j] != r[k]
    ensures forall x :: 0 <= x < |programs| && programs[x].Home() == w ==> x in r
  {
    if programs == [] then []
    else
      var n := |programs| - 1;
      ClientsOf(programs[..n], w) + if programs[n].Home() == w then [n] else []
  }

  // ---------- no more connections than clients ----------

  /** What a run never changes. */
  ghost predicate Fixed(m: Machine, pgCapacity: Option<nat>, hasMy: bool, myCapacity: Option<nat>) {
    && m.g.h.hasMy == hasMy && m.g.h.pg.backing.capacity == pgCapacity && m.g.h.my.backing.capacity == myCapacity
    && (forall id <- m.g.home :: m.g.home[id].MY? ==> hasMy)
  }

  lemma StepKeepsFixed(g: World, call: Call, reachable: bool, db: DbOutcome)
    ensures var n := Step(g, call, reachable, db).0;
            && n.h.hasMy == g.h.hasMy && n.home == g.home
            && n.h.pg.backing.capacity == g.h.pg.backing.capacity && n.h.my.backing.capacity == g.h.my.backing.capacity
  {
    hide Dispatch, RunSql, PoolState.Acquire, PoolState.Release, NotFound, PoolState.Find;
    match call
    case Asked(id, kind, sql) =>
      DispatchKeepsPools(g, id, kind, sql);
    case Running(id, sql, w, lease) =>
      RunKeepsPools(g, w, lease, id, sql, db);
    case Connecting(w, id) =>
      CapacityStays(g.h.Pool(w), id, reachable);
    case Releasing(id, w) =>
      CapacityStays(g.h.Pool(w), id, reachable);
    case ReleasingPg(id) =>
      CapacityStays(g.h.pg, id, reachable);
    case ReleasingMy(id) =>
      CapacityStays(g.h.my, id, reachable);
    case _ =>
  }

  lemma CapacityStays(p: PoolState, id: SessionId, reachable: bool)
    ensures p.Acquire(id, reachable).0.backing.capacity == p.backing.capacity
    ensures p.Release(id).backing.capacity == p.backing.capacity
  {
  }

  lemma DispatchKeepsPools(g: World, id: SessionId, kind: byte, sql: bytes)
    ensures var n := Dispatch(g, id, kind, sql).0;
            n.h.hasMy == g.h.hasMy && n.home == g.home && n.h.pg == g.h.pg && n.h.my == g.h.my
  {
    hide Failure, Nothing;
  }

  lemma RunKeepsPools(g: World, w: Which, lease: Lease, id: SessionId, sql: bytes, db: DbOutcome)
    ensures var n := RunSql(g, w, lease, id, sql, db).0;
            n.h.hasMy == g.h.hasMy && n.home == g.home && n.h.pg == g.h.pg && n.h.my == g.h.my
  {
    hide Respond;
  }

  lemma ApplyKeepsFixed(m: Machine, e: Event, pgCapacity: Option<nat>, hasMy: bool, myCapacity: Option<nat>)
    requires Fixed(m, pgCapacity, hasMy, myCapacity)
    ensures Fixed(Apply(m, e), pgCapacity, hasMy, myCapacity)
  {
    hide Step, LocksAfter, Blocked, Speakable;
    if e.Work? && e.c in m.calls {
      StepKeepsFixed(m.g, m.calls[e.c], e.reachable, e.db);
    }
  }

  /** Every id that was given out is the session of a client. */
  ghost predicate KnownNamed(s: System) {
    forall id <- s.m.g.known :: exists x :: 0 <= x < |s.clients| && NameOf(s.m, s.clients[x]) == Some(id)
  }

  lemma NewIsUnknown(m: Machine, c: CallId)
    requires Inv(m) && c in m.calls
    ensures Creating(m.calls[c]) ==> m.calls[c].id !in m.g.known
  {
    hide WorldOk, HeldOk, CreatesOk, LocksOk;
    assert CallOk(m.g, m.calls[c]);
  }

  lemma NameStays(s: System, e: Happening, x: ClientId, id: SessionId)
    requires SysInv(s) && x < |s.clients| && NameOf(s.m, s.clients[x]) == Some(id) && id in s.m.g.known
    ensures x < |Move(s, e).clients| && NameOf(Move(s, e).m, Move(s, e).clients[x]) == Some(id)
  {
    hide Inv, CallersOk, DistinctNames, Apply, Program.Wants, PhaseOk, SentOk;
    CP.MoveIsEvent(s, e);
    var cl := s.clients[x];
    if cl.phase.Opening? {
      NewIsUnknown(s.m, cl.phase.c);
      CreatedStays(s.m, CP.EventOf(s, e), cl.phase.c);
    }
    hide CP.EventOf, SysInv;
  }

  lemma CreatedStays(m: Machine, e: Event, c: CallId)
    requires c in m.calls && m.calls[c].Created?
    ensures c in Apply(m, e).calls && Apply(m, e).calls[c] == m.calls[c]
  {
    hide Dispatch, RunSql, Interleaving.Acquire, LocksAfter, Blocked;
  }

  /** An id becomes known with the step that returns it to the client it was created for. */
  lemma KnownGrows(m: Machine, e: Event, id: SessionId)
    requires id in Apply(m, e).g.known && id !in m.g.known
    ensures e.Work? && e.c in m.calls && m.calls[e.c].Recording? && m.calls[e.c].id == id
    ensures e.c in Apply(m, e).calls && Apply(m, e).calls[e.c] == Created(id)
  {
    hide PoolState.Acquire, PoolState.Release, Respond, Failure, Nothing, NotFound, PoolState.Find;
  }

  lemma RecorderIsNamed(s: System, c: CallId)
    requires SysInv(s) && c in s.m.calls && (s.m.calls[c].Recording? || s.m.calls[c].Connecting?)
    ensures c in s.caller && s.caller[c] < |s.clients| && s.clients[s.caller[c]].phase == Phase.Opening(c)
    ensures NameOf(s.m, s.clients[s.caller[c]]) == Some(s.m.calls[c].id)
  {
    hide Inv, DistinctNames, SentOk;
    var x := s.caller[c];
    assert PendingCall(s.clients[x]) == Some(c) && PhaseOk(s.m, s.clients[x]);
  }

  lemma MoveKeepsNamed(s: System, e: Happening)
    requires SysInv(s) && KnownNamed(s)
    ensures KnownNamed(Move(s, e))
  {
    hide Move, SysInv, NameOf, Apply, CP.EventOf;
    var n := Move(s, e);
    CP.MoveIsEvent(s, e);
    forall id | id in n.m.g.known ensures exists x :: 0 <= x < |n.clients| && NameOf(n.m, n.clients[x]) == Some(id) {
      if id in s.m.g.known {
        var x :| 0 <= x < |s.clients| && NameOf(s.m, s.clients[x]) == Some(id);
        NameStays(s, e, x, id);
      } else {
        KnownGrows(s.m, CP.EventOf(s, e), id);
        var c := CP.EventOf(s, e).c;
        RecorderIsNamed(s, c);
        OpeningStays(s, e, s.caller[c], c);
        CreatedIsName(n.m, n.clients[s.caller[c]], c);
      }
    }
  }

  lemma CreatedIsName(m: Machine, cl: Client, c: CallId)
    requires cl.phase == Phase.Opening(c) && c in m.calls && m.calls[c].Created?
    ensures NameOf(m, cl) == Some(m.calls[c].id)
  {
  }

  lemma OpeningStays(s: System, e: Happening, x: ClientId, c: CallId)
    requires x < |s.clients| && s.clients[x].phase == Phase.Opening(c) && c in s.m.calls && s.m.calls[c].Recording?
    ensures x < |Move(s, e).clients| && Move(s, e).clients[x] == s.clients[x]
  {
    hide Apply, Program.Wants;
  }

  // ---------- counting ----------

  lemma {:induction false} NoMoreNames(ids: set<SessionId>, xs: set<ClientId>, names: map<ClientId, SessionId>)
    requires forall id <- ids :: exists x :: x in xs && x in names && names[x] == id
    ensures |ids| <= |xs|
    decreases |xs|
  {
    if ids != {} {
      var id :| id in ids;
      var x :| x in xs && x in names && names[x] == id;
      forall i | i in ids - {id} ensures exists y :: y in xs - {x} && y in names && names[y] == i {
        var y :| y in xs && y in names && names[y] == i;
        assert y in xs - {x};
      }
      NoMoreNames(ids - {id}, xs - {x}, names);
    }
  }

  function AsSet(xs: seq<ClientId>): set<ClientId> {
    set x | x in xs
  }

  lemma {:induction false} SetOfSize(xs: seq<ClientId>)
    ensures |AsSet(xs)| <= |xs|
  {
    if xs == [] {
      assert AsSet(xs) == {};
    } else {
      SetOfSize(xs[1..]);
      var more := AsSet(xs[1..]);
      assert AsSet(xs) == {xs[0]} + more;
      if xs[0] in more {
        assert {xs[0]} + more == more;
      } else {
        assert |{xs[0]} + more| == 1 + |more|;
      }
    }
  }

  /** A session that a pool holds, or that is being acquired, is that of a client of its protocol. */
  lemma HeldIsNamed(s: System, w: Which, id: SessionId)
    requires SysInv(s) && KnownNamed(s)
    requires || id in s.m.g.h.Pool(w).sessions
             || (w in s.m.locks && s.m.locks[w] in s.m.calls && s.m.calls[s.m.locks[w]] == Connecting(w, id))
    ensures exists x ::
              0 <= x < |s.clients| && s.clients[x].program.Home() == w && NameOf(s.m, s.clients[x]) == Some(id)
  {
    hide KnownNamed, NameOf, CallersOk, DistinctNames, SentOk, Inv;
    var x: ClientId;
    if id in s.m.g.h.Pool(w).sessions {
      HeldIsKnownOrRecorded(s.m, w, id);
      if id in s.m.g.known {
        x := NamedClient(s, id);
      } else {
        var c :| c in s.m.calls && s.m.calls[c] == Recording(w, id);
        RecorderIsNamed(s, c);
        x := s.caller[c];
      }
    } else {
      RecorderIsNamed(s, s.m.locks[w]);
      ConnectingIsHome(s.m, s.m.locks[w]);
      x := s.caller[s.m.locks[w]];
    }
    assert PhaseOk(s.m, s.clients[x]);
    assert AtHome(s.m, s.clients[x]);
  }

  lemma NamedClient(s: System, id: SessionId) returns (x: ClientId)
    requires KnownNamed(s) && id in s.m.g.known
    ensures x < |s.clients| && NameOf(s.m, s.clients[x]) == Some(id)
  {
    hide NameOf;
    x :| 0 <= x < |s.clients| && NameOf(s.m, s.clients[x]) == Some(id);
  }

  lemma HeldIsKnownOrRecorded(m: Machine, w: Which, id: SessionId)
    requires Inv(m) && id in m.g.h.Pool(w).sessions
    ensures HomeIs(m.g.home, id, w)
    ensures id in m.g.known || exists c :: c in m.calls && m.calls[c] == Recording(w, id)
  {
    hide PoolState.Valid, TakenOk, OnceOk, RanOk, KnownOk, CallsOk, CreatesOk, LocksOk, LiveOk, ReleasedOk, IdsOk;
    assert HomeIs(m.g.home, id, w);
  }

  lemma ConnectingIsHome(m: Machine, c: CallId)
    requires Inv(m) && c in m.calls && m.calls[c].Connecting?
    ensures HomeIs(m.g.home, m.calls[c].id, m.calls[c].w)
  {
    hide WorldOk, HeldOk, CreatesOk, LocksOk;
    assert CallOk(m.g, m.calls[c]);
  }

  function NamesOf(s: System): (names: map<ClientId, SessionId>)
    ensures forall x :: 0 <= x < |s.clients| && NameOf(s.m, s.clients[x]).Some? ==>
              x in names && names[x] == NameOf(s.m, s.clients[x]).value
  {
    map x: ClientId | 0 <= x < |s.clients| && NameOf(s.m, s.clients[x]).Some? :: NameOf(s.m, s.clients[x]).value
  }

  /** The sessions a pool holds and the one that is waiting for it. */
  function AtPool(s: System, w: Which): set<SessionId>
    requires w in s.m.locks && s.m.locks[w] in s.m.calls && s.m.calls[s.m.locks[w]].Connecting?
  {
    s.m.g.h.Pool(w).sessions.Keys + {s.m.calls[s.m.locks[w]].id}
  }

  lemma AtPoolIsNamed(s: System, programs: seq<Program>, w: Which, id: SessionId)
    requires SysInv(s) && KnownNamed(s) && w in s.m.locks && s.m.locks[w] in s.m.calls
    requires s.m.calls[s.m.locks[w]].Connecting? && s.m.calls[s.m.locks[w]].w == w && id in AtPool(s, w)
    requires |s.clients| == |programs| && forall x :: 0 <= x < |programs| ==> s.clients[x].program == programs[x]
    ensures exists x :: x in ClientsOf(programs, w) && x in NamesOf(s) && NamesOf(s)[x] == id
  {
    hide SysInv, KnownNamed, NameOf, ClientsOf, NamesOf;
    HeldIsNamed(s, w, id);
    var x :| 0 <= x < |s.clients| && s.clients[x].program.Home() == w && NameOf(s.m, s.clients[x]) == Some(id);
    assert x in ClientsOf(programs, w);
  }

  /** Under a jam the holders and the one that waits are as many clients, of that protocol. */
  lemma JamCounts(s: System, programs: seq<Program>, w: Which)
    requires SysInv(s) && KnownNamed(s) && w in s.m.locks
    requires |s.clients| == |programs| && forall x :: 0 <= x < |programs| ==> s.clients[x].program == programs[x]
    ensures |ClientsOf(programs, w)| > |s.m.g.h.Pool(w).sessions|
  {
    hide SysInv, KnownNamed, ClientsOf, NamesOf, AtPool, Inv;
    CP.InvOf(s);
    HolderIs(s.m, w);
    AtPoolSize(s, w);
    AllNamed(s, programs, w);
    var xs := AsSet(ClientsOf(programs, w));
    hide AsSet;
    NoMoreNames(AtPool(s, w), xs, NamesOf(s));
    SetOfSize(ClientsOf(programs, w));
  }

  lemma AllNamed(s: System, programs: seq<Program>, w: Which)
    requires SysInv(s) && KnownNamed(s) && w in s.m.locks && s.m.locks[w] in s.m.calls
    requires s.m.calls[s.m.locks[w]].Connecting? && s.m.calls[s.m.locks[w]].w == w
    requires |s.clients| == |programs| && forall x :: 0 <= x < |programs| ==> s.clients[x].program == programs[x]
    ensures forall id <- AtPool(s, w) ::
              exists x :: x in AsSet(ClientsOf(programs, w)) && x in NamesOf(s) && NamesOf(s)[x] == id
  {
    hide SysInv, KnownNamed, ClientsOf, NamesOf, AtPool;
    forall id | id in AtPool(s, w)
      ensures exists x :: x in AsSet(ClientsOf(programs, w)) && x in NamesOf(s) && NamesOf(s)[x] == id
    {
      AtPoolIsNamed(s, programs, w, id);
      var x :| x in ClientsOf(programs, w) && x in NamesOf(s) && NamesOf(s)[x] == id;
      assert x in AsSet(ClientsOf(programs, w));
    }
  }

  lemma AtPoolSize(s: System, w: Which)
    requires w in s.m.locks && s.m.locks[w] in s.m.calls && s.m.calls[s.m.locks[w]].Connecting?
    requires s.m.calls[s.m.locks[w]].id !in s.m.g.h.Pool(w).sessions
    ensures |AtPool(s, w)| == |s.m.g.h.Pool(w).sessions| + 1
  {
    assert |AtPool(s, w)| == |s.m.g.h.Pool(w).sessions.Keys| + 1;
  }

  // ---------- over a run ----------

  ghost predicate Kept(s: System, programs: seq<Program>, pgCapacity: Option<nat>, hasMy: bool,
                       myCapacity: Option<nat>) {
    && SysInv(s) && KnownNamed(s) && Fixed(s.m, pgCapacity, hasMy, myCapacity) && |s.clients| == |programs|
    && (forall x :: 0 <= x < |programs| ==> s.clients[x].program == programs[x])
  }

  lemma MoveKeeps(s: System, e: Happening, programs: seq<Program>, pgCapacity: Option<nat>, hasMy: bool,
                  myCapacity: Option<nat>)
    requires Kept(s, programs, pgCapacity, hasMy, myCapacity)
    ensures Kept(Move(s, e), programs, pgCapacity, hasMy, myCapacity)
  {
    hide Move, SysInv, KnownNamed, Fixed, Apply, View, PrivateStep, CP.EventOf;
    MoveRefines(s, e);
    MoveKeepsNamed(s, e);
    CP.MoveIsEvent(s, e);
    ApplyKeepsFixed(s.m, CP.EventOf(s, e), pgCapacity, hasMy, myCapacity);
  }

  lemma {:induction false} MovesKeep(s: System, es: seq<Happening>, programs: seq<Program>, pgCapacity: Option<nat>,
                                     hasMy: bool, myCapacity: Option<nat>)
    requires Kept(s, programs, pgCapacity, hasMy, myCapacity)
    ensures Kept(Moves(s, es), programs, pgCapacity, hasMy, myCapacity)
    decreases |es|
  {
    hide Move, Kept;
    if es != [] {
      MoveKeeps(s, es[0], programs, pgCapacity, hasMy, myCapacity);
      MovesKeep(Move(s, es[0]), es[1..], programs, pgCapacity, hasMy, myCapacity);
    }
  }

  lemma BeginIsKept(programs: seq<Program>, pgCapacity: Option<nat>, hasMy: bool, myCapacity: Option<nat>)
    ensures Kept(Begin(pgCapacity, hasMy, myCapacity, programs), programs, pgCapacity, hasMy, myCapacity)
  {
    BeginIsOk(pgCapacity, hasMy, myCapacity, programs);
    hide SysInv;
  }

  /** More clients of a protocol than its pool has connections; MySQL only if it is served. */
  predicate TooMany(programs: seq<Program>, w: Which, pgCapacity: Option<nat>, hasMy: bool, myCapacity: Option<nat>) {
    && (w.MY? ==> hasMy) && CapacityOf(w, pgCapacity, myCapacity).Some?
    && |ClientsOf(programs, w)| > CapacityOf(w, pgCapacity, myCapacity).value
  }

  lemma JamNeedsTooMany(s: System, programs: seq<Program>, w: Which, pgCapacity: Option<nat>, hasMy: bool,
                        myCapacity: Option<nat>)
    requires Kept(s, programs, pgCapacity, hasMy, myCapacity) && Jammed(s.m, w)
    ensures TooMany(programs, w, pgCapacity, hasMy, myCapacity)
  {
    hide SysInv, KnownNamed, ClientsOf;
    JamCounts(s, programs, w);
    CP.InvOf(s);
    HolderIs(s.m, w);
    ConnectingIsHome(s.m, s.m.locks[w]);
  }

  /** With as many connections as clients no pool ever jams, whatever happens. */
  lemma NeverJams(pgCapacity: Option<nat>, hasMy: bool, myCapacity: Option<nat>, programs: seq<Program>,
                  es: seq<Happening>, w: Which)
    requires !TooMany(programs, w, pgCapacity, hasMy, myCapacity)
    ensures !Jammed(Moves(Begin(pgCapacity, hasMy, myCapacity, programs), es).m, w)
  {
    hide Begin, Moves, Kept, Jammed, TooMany;
    BeginIsKept(programs, pgCapacity, hasMy, myCapacity);
    MovesKeep(Begin(pgCapacity, hasMy, myCapacity, programs), es, programs, pgCapacity, hasMy, myCapacity);
    var n := Moves(Begin(pgCapacity, hasMy, myCapacity, programs), es);
    if Jammed(n.m, w) {
      JamNeedsTooMany(n, programs, w, pgCapacity, hasMy, myCapacity);
    }
  }

  // ---------- and as many clients jam it ----------

  /** A client opens its session without interruption. */
  function Join(x: ClientId, c: CallId, id: SessionId, db: DbOutcome): seq<Happening> {
    [Connect(x, c, id), Serve(c, true, db), Serve(c, true, db), Serve(c, true, db)]
  }

  /** The first clients of `xs` join, one after another. */
  function Joins(xs: seq<ClientId>, k: nat, db: DbOutcome): seq<Happening>
    requires k <= |xs|
  {
    if k == 0 then [] else Joins(xs, k - 1, db) + Join(xs[k - 1], k - 1, NumberedId(k - 1), db)
  }

  lemma ConnectRuns(s: System, x: ClientId, c: CallId, id: SessionId, w: Which, es: seq<Event>)
    requires x < |s.clients| && s.clients[x].phase.Fresh? && s.clients[x].program.Home() == w
    requires c !in s.m.calls && id !in s.m.g.seen && OnlyWork(es)
    ensures var n := Moves(s, [Connect(x, c, id)] + CP.Serving(es));
            && n.m == Run(Apply(s.m, StartCreate(c, ProtocolOf(w), id)), es)
            && n.clients == s.clients[x := s.clients[x].(phase := Phase.Opening(c))]
  {
    hide Apply, Run;
    var all := [Connect(x, c, id)] + CP.Serving(es);
    assert all[1..] == CP.Serving(es);
    var s1 := Move(s, Connect(x, c, id));
    assert s1.m == Apply(s.m, StartCreate(c, ProtocolOf(w), id));
    CP.ServingRuns(s1, es);
    assert Moves(s, all) == Moves(s1, CP.Serving(es));
  }

  lemma JoinRuns(s: System, x: ClientId, c: CallId, id: SessionId, w: Which, db: DbOutcome)
    requires x < |s.clients| && s.clients[x].phase.Fresh? && s.clients[x].program.Home() == w
    requires c !in s.m.calls && id !in s.m.g.seen
    ensures var n := Moves(s, Join(x, c, id, db));
            && n.m == Run(s.m, Create(c, w, id, db))
            && n.clients == s.clients[x := s.clients[x].(phase := Phase.Opening(c))]
  {
    hide Apply, Run, Moves;
    assert Join(x, c, id, db) == [Connect(x, c, id)] + CP.Serving(Deadlock.Turns(c, db));
    ConnectRuns(s, x, c, id, w, Deadlock.Turns(c, db));
    RunCreate(s.m, c, w, id, db);
  }

  /** The first `k` clients have joined; the others are as they were. */
  ghost predicate Joined(n: System, programs: seq<Program>, xs: seq<ClientId>, w: Which, capacity: nat, k: nat)
    requires k <= |xs|
  {
    && Filled(n.m, w, NumberedIds(k), capacity) && |n.clients| == |programs|
    && (forall x :: 0 <= x < |programs| ==> n.clients[x].program == programs[x])
    && (forall x :: 0 <= x < |programs| && x !in xs[..k] ==> n.clients[x].phase.Fresh?)
  }

  lemma OneMoreJoined(n: System, programs: seq<Program>, xs: seq<ClientId>, w: Which, capacity: nat, k: nat,
                      db: DbOutcome)
    requires k < |xs| && k < capacity < TWO_32 && xs == ClientsOf(programs, w)
    requires Joined(n, programs, xs, w, capacity, k)
    ensures Joined(Moves(n, Join(xs[k], k, NumberedId(k), db)), programs, xs, w, capacity, k + 1)
  {
    hide Moves, ClientsOf, NumberedId, Distinct, Run;
    NextIdIsNew(k);
    assert xs[k] !in xs[..k];
    JoinRuns(n, xs[k], k, NumberedId(k), w, db);
    FilledOneMore(n.m, w, NumberedIds(k), NumberedId(k), capacity, db);
    hide Filled, Create;
    assert xs[..k + 1] == xs[..k] + [xs[k]];
  }

  lemma NextIdIsNew(k: nat)
    requires k < TWO_32
    ensures NumberedId(k) !in NumberedIds(k) && NumberedIds(k + 1) == NumberedIds(k) + [NumberedId(k)]
    ensures Distinct(NumberedIds(k))
  {
    hide NumberedId;
    NumberedIdsAreDistinct(k + 1);
    NumberedIdsAreDistinct(k);
    assert NumberedIds(k + 1) == NumberedIds(k) + [NumberedId(k)];
    FrontIsDistinct(NumberedIds(k), NumberedId(k));
  }

  lemma {:induction false} JoinsRun(s: System, programs: seq<Program>, xs: seq<ClientId>, w: Which, capacity: nat,
                                    k: nat, db: DbOutcome)
    requires k <= |xs| && k <= capacity < TWO_32 && xs == ClientsOf(programs, w)
    requires Joined(s, programs, xs, w, capacity, 0)
    ensures Joined(Moves(s, Joins(xs, k, db)), programs, xs, w, capacity, k)
  {
    hide Move, Joined, ClientsOf, NumberedId, Join;
    if k > 0 {
      JoinsRun(s, programs, xs, w, capacity, k - 1, db);
      MovesConcat(s, Joins(xs, k - 1, db), Join(xs[k - 1], k - 1, NumberedId(k - 1), db));
      hide Moves;
      OneMoreJoined(Moves(s, Joins(xs, k - 1, db)), programs, xs, w, capacity, k - 1, db);
    }
  }

  /** As many clients as the pool has connections join; the next one asks and takes the lock. */
  function JamRun(xs: seq<ClientId>, capacity: nat, db: DbOutcome): seq<Happening>
    requires capacity < |xs|
  {
    Joins(xs, capacity, db) + [Connect(xs[capacity], capacity, NumberedId(capacity)), Serve(capacity, true, db)]
  }

  lemma {:induction false} JoinsArePatient(xs: seq<ClientId>, k: nat, db: DbOutcome)
    requires k <= |xs|
    ensures CP.AllPatient(Joins(xs, k, db))
  {
    hide NumberedId;
    if k > 0 {
      JoinsArePatient(xs, k - 1, db);
    }
  }

  lemma LastJoinJams(n: System, programs: seq<Program>, xs: seq<ClientId>, w: Which, capacity: nat, db: DbOutcome)
    requires capacity < |xs| && capacity < TWO_32 && xs == ClientsOf(programs, w)
    requires Joined(n, programs, xs, w, capacity, capacity)
    ensures var last := [Connect(xs[capacity], capacity, NumberedId(capacity)), Serve(capacity, true, db)];
            Jammed(Moves(n, last).m, w)
  {
    hide Moves, ClientsOf, NumberedId, Distinct, Run, Full, Apply;
    var (id, turn) := (NumberedId(capacity), Work(capacity, true, db));
    NextIdIsNew(capacity);
    assert xs[capacity] !in xs[..capacity];
    assert CP.Serving([turn]) == [Serve(capacity, true, db)];
    ConnectRuns(n, xs[capacity], capacity, id, w, [turn]);
    RunOne(Apply(n.m, StartCreate(capacity, ProtocolOf(w), id)), turn);
    RunTwo(n.m, StartCreate(capacity, ProtocolOf(w), id), turn);
    OneTooManyJams(n.m, w, NumberedIds(capacity), id, db);
    assert [Connect(xs[capacity], capacity, id)] + [Serve(capacity, true, db)]
        == [Connect(xs[capacity], capacity, id), Serve(capacity, true, db)];
  }

  lemma NoneJoined(pgCapacity: Option<nat>, hasMy: bool, myCapacity: Option<nat>, programs: seq<Program>, w: Which)
    requires CapacityOf(w, pgCapacity, myCapacity).Some? && (w.MY? ==> hasMy)
    ensures Joined(Begin(pgCapacity, hasMy, myCapacity, programs), programs, ClientsOf(programs, w), w,
                   CapacityOf(w, pgCapacity, myCapacity).value, 0)
  {
    hide Filled, ClientsOf, Start;
    EmptyIsFilled(w, pgCapacity, hasMy, myCapacity);
    assert NumberedIds(0) == [];
  }

  lemma TooManyCanJam(pgCapacity: Option<nat>, hasMy: bool, myCapacity: Option<nat>, programs: seq<Program>,
                      w: Which, db: DbOutcome)
    requires TooMany(programs, w, pgCapacity, hasMy, myCapacity)
    requires CapacityOf(w, pgCapacity, myCapacity).value < TWO_31
    ensures var es := JamRun(ClientsOf(programs, w), CapacityOf(w, pgCapacity, myCapacity).value, db);
            CP.AllPatient(es) && Jammed(Moves(Begin(pgCapacity, hasMy, myCapacity, programs), es).m, w)
  {
    var s := Begin(pgCapacity, hasMy, myCapacity, programs);
    var xs, capacity := ClientsOf(programs, w), CapacityOf(w, pgCapacity, myCapacity).value;
    hide Move, Moves, Joined, ClientsOf, NumberedId, Jammed, Begin;
    NoneJoined(pgCapacity, hasMy, myCapacity, programs, w);
    JoinsRun(s, programs, xs, w, capacity, capacity, db);
    JoinsArePatient(xs, capacity, db);
    var last := [Connect(xs[capacity], capacity, NumberedId(capacity)), Serve(capacity, true, db)];
    MovesConcat(s, Joins(xs, capacity, db), last);
    LastJoinJams(Moves(s, Joins(xs, capacity, db)), programs, xs, w, capacity, db);
  }

  /** The exact condition, known before the start: a pool can jam, in some course of events in
      which no context ends, if and only if more clients speak its protocol than it has
      connections (and, for MySQL, the server serves it). The capacity is a 32-bit number. */
  lemma JamReachableExactlyWhen(pgCapacity: Option<nat>, hasMy: bool, myCapacity: Option<nat>, programs: seq<Program>,
                                w: Which, db: DbOutcome)
    requires CapacityOf(w, pgCapacity, myCapacity).Some? ==> CapacityOf(w, pgCapacity, myCapacity).value < TWO_31
    ensures (exists es :: CP.AllPatient(es) && Jammed(Moves(Begin(pgCapacity, hasMy, myCapacity, programs), es).m, w))
            <==> TooMany(programs, w, pgCapacity, hasMy, myCapacity)
  {
    hide Begin, Moves, Jammed, ClientsOf, CP.AllPatient;
    if TooMany(programs, w, pgCapacity, hasMy, myCapacity) {
      TooManyCanJam(pgCapacity, hasMy, myCapacity, programs, w, db);
    } else {
      forall es ensures !Jammed(Moves(Begin(pgCapacity, hasMy, myCapacity, programs), es).m, w) {
        NeverJams(pgCapacity, hasMy, myCapacity, programs, es, w);
      }
    }
  }

  /** Hence with as many connections as clients, in both pools, no client is ever stuck. */
  lemma EnoughConnectionsSuffice(pgCapacity: Option<nat>, hasMy: bool, myCapacity: Option<nat>, programs: seq<Program>,
                                 es: seq<Happening>, x: ClientId, c: CallId, db: DbOutcome)
    requires !TooMany(programs, PG, pgCapacity, hasMy, myCapacity)
    requires !TooMany(programs, MY, pgCapacity, hasMy, myCapacity)
    requires var n := Moves(Begin(pgCapacity, hasMy, myCapacity, programs), es);
             x < |n.clients| && c !in n.m.calls && CP.Going(n.clients[x])
    ensures var n := Moves(Begin(pgCapacity, hasMy, myCapacity, programs), es);
            CP.GotOn(n, Moves(n, CP.WayOn(n, x, c, db)), x)
  {
    hide Begin, Moves, Jammed, ClientsOf, CP.GotOn, CP.Going, CP.Needs, SysInv, TooMany, Kept;
    NeverJams(pgCapacity, hasMy, myCapacity, programs, es, PG);
    NeverJams(pgCapacity, hasMy, myCapacity, programs, es, MY);
    BeginIsOk(pgCapacity, hasMy, myCapacity, programs);
    BeginIsKept(programs, pgCapacity, hasMy, myCapacity);
    var s := Begin(pgCapacity, hasMy, myCapacity, programs);
    MovesKeep(s, es, programs, pgCapacity, hasMy, myCapacity);
    var n := Moves(s, es);
    KeptIsOk(n, programs, pgCapacity, hasMy, myCapacity);
    if CP.Needs(n, x).Some? {
      assert CP.Needs(n, x).value == PG || CP.Needs(n, x).value == MY;
    }
    CP.NeverStuck(n, x, c, db);
  }

  lemma KeptIsOk(s: System, programs: seq<Program>, pgCapacity: Option<nat>, hasMy: bool, myCapacity: Option<nat>)
    requires Kept(s, programs, pgCapacity, hasMy, myCapacity)
    ensures SysInv(s)
  {
    hide SysInv;
  }
}
