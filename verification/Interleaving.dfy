/** Calls of the handler interleaved in any way. Every call is cut at its lock regions and
    pool calls; between two cuts of one call any number of other calls may move. */
module Interleaving {
  import opened ByteStrings
  import opened Http
  import opened MessageTypes
  import opened Pools
  import opened HandlerState

  type CallId = nat

  /** Where a call stands: what it does next, or what it returned. */
  datatype Call =
    | Acquiring(w: Which, id: SessionId)                          // wants the lock of the pool
    | Connecting(w: Which, id: SessionId)                         // holds it, wants a connection
    | Recording(w: Which, id: SessionId)                          // writes sessionPools
    | Created(id: SessionId)
    | CreateFailed
    | Asked(id: SessionId, kind: byte, sql: bytes)                // looks at the message type
    | LookingUp(id: SessionId, sql: bytes)                        // reads sessionPools
    | Finding(id: SessionId, sql: bytes, w: Which)                // looks up the connection
    | Running(id: SessionId, sql: bytes, w: Which, lease: Lease)  // runs the statement
    | Answered(id: SessionId, reply: HttpReply, ran: bool)
    | Closing(id: SessionId)                                      // reads sessionPools
    | Releasing(id: SessionId, w: Which)                          // releases in the mapped pool
    | ReleasingPg(id: SessionId)                                  // no mapping: releases in both
    | ReleasingMy(id: SessionId)
    | Forgetting(id: SessionId)                                   // deletes the entries
    | Closed(id: SessionId)

  /** The handler and the history the claims speak of: ids ever mentioned (`seen`), returned
      to a caller (`known`), released by a close (`released`), the pool an id was created for
      (`home`) and the id a connection was taken for (`owner`). */
  datatype World = World(
    h: HState, seen: set<SessionId>, known: set<SessionId>, released: set<SessionId>,
    home: map<SessionId, Which>, owner: map<Connection, SessionId>)

  /** `locks`: the call that is inside AcquireSession of a pool, holding the pool's lock. The
      other lock regions end with the step they are. */
  datatype Machine = Machine(g: World, calls: map<CallId, Call>, locks: map<Which, CallId>)

  /** What the schedule does next: a new call, or one step of a call in flight. */
  datatype Event =
    | StartCreate(c: CallId, protocol: Protocol, id: SessionId)
    | StartQuery(c: CallId, id: SessionId, kind: byte, sql: bytes)
    | StartClose(c: CallId, id: SessionId)
    | Work(c: CallId, reachable: bool, db: DbOutcome)

  /** A caller can name an id it was given, or one that was never given out. */
  predicate Speakable(g: World, id: SessionId) {
    id in g.known || id !in g.home
  }

  /** HandleQuery up to its first lock region. */
  function Dispatch(g: World, id: SessionId, kind: byte, sql: bytes): (World, Call) {
    if kind == PARSE then (g.(h := g.h.CacheStep(id, sql)), Answered(id, Replied(Nothing()), false))
    else if kind == BIND then
      (g, Answered(id, Replied(if g.h.Cached(id) == [] then Failure(NO_STATEMENT) else Nothing()), false))
    else if kind == DESCRIBE || kind == SYNC then (g, Answered(id, Replied(Nothing()), false))
    else if kind == EXECUTE && g.h.Cached(id) == [] then (g, Answered(id, HttpFailed(NO_STATEMENT), false))
    else (g, LookingUp(id, if kind == EXECUTE then g.h.Cached(id) else sql))
  }

  function Acquire(g: World, w: Which, id: SessionId, reachable: bool): (World, Call) {
    var (h1, r) := g.h.AcquireStep(w, id, reachable);
    if r.Waits? then (g, Connecting(w, id))
    else if r.Got? && id in h1.Pool(w).sessions then
      (g.(h := h1, owner := g.owner[On(w, h1.Pool(w).sessions[id]) := id]), Recording(w, id))
    else (g, CreateFailed)
  }

  function Record(g: World, w: Which, id: SessionId): World {
    g.(h := g.h.RecordStep(w, id), known := g.known + {id})
  }

  function RunSql(g: World, w: Which, lease: Lease, id: SessionId, sql: bytes, db: DbOutcome): (World, Call) {
    var (h1, response) := g.h.RunStep(w, lease, id, sql, db);
    (g.(h := h1), Answered(id, Replied(response), lease !in g.h.Pool(w).backing.returned))
  }

  function Release(g: World, w: Which, id: SessionId): World {
    g.(h := g.h.ReleaseStep(w, id))
  }

  function MarkReleased(g: World, id: SessionId): World {
    g.(released := g.released + {id})
  }

  /** One step of a call. */
  function Step(g: World, call: Call, reachable: bool, db: DbOutcome): (World, Call) {
    match call
    case Acquiring(w, id) => (g, Connecting(w, id))
    case Connecting(w, id) => Acquire(g, w, id, reachable)
    case Recording(w, id) => (Record(g, w, id), Created(id))
    case Asked(id, kind, sql) => Dispatch(g, id, kind, sql)
    case LookingUp(id, sql) => (g, Finding(id, sql, g.h.LookupStep(id)))
    case Finding(id, sql, w) =>
      (match g.h.Pool(w).Find(id)
       case None => (g, Answered(id, Replied(NotFound(id)), false))
       case Some(lease) => (g, Running(id, sql, w, lease)))
    case Running(id, sql, w, lease) => RunSql(g, w, lease, id, sql, db)
    case Closing(id) => (g, if id in g.h.mapped then Releasing(id, g.h.mapped[id]) else ReleasingPg(id))
    case Releasing(id, w) => (MarkReleased(Release(g, w, id), id), Forgetting(id))
    case ReleasingPg(id) => (Release(g, PG, id), ReleasingMy(id))
    case ReleasingMy(id) => (MarkReleased(Release(g, MY, id), id), Forgetting(id))
    case Forgetting(id) => (g.(h := g.h.ForgetStep(id)), Closed(id))
    case _ => (g, call)
  }

  function Mentioned(g: World, id: SessionId): World {
    g.(seen := g.seen + {id})
  }

  /** The pool whose lock the next step of a call needs. */
  function PoolNeeded(call: Call): Option<Which> {
    match call
    case Acquiring(w, _) => Some(w)
    case Connecting(w, _) => Some(w)
    case Finding(_, _, w) => Some(w)
    case Releasing(_, w) => Some(w)
    case ReleasingPg(_) => Some(PG)
    case ReleasingMy(_) => Some(MY)
    case _ => None
  }

  /** Another call is inside AcquireSession of the pool this one needs. */
  predicate Blocked(locks: map<Which, CallId>, call: Call) {
    !call.Connecting? && PoolNeeded(call).Some? && PoolNeeded(call).value in locks
  }

  function LocksAfter(locks: map<Which, CallId>, c: CallId, call: Call, next: Call): map<Which, CallId> {
    if call.Acquiring? then locks[call.w := c]
    else if call.Connecting? && !next.Connecting? then locks - {call.w}
    else locks
  }

  /** Events that cannot happen, and steps of a call that is blocked, leave the machine as it is. */
  function Apply(m: Machine, e: Event): Machine {
    match e
    case StartCreate(c, protocol, id) =>
      if c in m.calls || id in m.g.seen then m
      else
        (match m.g.h.PoolFor(protocol)
         case None => m.(g := Mentioned(m.g, id), calls := m.calls[c := CreateFailed])
         case Some(w) => m.(g := Mentioned(m.g, id).(home := m.g.home[id := w]),
           calls := m.calls[c := Acquiring(w, id)]))
    case StartQuery(c, id, kind, sql) =>
      if c in m.calls || !Speakable(m.g, id) then m
      else m.(g := Mentioned(m.g, id), calls := m.calls[c := Asked(id, kind, sql)])
    case StartClose(c, id) =>
      if c in m.calls || !Speakable(m.g, id) then m
      else m.(g := Mentioned(m.g, id), calls := m.calls[c := Closing(id)])
    case Work(c, reachable, db) =>
      if c !in m.calls || Blocked(m.locks, m.calls[c]) then m
      else
        var (g, call) := Step(m.g, m.calls[c], reachable, db);
        Machine(g, m.calls[c := call], LocksAfter(m.locks, c, m.calls[c], call))
  }

  function Run(m: Machine, es: seq<Event>): Machine
    decreases |es|
  {
    if es == [] then m else Run(Apply(m, es[0]), es[1..])
  }

  function Start(pgCapacity: Option<nat>, hasMy: bool, myCapacity: Option<nat>): Machine {
    Machine(World(HState(Empty(pgCapacity), Empty(myCapacity), hasMy, map[], map[], []), {}, {}, {}, map[], map[]),
      map[], map[])
  }

  // ---------- the invariant ----------

  ghost predicate HomeIs(home: map<SessionId, Which>, id: SessionId, w: Which) {
    id in home && home[id] == w
  }

  ghost predicate IdsOk(mapped: map<SessionId, Which>, seen: set<SessionId>, known: set<SessionId>,
                        home: map<SessionId, Which>) {
    && known <= home.Keys <= seen && mapped.Keys <= known
    && (forall id <- mapped :: HomeIs(home, id, mapped[id]))
  }

  /** Whatever a pool holds was created for that pool. */
  ghost predicate HomeOk(w: Which, sessions: map<SessionId, Lease>, home: map<SessionId, Which>) {
    forall id <- sessions :: HomeIs(home, id, w)
  }

  ghost predicate ReleasedOk(pg: map<SessionId, Lease>, my: map<SessionId, Lease>, seen: set<SessionId>,
                             known: set<SessionId>, home: map<SessionId, Which>, released: set<SessionId>) {
    forall id <- released ::
      id in seen && (id in known || id !in home) && id !in pg && id !in my
  }

  /** A known id that was not released is mapped, and held by its pool. */
  ghost predicate LiveOk(pg: map<SessionId, Lease>, my: map<SessionId, Lease>, mapped: map<SessionId, Which>,
                         known: set<SessionId>, home: map<SessionId, Which>, released: set<SessionId>) {
    forall id <- known :: id !in released ==>
      id in mapped && id in home && id in (if home[id].PG? then pg else my)
  }

  ghost predicate NewId(g: World, w: Which, id: SessionId) {
    HomeIs(g.home, id, w) && id in g.seen && id !in g.known && id !in g.released
  }

  ghost predicate Unowned(owner: map<Connection, SessionId>, id: SessionId) {
    forall k <- owner :: owner[k] != id
  }

  /** The lease of pool `p` is still held for the id, or was given back. */
  ghost predicate HeldOrReturned(p: PoolState, id: SessionId, lease: Lease) {
    lease in p.backing.returned || p.Find(id) == Some(lease)
  }

  ghost predicate OwnedBy(owner: map<Connection, SessionId>, k: Connection, id: SessionId) {
    k in owner && owner[k] == id
  }

  ghost predicate Spoken(g: World, id: SessionId) {
    id in g.seen && Speakable(g, id)
  }

  ghost predicate CallOk(g: World, call: Call) {
    match call
    case Acquiring(w, id) => NewId(g, w, id) && id !in g.h.Pool(w).sessions && Unowned(g.owner, id)
    case Connecting(w, id) => NewId(g, w, id) && id !in g.h.Pool(w).sessions && Unowned(g.owner, id)
    case Recording(w, id) => NewId(g, w, id) && id in g.h.Pool(w).sessions
    case Created(id) => id in g.known
    case CreateFailed => true
    case Finding(id, _, w) => Spoken(g, id) && (w == MY ==> id in g.known && HomeIs(g.home, id, w))
    case Running(id, _, w, lease) =>
      && id in g.known && HomeIs(g.home, id, w)
      && OwnedBy(g.owner, On(w, lease), id) && HeldOrReturned(g.h.Pool(w), id, lease)
    case Releasing(id, w) => id in g.known && HomeIs(g.home, id, w)
    case ReleasingPg(id) => Spoken(g, id) && (id in g.known ==> id in g.released)
    case ReleasingMy(id) => Spoken(g, id) && (id in g.known ==> id in g.released)
    case Forgetting(id) => id in g.released
    case Closed(id) => id in g.released
    case _ => Spoken(g, call.id)
  }

  predicate Creating(call: Call) {
    call.Acquiring? || call.Connecting? || call.Recording?
  }

  /** Every connection was taken for one id. */
  ghost predicate TakenOk(w: Which, p: PoolState, home: map<SessionId, Which>, owner: map<Connection, SessionId>) {
    && (forall k <- owner :: k.w == w ==>
          HomeIs(home, owner[k], w) && k.lease < p.backing.taken && HeldOrReturned(p, owner[k], k.lease))
    && (forall id <- p.sessions :: OwnedBy(owner, On(w, p.sessions[id]), id))
  }

  /** No id ever had two. */
  ghost predicate OnceOk(owner: map<Connection, SessionId>) {
    forall j, k :: j in owner && k in owner && owner[j] == owner[k] ==> j == k
  }

  /** Every statement ran on the connection taken for the session that asked for it. */
  ghost predicate RanOk(ran: seq<Statement>, known: set<SessionId>, owner: map<Connection, SessionId>) {
    forall i :: 0 <= i < |ran| ==> OwnedBy(owner, On(ran[i].w, ran[i].lease), ran[i].id) && ran[i].id in known
  }

  ghost predicate Owning(owner: map<Connection, SessionId>, id: SessionId) {
    exists k :: OwnedBy(owner, k, id)
  }

  /** A connection was taken for every known id. */
  ghost predicate KnownOk(known: set<SessionId>, owner: map<Connection, SessionId>) {
    forall id <- known :: Owning(owner, id)
  }

  ghost predicate WorldOk(g: World) {
    && g.h.pg.Valid() && g.h.my.Valid()
    && IdsOk(g.h.mapped, g.seen, g.known, g.home)
    && HomeOk(PG, g.h.pg.sessions, g.home) && HomeOk(MY, g.h.my.sessions, g.home)
    && ReleasedOk(g.h.pg.sessions, g.h.my.sessions, g.seen, g.known, g.home, g.released)
    && LiveOk(g.h.pg.sessions, g.h.my.sessions, g.h.mapped, g.known, g.home, g.released)
    && TakenOk(PG, g.h.pg, g.home, g.owner) && TakenOk(MY, g.h.my, g.home, g.owner)
    && OnceOk(g.owner) && RanOk(g.h.ran, g.known, g.owner) && KnownOk(g.known, g.owner)
  }

  /** A held id is known or still being created. */
  ghost predicate HeldOk(m: Machine) {
    forall id <- m.g.home :: id in m.g.h.Pool(m.g.home[id]).sessions ==>
      id in m.g.known || exists c :: c in m.calls && m.calls[c] == Recording(m.g.home[id], id)
  }

  /** No two calls create the same id. */
  ghost predicate CreatesOk(calls: map<CallId, Call>) {
    forall c, d ::
      c in calls && d in calls && Creating(calls[c]) && Creating(calls[d]) && calls[c].id == calls[d].id
      ==> c == d
  }

  ghost predicate CallsOk(m: Machine) {
    forall c <- m.calls :: CallOk(m.g, m.calls[c])
  }

  /** A lock is held by exactly the call that is inside AcquireSession of its pool. */
  ghost predicate LocksOk(calls: map<CallId, Call>, locks: map<Which, CallId>) {
    && (forall w <- locks :: locks[w] in calls && calls[locks[w]].Connecting? && calls[locks[w]].w == w)
    && (forall c <- calls :: calls[c].Connecting? ==> calls[c].w in locks && locks[calls[c].w] == c)
  }

  ghost predicate Inv(m: Machine) {
    WorldOk(m.g) && HeldOk(m) && CallsOk(m) && CreatesOk(m.calls) && LocksOk(m.calls, m.locks)
  }

  // ---------- every step keeps it: the world and the call that moves ----------

  lemma AcquireKeeps(g: World, w: Which, id: SessionId, reachable: bool)
    requires WorldOk(g) && CallOk(g, Connecting(w, id))
    ensures var (g', call') := Acquire(g, w, id, reachable); WorldOk(g') && CallOk(g', call')
  {
    hide PoolState.Valid, IdsOk, TakenOk, OnceOk, RanOk, KnownOk, ReleasedOk, LiveOk, HomeOk, Unowned;
    var p := g.h.Pool(w);
    AcquireKeepsValid(p, id, reachable);
    if p.Acquire(id, reachable).1.Got? {
      var k := On(w, p.backing.taken);
      NextIsUnowned(w, p, g.home, g.owner);
      AcquireTaken(w, p, g.home, g.owner, id);
      OtherTaken(w, g.h.Pool(Other(w)), g.home, g.owner, k, id);
      AcquireOnce(g.owner, k, id);
      AcquireRan(g.h.ran, g.known, g.owner, k, id);
      AcquireKnown(g.known, g.owner, k, id);
      AcquireHome(w, p.sessions, g.home, id, k.lease);
      AcquireReleased(g, w, id, k.lease);
    }
  }

  lemma NextIsUnowned(w: Which, p: PoolState, home: map<SessionId, Which>, owner: map<Connection, SessionId>)
    requires p.Valid() && TakenOk(w, p, home, owner)
    ensures On(w, p.backing.taken) !in owner
    ensures forall i :: 0 <= i < |p.backing.returned| ==> p.backing.returned[i] < p.backing.taken
  {
  }

  lemma AcquireHome(w: Which, sessions: map<SessionId, Lease>, home: map<SessionId, Which>, id: SessionId, lease: Lease)
    requires HomeOk(w, sessions, home) && HomeIs(home, id, w)
    ensures HomeOk(w, sessions[id := lease], home)
  {
  }

  lemma AcquireReleased(g: World, w: Which, id: SessionId, lease: Lease)
    requires ReleasedOk(g.h.pg.sessions, g.h.my.sessions, g.seen, g.known, g.home, g.released)
    requires LiveOk(g.h.pg.sessions, g.h.my.sessions, g.h.mapped, g.known, g.home, g.released)
    requires id !in g.released
    ensures var pg := if w.PG? then g.h.pg.sessions[id := lease] else g.h.pg.sessions;
            var my := if w.MY? then g.h.my.sessions[id := lease] else g.h.my.sessions;
            && ReleasedOk(pg, my, g.seen, g.known, g.home, g.released)
            && LiveOk(pg, my, g.h.mapped, g.known, g.home, g.released)
  {
  }

  function Other(w: Which): Which {
    if w.PG? then MY else PG
  }

  lemma AcquireTaken(w: Which, p: PoolState, home: map<SessionId, Which>, owner: map<Connection, SessionId>,
                     id: SessionId)
    requires TakenOk(w, p, home, owner) && HomeIs(home, id, w) && id !in p.sessions && Unowned(owner, id)
    ensures TakenOk(w, PoolState(p.sessions[id := p.backing.taken], p.backing.(taken := p.backing.taken + 1)), home,
                    owner[On(w, p.backing.taken) := id])
  {
  }

  lemma OtherTaken(w: Which, p: PoolState, home: map<SessionId, Which>, owner: map<Connection, SessionId>,
                   k: Connection, id: SessionId)
    requires TakenOk(Other(w), p, home, owner) && k.w == w
    ensures TakenOk(Other(w), p, home, owner[k := id])
  {
  }

  lemma AcquireOnce(owner: map<Connection, SessionId>, k: Connection, id: SessionId)
    requires OnceOk(owner) && Unowned(owner, id)
    ensures OnceOk(owner[k := id])
  {
  }

  lemma AcquireRan(ran: seq<Statement>, known: set<SessionId>, owner: map<Connection, SessionId>, k: Connection,
                   id: SessionId)
    requires RanOk(ran, known, owner) && k !in owner
    ensures RanOk(ran, known, owner[k := id])
  {
  }

  lemma AcquireKnown(known: set<SessionId>, owner: map<Connection, SessionId>, k: Connection, id: SessionId)
    requires KnownOk(known, owner) && k !in owner
    ensures KnownOk(known, owner[k := id])
  {
    forall i | i in known ensures Owning(owner[k := id], i) {
      assert Owning(owner, i);
      var j :| OwnedBy(owner, j, i);
      assert OwnedBy(owner[k := id], j, i);
    }
  }

  lemma RecordKnown(w: Which, p: PoolState, home: map<SessionId, Which>, known: set<SessionId>,
                    owner: map<Connection, SessionId>, id: SessionId)
    requires KnownOk(known, owner) && TakenOk(w, p, home, owner) && id in p.sessions
    ensures KnownOk(known + {id}, owner)
  {
    hide HeldOrReturned, HomeIs;
    assert OwnedBy(owner, On(w, p.sessions[id]), id);
  }

  lemma ValidBound(p: PoolState)
    requires p.Valid()
    ensures forall i :: 0 <= i < |p.backing.returned| ==> p.backing.returned[i] < p.backing.taken
    ensures forall id <- p.sessions :: p.sessions[id] < p.backing.taken && p.sessions[id] !in p.backing.returned
  {
  }

  lemma RecordKeeps(g: World, w: Which, id: SessionId)
    requires WorldOk(g) && CallOk(g, Recording(w, id))
    ensures WorldOk(Record(g, w, id)) && CallOk(Record(g, w, id), Created(id))
  {
    hide PoolState.Valid, HomeOk, OnceOk, KnownOk, HeldOrReturned, HomeIs;
    RecordKnown(w, g.h.Pool(w), g.home, g.known, g.owner, id);
    RecordIds(g, w, id);
    hide TakenOk, IdsOk, LiveOk, RanOk, ReleasedOk;
  }

  lemma RecordIds(g: World, w: Which, id: SessionId)
    requires NewId(g, w, id) && id in g.h.Pool(w).sessions
    requires IdsOk(g.h.mapped, g.seen, g.known, g.home)
    requires LiveOk(g.h.pg.sessions, g.h.my.sessions, g.h.mapped, g.known, g.home, g.released)
    requires ReleasedOk(g.h.pg.sessions, g.h.my.sessions, g.seen, g.known, g.home, g.released)
    requires RanOk(g.h.ran, g.known, g.owner)
    ensures var (mapped, known) := (g.h.mapped[id := w], g.known + {id});
            && IdsOk(mapped, g.seen, known, g.home)
            && LiveOk(g.h.pg.sessions, g.h.my.sessions, mapped, known, g.home, g.released)
            && ReleasedOk(g.h.pg.sessions, g.h.my.sessions, g.seen, known, g.home, g.released)
            && RanOk(g.h.ran, known, g.owner)
  {
    hide OwnedBy;
  }

  lemma DispatchKeeps(g: World, id: SessionId, kind: byte, sql: bytes)
    requires WorldOk(g) && Spoken(g, id)
    ensures var (g', call') := Dispatch(g, id, kind, sql); WorldOk(g') && CallOk(g', call')
  {
    hide PoolState.Valid, KnownOk, HomeOk, IdsOk, RanOk, TakenOk, OnceOk, ReleasedOk, LiveOk;
  }

  lemma LookUpKeeps(g: World, id: SessionId, sql: bytes)
    requires WorldOk(g) && Spoken(g, id)
    ensures CallOk(g, Finding(id, sql, g.h.LookupStep(id)))
  {
    hide PoolState.Valid, KnownOk, HomeOk, RanOk, TakenOk, OnceOk, ReleasedOk, LiveOk;
  }

  lemma FindKeeps(g: World, id: SessionId, sql: bytes, w: Which, lease: Lease)
    requires WorldOk(g) && CallOk(g, Finding(id, sql, w)) && g.h.Pool(w).Find(id) == Some(lease)
    ensures CallOk(g, Running(id, sql, w, lease))
  {
    hide PoolState.Valid, KnownOk, RanOk, OnceOk, ReleasedOk, LiveOk;
  }

  lemma RunSqlKeeps(g: World, w: Which, lease: Lease, id: SessionId, sql: bytes, db: DbOutcome)
    requires WorldOk(g) && CallOk(g, Running(id, sql, w, lease))
    ensures var (g', call') := RunSql(g, w, lease, id, sql, db); WorldOk(g') && CallOk(g', call')
  {
    hide PoolState.Valid, KnownOk, HomeOk, Respond, TakenOk, OnceOk, ReleasedOk, LiveOk, HeldOrReturned;
  }

  /** Releasing an id that is known, and marking it, or releasing one that holds nothing. */
  lemma ReleaseKeeps(g: World, w: Which, id: SessionId)
    requires WorldOk(g) && Spoken(g, id) && (id in g.known ==> HomeIs(g.home, id, w) || id in g.released)
    ensures WorldOk(MarkReleased(Release(g, w, id), id))
    ensures (id in g.known ==> id in g.released) ==> WorldOk(Release(g, w, id))
  {
    ReleaseKeepsValid(g.h.Pool(w), id);
    ReleaseTaken(w, g.h.Pool(w), g.home, g.owner, id);
    ReleaseLive(g, w, id);
    hide PoolState.Valid, KnownOk, TakenOk, OnceOk, RanOk, ReleasedOk, LiveOk, IdsOk;
  }

  lemma ReleaseLive(g: World, w: Which, id: SessionId)
    requires WorldOk(g) && Spoken(g, id) && (id in g.known ==> HomeIs(g.home, id, w) || id in g.released)
    ensures var g1 := Release(g, w, id);
            && ReleasedOk(g1.h.pg.sessions, g1.h.my.sessions, g.seen, g.known, g.home, g.released + {id})
            && LiveOk(g1.h.pg.sessions, g1.h.my.sessions, g.h.mapped, g.known, g.home, g.released + {id})
            && ((id in g.known ==> id in g.released) ==>
                  && ReleasedOk(g1.h.pg.sessions, g1.h.my.sessions, g.seen, g.known, g.home, g.released)
                  && LiveOk(g1.h.pg.sessions, g1.h.my.sessions, g.h.mapped, g.known, g.home, g.released))
  {
    hide PoolState.Valid, KnownOk, TakenOk, OnceOk, RanOk;
  }

  lemma ReleaseTaken(w: Which, p: PoolState, home: map<SessionId, Which>, owner: map<Connection, SessionId>,
                     id: SessionId)
    requires TakenOk(w, p, home, owner)
    ensures TakenOk(w, p.Release(id), home, owner)
  {
    var q := p.Release(id);
    if q != p {
      assert q.backing.returned[|p.backing.returned|] == p.sessions[id];
    }
  }

  lemma ForgetKeeps(g: World, id: SessionId)
    requires WorldOk(g) && id in g.released
    ensures var g' := g.(h := g.h.ForgetStep(id)); WorldOk(g') && CallOk(g', Closed(id))
  {
    hide PoolState.Valid, KnownOk, HomeOk, TakenOk, OnceOk, RanOk, ReleasedOk;
  }

  lemma StepKeepsWorld(g: World, call: Call, reachable: bool, db: DbOutcome)
    requires WorldOk(g) && CallOk(g, call)
    ensures var (g', call') := Step(g, call, reachable, db); WorldOk(g') && CallOk(g', call')
  {
    hide WorldOk, Acquire, Record, RunSql, Release, MarkReleased, Dispatch;
    match call
    case Connecting(w, id) => AcquireKeeps(g, w, id, reachable);
    case Recording(w, id) => RecordKeeps(g, w, id);
    case Asked(id, kind, sql) => DispatchKeeps(g, id, kind, sql);
    case LookingUp(id, sql) => LookUpKeeps(g, id, sql);
    case Finding(id, sql, w) =>
      if g.h.Pool(w).Find(id).Some? {
        FindKeeps(g, id, sql, w, g.h.Pool(w).Find(id).value);
      }
    case Running(id, sql, w, lease) => RunSqlKeeps(g, w, lease, id, sql, db);
    case Closing(id) => ClosingKeeps(g, id);
    case Releasing(_, _) => ReleasingKeeps(g, call, reachable, db);
    case ReleasingPg(_) => ReleasingKeeps(g, call, reachable, db);
    case ReleasingMy(_) => ReleasingKeeps(g, call, reachable, db);
    case Forgetting(id) => ForgetKeeps(g, id);
    case _ =>
  }

  predicate IsReleasing(call: Call) {
    call.Releasing? || call.ReleasingPg? || call.ReleasingMy?
  }

  /** The step of a release: in the mapped pool, or in both, one after the other. */
  function ReleaseStepOf(g: World, call: Call): (World, Call)
    requires IsReleasing(call)
  {
    match call
    case ReleasingPg(id) => (Release(g, PG, id), ReleasingMy(id))
    case ReleasingMy(id) => (MarkReleased(Release(g, MY, id), id), Forgetting(id))
    case Releasing(id, w) => (MarkReleased(Release(g, w, id), id), Forgetting(id))
  }

  lemma StepIsRelease(g: World, call: Call, reachable: bool, db: DbOutcome)
    requires IsReleasing(call)
    ensures Step(g, call, reachable, db) == ReleaseStepOf(g, call)
  {
    hide Release, MarkReleased, Dispatch, RunSql, Acquire, Record;
  }

  lemma ReleasingKeeps(g: World, call: Call, reachable: bool, db: DbOutcome)
    requires WorldOk(g) && CallOk(g, call) && IsReleasing(call)
    ensures var (g', call') := Step(g, call, reachable, db); WorldOk(g') && CallOk(g', call')
  {
    hide WorldOk, Release, MarkReleased, Step, HeldOrReturned, Unowned;
    StepIsRelease(g, call, reachable, db);
    if call.Releasing? {
      ReleasingIsSpoken(g, call.id, call.w);
    }
    var w := if call.Releasing? then call.w else if call.ReleasingPg? then PG else MY;
    ReleaseKeeps(g, w, call.id);
    ReleaseMarks(g, w, call.id);
  }

  lemma ReleaseMarks(g: World, w: Which, id: SessionId)
    ensures id in MarkReleased(Release(g, w, id), id).released
    ensures Release(g, w, id) == g.(h := g.h.ReleaseStep(w, id))
  {
  }

  lemma ReleasingIsSpoken(g: World, id: SessionId, w: Which)
    requires WorldOk(g) && id in g.known
    ensures Spoken(g, id)
  {
  }

  lemma ClosingKeeps(g: World, id: SessionId)
    requires WorldOk(g) && Spoken(g, id)
    ensures CallOk(g, if id in g.h.mapped then Releasing(id, g.h.mapped[id]) else ReleasingPg(id))
  {
    hide PoolState.Valid, KnownOk, HomeOk, TakenOk, OnceOk, RanOk, ReleasedOk;
  }

  // ---------- and the calls that do not move ----------

  predicate Apart(a: Call, b: Call) {
    Creating(a) && Creating(b) ==> a.id != b.id
  }

  /** The world after an acquire, in what other calls rely on. */
  ghost predicate AfterAcquire(g: World, n: World, w: Which, id: SessionId) {
    && n.seen == g.seen && n.known == g.known && n.released == g.released && n.home == g.home
    && n.h.Pool(Other(w)) == g.h.Pool(Other(w)) && n.h.Pool(w).backing.returned == g.h.Pool(w).backing.returned
    && (forall k :: k != id ==> n.h.Pool(w).Find(k) == g.h.Pool(w).Find(k))
    && (forall k <- g.owner :: k in n.owner && n.owner[k] == g.owner[k])
    && (forall k <- n.owner :: k in g.owner || n.owner[k] == id)
  }

  lemma AcquireIs(g: World, w: Which, id: SessionId, reachable: bool)
    requires On(w, g.h.Pool(w).backing.taken) !in g.owner && id !in g.h.Pool(w).sessions
    ensures AfterAcquire(g, Acquire(g, w, id, reachable).0, w, id)
  {
    AcquireHolds(g.h.Pool(w), id, reachable);
    hide PoolState.Acquire, PoolState.Find;
  }

  lemma AcquireLeaves(g: World, w: Which, id: SessionId, reachable: bool, other: Call)
    requires WorldOk(g) && CallOk(g, Connecting(w, id)) && CallOk(g, other) && Apart(Connecting(w, id), other)
    ensures CallOk(Acquire(g, w, id, reachable).0, other)
  {
    WorldTakes(g, w);
    hide WorldOk, PoolState.Valid, TakenOk, Acquire, AfterAcquire, Unowned;
    NextIsUnowned(w, g.h.Pool(w), g.home, g.owner);
    AcquireIs(g, w, id, reachable);
    if other.Running? {
      AcquiredLeavesRunning(g, Acquire(g, w, id, reachable).0, w, id, other);
    } else {
      AcquiredLeaves(g, Acquire(g, w, id, reachable).0, w, id, other);
    }
    hide CallOk;
  }

  lemma AcquiredLeavesRunning(g: World, n: World, w: Which, id: SessionId, other: Call)
    requires AfterAcquire(g, n, w, id) && other.Running? && CallOk(g, other) && id !in g.known
    ensures CallOk(n, other)
  {
    hide PoolState.Find, HomeIs;
    assert other.w == w || other.w == Other(w);
  }

  lemma AcquiredLeaves(g: World, n: World, w: Which, id: SessionId, other: Call)
    requires AfterAcquire(g, n, w, id) && !other.Running? && CallOk(g, other) && (Creating(other) ==> other.id != id)
    ensures CallOk(n, other)
  {
    hide HomeIs;
    if Creating(other) {
      assert other.w == w || other.w == Other(w);
      assert n.h.Pool(other.w).Find(other.id) == g.h.Pool(other.w).Find(other.id);
    }
  }

  lemma WorldTakes(g: World, w: Which)
    requires WorldOk(g)
    ensures g.h.Pool(w).Valid() && TakenOk(w, g.h.Pool(w), g.home, g.owner)
  {
    hide PoolState.Valid, KnownOk, HomeOk, OnceOk, RanOk, ReleasedOk, LiveOk, TakenOk, IdsOk;
  }

  /** What AcquireSession leaves as it is, for any other session. */
  lemma AcquireHolds(p: PoolState, id: SessionId, reachable: bool)
    ensures var q := p.Acquire(id, reachable).0;
            && q.backing.returned == p.backing.returned
            && (forall k :: k != id ==> (k in q.sessions <==> k in p.sessions) && q.Find(k) == p.Find(k))
            && (p.Acquire(id, reachable).1.Got? && id !in p.sessions ==>
                  q.sessions == p.sessions[id := p.backing.taken])
            && (id in p.sessions ==> q == p)
  {
  }

  lemma RecordLeaves(g: World, w: Which, id: SessionId, other: Call)
    requires WorldOk(g) && CallOk(g, Recording(w, id)) && CallOk(g, other) && Apart(Recording(w, id), other)
    ensures CallOk(Record(g, w, id), other)
  {
    hide PoolState.Valid, KnownOk, HomeOk, OnceOk, RanOk, ReleasedOk, LiveOk, TakenOk;
  }

  lemma ReleaseLeaves(g: World, w: Which, id: SessionId, other: Call)
    requires WorldOk(g) && Spoken(g, id) && CallOk(g, other)
    ensures CallOk(Release(g, w, id), other) && CallOk(MarkReleased(Release(g, w, id), id), other)
  {
    hide PoolState.Valid, KnownOk, HomeOk, OnceOk, RanOk, ReleasedOk, LiveOk, TakenOk;
  }

  /** Steps that change nothing a call relies on. */
  lemma SameLeaves(g: World, g': World, other: Call)
    requires CallOk(g, other) && g'.seen == g.seen && g'.known == g.known && g'.released == g.released
    requires g'.home == g.home && g'.owner == g.owner && g'.h.pg == g.h.pg && g'.h.my == g.h.my
    ensures CallOk(g', other)
  {
  }

  predicate Quiet(call: Call) {
    !call.Connecting? && !call.Recording? && !call.Releasing? && !call.ReleasingPg? && !call.ReleasingMy?
  }

  lemma QuietStep(g: World, call: Call, reachable: bool, db: DbOutcome)
    requires Quiet(call)
    ensures var n := Step(g, call, reachable, db).0;
            && n.seen == g.seen && n.known == g.known && n.released == g.released
            && n.home == g.home && n.owner == g.owner && n.h.pg == g.h.pg && n.h.my == g.h.my
  {
    hide Respond, NotFound, Nothing, Failure;
  }

  lemma StepKeepsOthers(g: World, call: Call, reachable: bool, db: DbOutcome, other: Call)
    requires WorldOk(g) && CallOk(g, call) && CallOk(g, other) && Apart(call, other)
    ensures CallOk(Step(g, call, reachable, db).0, other)
  {
    hide WorldOk, Acquire, Record, Release, MarkReleased, Dispatch, RunSql;
    if Quiet(call) {
      QuietStep(g, call, reachable, db);
      SameLeaves(g, Step(g, call, reachable, db).0, other);
      hide CallOk, Step;
    } else {
      LoudLeaves(g, call, reachable, db, other);
      hide CallOk, Step;
    }
  }

  lemma LoudLeaves(g: World, call: Call, reachable: bool, db: DbOutcome, other: Call)
    requires !Quiet(call) && WorldOk(g) && CallOk(g, call) && CallOk(g, other) && Apart(call, other)
    ensures CallOk(Step(g, call, reachable, db).0, other)
  {
    hide WorldOk, Acquire, Record, Release, MarkReleased, Dispatch, RunSql;
    SpokenWhenReleasing(g, call);
    hide CallOk;
    match call
    case Connecting(w, id) => AcquireLeaves(g, w, id, reachable, other);
    case Recording(w, id) => RecordLeaves(g, w, id, other);
    case Releasing(id, w) => ReleaseLeaves(g, w, id, other);
    case ReleasingPg(id) => ReleaseLeaves(g, PG, id, other);
    case ReleasingMy(id) => ReleaseLeaves(g, MY, id, other);
  }

  lemma SpokenWhenReleasing(g: World, call: Call)
    requires WorldOk(g) && CallOk(g, call)
    ensures call.Releasing? || call.ReleasingPg? || call.ReleasingMy? ==> Spoken(g, call.id)
  {
    hide WorldOk;
    if call.Releasing? {
      ReleasingIsSpoken(g, call.id, call.w);
    }
  }

  // ---------- the machine ----------

  lemma StepKeepsHeld(m: Machine, c: CallId, reachable: bool, db: DbOutcome)
    requires Inv(m) && c in m.calls && !Blocked(m.locks, m.calls[c])
    ensures HeldOk(Apply(m, Work(c, reachable, db)))
  {
    hide WorldOk, CallOk, CreatesOk, LocksOk, Dispatch;
    var n := Apply(m, Work(c, reachable, db));
    var call, call' := m.calls[c], n.calls[c];
    forall id | id in n.g.home && id in n.g.h.Pool(n.g.home[id]).sessions && id !in n.g.known
      ensures exists d :: d in n.calls && n.calls[d] == Recording(n.g.home[id], id)
    {
      HeldBefore(m.g, call, reachable, db, id);
      if id in m.g.h.Pool(m.g.home[id]).sessions {
        var d :| d in m.calls && m.calls[d] == Recording(m.g.home[id], id);
        assert d != c;
        assert n.calls[d] == Recording(n.g.home[id], id);
      } else {
        assert n.calls[c] == Recording(n.g.home[id], id);
      }
    }
  }

  /** Only AcquireSession puts an id into a pool. */
  lemma HeldBefore(g: World, call: Call, reachable: bool, db: DbOutcome, id: SessionId)
    requires CallOk(g, call)
    ensures var (g', call') := Step(g, call, reachable, db);
            && g'.home == g.home && g.known <= g'.known
            && (id in g.home && id in g'.h.Pool(g.home[id]).sessions ==>
                  id in g.h.Pool(g.home[id]).sessions || call' == Recording(g.home[id], id))
            && (call.Recording? ==> call.id in g'.known)
  {
    if Quiet(call) {
      QuietStep(g, call, reachable, db);
      hide Step, CallOk;
    } else {
      hide Dispatch, RunSql, HeldOrReturned;
    }
  }

  /** Only a call that asks for a lock, or has it, touches the locks; only a call that creates
      an id goes on creating it. */
  lemma StepOfLocks(g: World, call: Call, reachable: bool, db: DbOutcome)
    ensures var next := Step(g, call, reachable, db).1;
            && (next.Connecting? <==>
                  call.Acquiring? || (call.Connecting? && g.h.Pool(call.w).Acquire(call.id, reachable).1.Waits?))
            && (next.Connecting? ==> next == Connecting(call.w, call.id))
            && (Creating(next) ==> Creating(call) && next.id == call.id)
  {
    hide Respond, NotFound, Nothing, Failure, PoolState.Acquire, PoolState.Find;
  }

  lemma StepKeepsCreates(m: Machine, c: CallId, reachable: bool, db: DbOutcome)
    requires CreatesOk(m.calls) && c in m.calls
    ensures CreatesOk(Apply(m, Work(c, reachable, db)).calls)
  {
    hide Blocked, LocksAfter, Step, PoolState.Acquire;
    StepOfLocks(m.g, m.calls[c], reachable, db);
  }

  lemma StepKeepsLocks(m: Machine, c: CallId, reachable: bool, db: DbOutcome)
    requires LocksOk(m.calls, m.locks) && c in m.calls
    ensures var n := Apply(m, Work(c, reachable, db)); LocksOk(n.calls, n.locks)
  {
    hide Step, PoolState.Acquire;
    StepOfLocks(m.g, m.calls[c], reachable, db);
  }

  lemma WorkKeepsInv(m: Machine, c: CallId, reachable: bool, db: DbOutcome)
    requires Inv(m) && c in m.calls
    ensures Inv(Apply(m, Work(c, reachable, db)))
  {
    hide WorldOk, CallOk, CreatesOk, HeldOk, LocksOk, Step, Blocked, LocksAfter;
    if Blocked(m.locks, m.calls[c]) {
      return;
    }
    var n := Apply(m, Work(c, reachable, db));
    StepKeepsWorld(m.g, m.calls[c], reachable, db);
    StepKeepsHeld(m, c, reachable, db);
    StepKeepsCreates(m, c, reachable, db);
    StepKeepsLocks(m, c, reachable, db);
    forall d | d in n.calls ensures CallOk(n.g, n.calls[d]) {
      if d != c {
        CreatesApart(m.calls, c, d);
        StepKeepsOthers(m.g, m.calls[c], reachable, db, m.calls[d]);
      }
    }
  }

  lemma CreatesApart(calls: map<CallId, Call>, c: CallId, d: CallId)
    requires CreatesOk(calls) && c in calls && d in calls && c != d
    ensures Apart(calls[c], calls[d])
  {
  }

  /** A new call takes no lock and no connection. */
  lemma NewCallKeeps(m: Machine, n: Machine, c: CallId)
    requires HeldOk(m) && LocksOk(m.calls, m.locks) && c !in m.calls && c in n.calls
    requires n.calls == m.calls[c := n.calls[c]] && n.locks == m.locks && !n.calls[c].Connecting?
    requires n.g.h == m.g.h && n.g.known == m.g.known
    requires forall k <- n.g.home ::
               (k in m.g.home && n.g.home[k] == m.g.home[k]) || k !in n.g.h.Pool(n.g.home[k]).sessions
    ensures HeldOk(n) && LocksOk(n.calls, n.locks)
  {
    forall k | k in n.g.home && k in n.g.h.Pool(n.g.home[k]).sessions && k !in n.g.known
      ensures exists d :: d in n.calls && n.calls[d] == Recording(n.g.home[k], k)
    {
      var d :| d in m.calls && m.calls[d] == Recording(m.g.home[k], k);
      assert n.calls[d] == m.calls[d];
    }
  }

  /** A new call that is not creating an id. */
  lemma StartKeepsInv(m: Machine, c: CallId, id: SessionId, call: Call)
    requires Inv(m) && c !in m.calls && Speakable(m.g, id)
    requires ((call.Asked? || call.Closing?) && call.id == id) || call.CreateFailed?
    ensures Inv(m.(g := Mentioned(m.g, id), calls := m.calls[c := call]))
  {
    var n := m.(g := Mentioned(m.g, id), calls := m.calls[c := call]);
    hide WorldOk, HeldOk, LocksOk;
    NewCallKeeps(m, n, c);
    MentionKeepsWorld(m.g, id);
    forall d | d in n.calls ensures CallOk(n.g, n.calls[d]) {
      if d != c {
        MentionLeaves(m.g, id, m.calls[d]);
      }
    }
    hide CallOk;
  }

  lemma MentionLeaves(g: World, id: SessionId, other: Call)
    requires CallOk(g, other)
    ensures CallOk(Mentioned(g, id), other)
  {
  }

  lemma MentionKeepsWorld(g: World, id: SessionId)
    requires WorldOk(g)
    ensures WorldOk(Mentioned(g, id))
  {
    hide PoolState.Valid, KnownOk, HomeOk, TakenOk, OnceOk, RanOk, LiveOk;
  }

  lemma HomeKeepsWorld(g: World, w: Which, id: SessionId)
    requires WorldOk(g) && id !in g.seen
    ensures var g' := Mentioned(g, id).(home := g.home[id := w]);
            WorldOk(g') && NewId(g', w, id) && id !in g'.h.Pool(w).sessions && Unowned(g'.owner, id)
    ensures id !in g.h.pg.sessions && id !in g.h.my.sessions
  {
    hide PoolState.Valid, KnownOk, OnceOk, RanOk, HeldOrReturned;
  }

  lemma CreateKeepsInv(m: Machine, c: CallId, id: SessionId, w: Which)
    requires Inv(m) && c !in m.calls && id !in m.g.seen
    ensures Inv(m.(g := Mentioned(m.g, id).(home := m.g.home[id := w]), calls := m.calls[c := Acquiring(w, id)]))
  {
    var n := m.(g := Mentioned(m.g, id).(home := m.g.home[id := w]), calls := m.calls[c := Acquiring(w, id)]);
    HomeKeepsWorld(m.g, w, id);
    CreatingIsSeen(m);
    hide WorldOk, HeldOk, LocksOk;
    NewCallKeeps(m, n, c);
    forall d | d in n.calls ensures CallOk(n.g, n.calls[d]) {
      if d != c {
        HomeLeaves(m.g, w, id, m.calls[d]);
      }
    }
    hide CallOk;
  }

  lemma CreatingIsSeen(m: Machine)
    requires Inv(m)
    ensures forall d <- m.calls :: Creating(m.calls[d]) ==> m.calls[d].id in m.g.seen
  {
    hide WorldOk, HeldOk, CreatesOk;
    forall d | d in m.calls && Creating(m.calls[d]) ensures m.calls[d].id in m.g.seen {
      assert CallOk(m.g, m.calls[d]);
    }
  }

  lemma HomeLeaves(g: World, w: Which, id: SessionId, other: Call)
    requires WorldOk(g) && id !in g.seen && CallOk(g, other)
    ensures CallOk(Mentioned(g, id).(home := g.home[id := w]), other)
  {
    hide PoolState.Valid, KnownOk, OnceOk, RanOk, TakenOk, LiveOk, HomeOk, HeldOrReturned, Unowned;
  }

  lemma UnseenIsSpeakable(m: Machine, id: SessionId)
    requires Inv(m) && id !in m.g.seen
    ensures Speakable(m.g, id)
  {
    hide PoolState.Valid, TakenOk, OnceOk, RanOk, KnownOk, HeldOk, CreatesOk, ReleasedOk, HomeOk, LiveOk, CallsOk,
         LocksOk;
  }

  /** Every event keeps the invariant. */
  lemma ApplyKeepsInv(m: Machine, e: Event)
    requires Inv(m)
    ensures Inv(Apply(m, e))
  {
    hide Inv, Mentioned, Step;
    match e
    case StartCreate(c, protocol, id) =>
      if c !in m.calls && id !in m.g.seen {
        match m.g.h.PoolFor(protocol)
        case None =>
          UnseenIsSpeakable(m, id);
          StartKeepsInv(m, c, id, CreateFailed);
        case Some(w) => CreateKeepsInv(m, c, id, w);
      }
    case StartQuery(c, id, kind, sql) =>
      if c !in m.calls && Speakable(m.g, id) {
        StartKeepsInv(m, c, id, Asked(id, kind, sql));
      }
    case StartClose(c, id) =>
      if c !in m.calls && Speakable(m.g, id) {
        StartKeepsInv(m, c, id, Closing(id));
      }
    case Work(c, reachable, db) =>
      if c in m.calls {
        WorkKeepsInv(m, c, reachable, db);
      }
  }

  lemma {:induction false} RunKeepsInv(m: Machine, es: seq<Event>)
    requires Inv(m)
    ensures Inv(Run(m, es))
    decreases |es|
  {
    if es != [] {
      ApplyKeepsInv(m, es[0]);
      hide Inv, Apply;
      RunKeepsInv(Apply(m, es[0]), es[1..]);
    }
  }

  lemma StartIsOk(pgCapacity: Option<nat>, hasMy: bool, myCapacity: Option<nat>)
    ensures Inv(Start(pgCapacity, hasMy, myCapacity))
  {
  }
}
