/** Proxy connections, any number of them, as callers of the interleaved handler: each is one
    run of a proxy's loop, which makes its HTTP calls one after another. */
module Clients {
  import opened ByteStrings
  import opened Http
  import opened MessageTypes
  import opened Pools
  import opened HandlerState
  import opened Interleaving
  import opened Ownership
  import Wire
  import MySqlProxy
  import MySqlConversation
  import PgProxy
  import PgConversation

  type ClientId = nat

  datatype Ask = Ask(kind: byte, sql: bytes)

  /** What a proxy's loop has to read: bytes, or messages and how many flushes succeed. */
  datatype Program =
    | MySqlLoop(input: bytes)
    | PgLoop(incoming: seq<PgProxy.Incoming>, flushes: Option<nat>)
  {
    function Speaks(): Protocol {
      if MySqlLoop? then MySQL else PgSQL
    }

    /** The database the loop is for. */
    function Home(): Which {
      if MySqlLoop? then MY else PG
    }

    /** The query requests the loop makes when it gets these replies. */
    function Wants(got: seq<HttpReply>): seq<Ask> {
      match this
      case MySqlLoop(input) => Queries(MySqlConversation.QueryTexts(MySqlConversation.Served(Wire.ReadAll(input).0)))
      case PgLoop(incoming, flushes) => Forwards(PgConversation.Exchanges(incoming, got, flushes))
    }
  }

  function Queries(texts: seq<bytes>): (r: seq<Ask>)
    ensures |r| == |texts| && forall i :: 0 <= i < |r| ==> r[i] == Ask(MySqlProxy.COM_QUERY, texts[i])
  {
    seq(|texts|, i requires 0 <= i < |texts| => Ask(MySqlProxy.COM_QUERY, texts[i]))
  }

  function Forwards(xs: seq<PgProxy.Exchange>): (r: seq<Ask>)
    ensures |r| == |xs| && forall i :: 0 <= i < |r| ==> r[i] == Ask(xs[i].kind, xs[i].sql)
  {
    seq(|xs|, i requires 0 <= i < |xs| => Ask(xs[i].kind, xs[i].sql))
  }

  /** A loop knows its next request once it has the replies to the ones before. */
  lemma NextIsSettled(p: Program, got: seq<HttpReply>, r: HttpReply)
    requires |got| < |p.Wants(got)|
    ensures |got| < |p.Wants(got + [r])|
    ensures p.Wants(got + [r])[..|got| + 1] == p.Wants(got)[..|got| + 1]
  {
    if p.PgLoop? {
      ExchangesSettled(p.incoming, got, p.flushes, r);
      var xs, ys := PgConversation.Exchanges(p.incoming, got, p.flushes),
        PgConversation.Exchanges(p.incoming, got + [r], p.flushes);
      assert Settled(xs, ys, |got|);
      forall k: nat | k <= |got| ensures Forwards(ys)[k] == Forwards(xs)[k] {
        assert Settled(xs, ys, k);
      }
    }
  }

  predicate Settled(xs: seq<PgProxy.Exchange>, ys: seq<PgProxy.Exchange>, k: nat) {
    k < |xs| && k < |ys| && xs[k].kind == ys[k].kind && xs[k].sql == ys[k].sql
  }

  lemma {:induction false} ExchangesSettled(incoming: seq<PgProxy.Incoming>, got: seq<HttpReply>,
                                            flushes: Option<nat>, r: HttpReply)
    requires |got| < |PgConversation.Exchanges(incoming, got, flushes)|
    ensures forall k: nat :: k <= |got| ==>
              Settled(PgConversation.Exchanges(incoming, got, flushes),
                PgConversation.Exchanges(incoming, got + [r], flushes), k)
    decreases |incoming|
  {
    hide PgProxy.GoesOn, PgConversation.Answered, PgConversation.Parser.Extracted;
    if incoming[0].Silent? {
      ExchangesSettled(incoming[1..], got, flushes, r);
    } else if got != [] {
      var x := PgProxy.Exchange(incoming[0].kind,
        PgConversation.Parser.Extracted(incoming[0].kind, incoming[0].payload),
                                incoming[0].payload, got[0]);
      var left := if PgConversation.Answered(x) then PgProxy.Spend(flushes) else flushes;
      assert (got + [r])[1..] == got[1..] + [r];
      ExchangesSettled(incoming[1..], got[1..], left, r);
      forall k: nat | k <= |got|
        ensures Settled(PgConversation.Exchanges(incoming, got, flushes),
                PgConversation.Exchanges(incoming, got + [r], flushes), k)
      {
        if k > 0 {
          assert Settled(PgConversation.Exchanges(incoming[1..], got[1..], left),
                         PgConversation.Exchanges(incoming[1..], got[1..] + [r], left), k - 1);
        }
      }
    }
  }

  // ---------- the system ----------

  /** Where a connection stands. A pending phase names its HTTP call. */
  datatype Phase =
    | Fresh
    | Opening(c: CallId)
    | Refused
    | Lost(id: SessionId)                // given a session, but broken before its loop
    | Idle(id: SessionId)
    | Asking(id: SessionId, c: CallId)
    | Leaving(id: SessionId, c: CallId)
    | Left(id: SessionId)

  datatype Client = Client(program: Program, phase: Phase, sent: seq<Ask>, got: seq<HttpReply>)

  datatype System = System(m: Machine, clients: seq<Client>, caller: map<CallId, ClientId>)

  datatype Happening =
    | Connect(x: ClientId, c: CallId, id: SessionId)      // `id` is the UUID the handler will draw
    | Opened(x: ClientId, lost: bool)
    | Request(x: ClientId, c: CallId)
    | Reply(x: ClientId)
    | Leave(x: ClientId, c: CallId)
    | Gone(x: ClientId)
    | Serve(c: CallId, reachable: bool, db: DbOutcome)    // one step of the handler

  function WithClient(s: System, x: ClientId, cl: Client): System
    requires x < |s.clients|
  {
    s.(clients := s.clients[x := cl])
  }

  /** The client makes a call. */
  function Calling(s: System, x: ClientId, c: CallId, e: Event, cl: Client): System
    requires x < |s.clients|
  {
    System(Apply(s.m, e), s.clients[x := cl], s.caller[c := x])
  }

  /** Happenings that cannot happen change nothing. */
  function Move(s: System, e: Happening): System {
    if e.Serve? then s.(m := Apply(s.m, Work(e.c, e.reachable, e.db)))
    else if e.x >= |s.clients| then s
    else
      var cl := s.clients[e.x];
      match e
      case Connect(x, c, id) =>
        if cl.phase.Fresh? && c !in s.m.calls && id !in s.m.g.seen then
          Calling(s, x, c, StartCreate(c, cl.program.Speaks(), id), cl.(phase := Opening(c)))
        else s
      case Opened(x, lost) =>
        if cl.phase.Opening? && cl.phase.c in s.m.calls then
          match s.m.calls[cl.phase.c]
          case Created(id) => WithClient(s, x, cl.(phase := if lost then Lost(id) else Idle(id)))
          case CreateFailed => WithClient(s, x, cl.(phase := Phase.Refused))
          case _ => s
        else s
      case Request(x, c) =>
        if cl.phase.Idle? && c !in s.m.calls && |cl.got| < |cl.program.Wants(cl.got)| then
          var ask := cl.program.Wants(cl.got)[|cl.got|];
          Calling(s, x, c, StartQuery(c, cl.phase.id, ask.kind, ask.sql),
                  cl.(phase := Asking(cl.phase.id, c), sent := cl.sent + [ask]))
        else s
      case Reply(x) =>
        if cl.phase.Asking? && cl.phase.c in s.m.calls && s.m.calls[cl.phase.c].Answered? then
          WithClient(s, x, cl.(phase := Idle(cl.phase.id), got := cl.got + [s.m.calls[cl.phase.c].reply]))
        else s
      case Leave(x, c) =>
        if cl.phase.Idle? && c !in s.m.calls && |cl.got| == |cl.program.Wants(cl.got)| then
          Calling(s, x, c, StartClose(c, cl.phase.id), cl.(phase := Leaving(cl.phase.id, c)))
        else s
      case Gone(x) =>
        if cl.phase.Leaving? && cl.phase.c in s.m.calls && s.m.calls[cl.phase.c].Closed? then
          WithClient(s, x, cl.(phase := Left(cl.phase.id)))
        else s
  }

  function Moves(s: System, es: seq<Happening>): System
    decreases |es|
  {
    if es == [] then s else Moves(Move(s, es[0]), es[1..])
  }

  lemma {:induction false} MovesConcat(s: System, es: seq<Happening>, more: seq<Happening>)
    ensures Moves(s, es + more) == Moves(Moves(s, es), more)
    decreases |es|
  {
    hide Move;
    if es == [] {
      assert es + more == more;
    } else {
      assert (es + more)[1..] == es[1..] + more;
      MovesConcat(Move(s, es[0]), es[1..], more);
    }
  }

  function Begin(pgCapacity: Option<nat>, hasMy: bool, myCapacity: Option<nat>, programs: seq<Program>): System {
    System(Start(pgCapacity, hasMy, myCapacity),
           seq(|programs|, i requires 0 <= i < |programs| => Client(programs[i], Fresh, [], [])), map[])
  }

  // ---------- one private connection ----------

  datatype Entry = Entry(sql: bytes, response: QueryResponse)

  /** A server that has one client and one connection: the cached statement, what was run on
      the connection, and the replies given. */
  datatype Private = Private(cached: bytes, log: seq<Entry>, answers: seq<HttpReply>) {
    function Says(reply: HttpReply): Private {
      this.(answers := answers + [reply])
    }

    function Runs(sql: bytes, db: DbOutcome): Private {
      this.(log := log + [Entry(sql, Respond(sql, db))]).Says(Replied(Respond(sql, db)))
    }

    function Serves(a: Ask, db: DbOutcome): Private {
      if a.kind == PARSE then this.(cached := a.sql).Says(Replied(Nothing()))
      else if a.kind == BIND then Says(Replied(if cached == [] then Failure(NO_STATEMENT) else Nothing()))
      else if a.kind == DESCRIBE || a.kind == SYNC then Says(Replied(Nothing()))
      else if a.kind == EXECUTE && cached == [] then Says(HttpFailed(NO_STATEMENT))
      else Runs(if a.kind == EXECUTE then cached else a.sql, db)
    }
  }

  function ServesAll(asks: seq<Ask>, dbs: seq<DbOutcome>): (p: Private)
    requires |asks| == |dbs|
    ensures |p.answers| == |asks|
    decreases |asks|
  {
    if asks == [] then Private([], [], [])
    else ServesAll(asks[..|asks| - 1], dbs[..|asks| - 1]).Serves(asks[|asks| - 1], dbs[|asks| - 1])
  }

  // ---------- what each client sees of the real system ----------

  function Entries(ran: seq<Statement>): (r: seq<Entry>)
    ensures |r| == |ran|
  {
    seq(|ran|, i requires 0 <= i < |ran| => Entry(ran[i].sql, ran[i].response))
  }

  predicate NamesOwn(call: Call) {
    call.Acquiring? || call.Connecting? || call.Recording? || call.Created?
  }

  /** The session of a client, also while it is being created. */
  function NameOf(m: Machine, cl: Client): Option<SessionId> {
    match cl.phase
    case Opening(c) => if c in m.calls && NamesOwn(m.calls[c]) then Some(m.calls[c].id) else None
    case Idle(id) => Some(id)
    case Asking(id, _) => Some(id)
    case Leaving(id, _) => Some(id)
    case Left(id) => Some(id)
    case Lost(id) => Some(id)
    case _ => None
  }

  function PendingCall(cl: Client): Option<CallId> {
    match cl.phase
    case Opening(c) => Some(c)
    case Asking(_, c) => Some(c)
    case Leaving(_, c) => Some(c)
    case _ => None
  }

  function AnswersTo(m: Machine, cl: Client): seq<HttpReply> {
    cl.got + if cl.phase.Asking? && cl.phase.c in m.calls && m.calls[cl.phase.c].Answered?
             then [m.calls[cl.phase.c].reply] else []
  }

  predicate Active(cl: Client) {
    cl.phase.Idle? || cl.phase.Asking?
  }

  function View(m: Machine, cl: Client): Private {
    match NameOf(m, cl)
    case None => Private([], [], [])
    case Some(id) =>
      Private(if Active(cl) then m.g.h.Cached(id) else [], Entries(RanFor(m.g.h.ran, id)), AnswersTo(m, cl))
  }

  // ---------- the invariant ----------

  predicate Live(g: World, id: SessionId) {
    id in g.known && id !in g.released
  }

  /** Nothing was cached or run for the id. */
  predicate Blank(g: World, id: SessionId) {
    g.h.Cached(id) == [] && RanFor(g.h.ran, id) == []
  }

  predicate Runnable(kind: byte) {
    kind !in {PARSE, BIND, DESCRIBE, SYNC}
  }

  /** The text a call is to run for a request. */
  predicate IsTextOf(g: World, id: SessionId, text: bytes, a: Ask) {
    && Runnable(a.kind)
    && (if a.kind == EXECUTE then text == g.h.Cached(id) && text != [] else text == a.sql)
  }

  ghost predicate AskStage(g: World, call: Call, id: SessionId, a: Ask) {
    match call
    case Asked(i, kind, sql) => i == id && a == Ask(kind, sql)
    case LookingUp(i, text) => i == id && IsTextOf(g, id, text, a)
    case Finding(i, text, w) => i == id && IsTextOf(g, id, text, a) && HomeIs(g.home, id, w)
    case Running(i, text, w, _) => i == id && IsTextOf(g, id, text, a)
    case Answered(i, _, _) => i == id
    case _ => false
  }

  predicate CloseStage(call: Call, id: SessionId) {
    && (call.Closing? || call.Releasing? || call.ReleasingPg? || call.ReleasingMy? || call.Forgetting? || call.Closed?)
    && call.id == id
  }

  ghost predicate OpenStage(g: World, call: Call) {
    || call.CreateFailed?
    || (NamesOwn(call) && Blank(g, call.id) && (call.Created? ==> Live(g, call.id)))
  }

  ghost predicate SentOk(cl: Client) {
    && |cl.sent| <= |cl.program.Wants(cl.got)| && cl.sent == cl.program.Wants(cl.got)[..|cl.sent|]
    && |cl.sent| == |cl.got| + (if cl.phase.Asking? then 1 else 0)
    && (cl.phase.Leaving? || cl.phase.Left? ==> |cl.sent| == |cl.program.Wants(cl.got)|)
    && (!Active(cl) && !cl.phase.Leaving? && !cl.phase.Left? ==> cl.sent == [] && cl.got == [])
  }

  /** The session of a client was created for the database of its protocol. */
  ghost predicate AtHome(m: Machine, cl: Client) {
    NameOf(m, cl).Some? ==> HomeIs(m.g.home, NameOf(m, cl).value, cl.program.Home())
  }

  ghost predicate PhaseOk(m: Machine, cl: Client) {
    AtHome(m, cl) &&
    match cl.phase
    case Opening(c) => c in m.calls && OpenStage(m.g, m.calls[c])
    case Idle(id) => Live(m.g, id)
    case Asking(id, c) =>
      && Live(m.g, id) && c in m.calls && cl.sent != []
      && AskStage(m.g, m.calls[c], id, cl.sent[|cl.sent| - 1])
    case Leaving(id, c) => id in m.g.known && c in m.calls && CloseStage(m.calls[c], id)
    case Left(id) => id in m.g.known && id in m.g.released
    case Lost(id) => Live(m.g, id) && Blank(m.g, id)
    case _ => true
  }

  predicate Finished(call: Call) {
    call.Created? || call.CreateFailed? || call.Answered? || call.Closed?
  }

  /** Every call in flight is the pending call of the client that made it. */
  ghost predicate CallersOk(calls: map<CallId, Call>, clients: seq<Client>, caller: map<CallId, ClientId>) {
    && (forall c <- calls :: c in caller && caller[c] < |clients|
                             && (!Finished(calls[c]) ==> PendingCall(clients[caller[c]]) == Some(c)))
    && (forall x :: 0 <= x < |clients| && PendingCall(clients[x]).Some? ==>
          PendingCall(clients[x]).value in calls && caller[PendingCall(clients[x]).value] == x)
  }

  ghost predicate DistinctNames(m: Machine, clients: seq<Client>) {
    forall x, y :: 0 <= x < y < |clients| && NameOf(m, clients[x]).Some? ==>
      NameOf(m, clients[x]) != NameOf(m, clients[y])
  }

  ghost predicate ClientsOk(m: Machine, clients: seq<Client>) {
    forall x :: 0 <= x < |clients| ==> PhaseOk(m, clients[x]) && SentOk(clients[x])
  }

  ghost predicate SysInv(s: System) {
    && Inv(s.m) && s.m.g.h.stmts.Keys <= s.m.g.seen
    && CallersOk(s.m.calls, s.clients, s.caller) && DistinctNames(s.m, s.clients) && ClientsOk(s.m, s.clients)
  }

  // ---------- what a step of one call leaves alone ----------

  /** All that one session's part of the world is made of. */
  ghost predicate SameFor(g: World, n: World, id: SessionId) {
    && n.h.Cached(id) == g.h.Cached(id) && RanFor(n.h.ran, id) == RanFor(g.h.ran, id)
    && (id in n.known <==> id in g.known) && (id in n.released <==> id in g.released)
    && (forall w: Which :: HomeIs(n.home, id, w) <==> HomeIs(g.home, id, w))
  }

  lemma StepIsLocal(g: World, call: Call, reachable: bool, db: DbOutcome, id: SessionId)
    requires call.CreateFailed? || call.id != id
    ensures SameFor(g, Step(g, call, reachable, db).0, id)
  {
    hide RanFor, SameFor, Dispatch, Interleaving.Acquire, RunSql, Interleaving.Release, MarkReleased, Record,
         HState.ForgetStep;
    match call
    case Asked(i, kind, sql) => DispatchIsLocal(g, i, kind, sql, id);
    case Connecting(w, i) => AcquireIsLocal(g, w, i, reachable, id);
    case Recording(w, i) => RecordIsLocal(g, w, i, id);
    case Running(i, sql, w, lease) => RunIsLocal(g, w, lease, i, sql, db, id);
    case Releasing(i, w) => ReleaseIsLocal(g, w, i, id);
    case ReleasingPg(i) => ReleaseIsLocal(g, PG, i, id);
    case ReleasingMy(i) => ReleaseIsLocal(g, MY, i, id);
    case Forgetting(i) => ForgetIsLocal(g, i, id);
    case _ => NothingIsLocal(g, id);
  }

  lemma NothingIsLocal(g: World, id: SessionId)
    ensures SameFor(g, g, id)
  {
  }

  lemma DispatchIsLocal(g: World, i: SessionId, kind: byte, sql: bytes, id: SessionId)
    requires i != id
    ensures SameFor(g, Dispatch(g, i, kind, sql).0, id)
  {
    hide RanFor, HomeIs, Failure, Nothing;
  }

  lemma AcquireIsLocal(g: World, w: Which, i: SessionId, reachable: bool, id: SessionId)
    ensures SameFor(g, Interleaving.Acquire(g, w, i, reachable).0, id)
  {
    hide RanFor, HomeIs, PoolState.Acquire;
  }

  lemma RecordIsLocal(g: World, w: Which, i: SessionId, id: SessionId)
    requires i != id
    ensures SameFor(g, Record(g, w, i), id)
  {
    hide RanFor, HomeIs;
  }

  lemma RunIsLocal(g: World, w: Which, lease: Lease, i: SessionId, sql: bytes, db: DbOutcome, id: SessionId)
    requires i != id
    ensures SameFor(g, RunSql(g, w, lease, i, sql, db).0, id)
  {
    hide RanFor, HomeIs, Respond;
    RanForOther(g.h.ran, Statement(w, lease, i, sql, Respond(sql, db)), id);
  }

  lemma ReleaseIsLocal(g: World, w: Which, i: SessionId, id: SessionId)
    requires i != id
    ensures SameFor(g, Interleaving.Release(g, w, i), id)
            && SameFor(g, MarkReleased(Interleaving.Release(g, w, i), i), id)
  {
    hide RanFor, HomeIs, PoolState.Release;
  }

  lemma ForgetIsLocal(g: World, i: SessionId, id: SessionId)
    requires i != id
    ensures SameFor(g, g.(h := g.h.ForgetStep(i)), id)
  {
    hide RanFor, HomeIs;
  }

  lemma StepKeepsHome(g: World, call: Call, reachable: bool, db: DbOutcome)
    ensures Step(g, call, reachable, db).0.home == g.home
  {
    hide PoolState.Acquire, PoolState.Release, Respond, Failure, Nothing, NotFound;
  }

  lemma RanForOther(ran: seq<Statement>, s: Statement, id: SessionId)
    requires s.id != id
    ensures RanFor(ran + [s], id) == RanFor(ran, id)
  {
    assert (ran + [s])[..|ran|] == ran;
  }

  lemma RanForOwn(ran: seq<Statement>, s: Statement)
    ensures RanFor(ran + [s], s.id) == RanFor(ran, s.id) + [s]
    ensures Entries(RanFor(ran + [s], s.id)) == Entries(RanFor(ran, s.id)) + [Entry(s.sql, s.response)]
  {
    assert (ran + [s])[..|ran|] == ran;
  }

  lemma StartIsLocal(m: Machine, e: Event, id: SessionId)
    requires !e.Work? && id in m.g.seen
    ensures SameFor(m.g, Apply(m, e).g, id)
  {
    hide RanFor, HState.Cached;
  }

  /** A client is not touched by a change that is not about its session or its call. */
  lemma UntouchedClient(m: Machine, n: Machine, cl: Client)
    requires PhaseOk(m, cl)
    requires PendingCall(cl).Some? ==>
               var c := PendingCall(cl).value; c in n.calls && c in m.calls && n.calls[c] == m.calls[c]
    requires NameOf(m, cl).Some? ==> SameFor(m.g, n.g, NameOf(m, cl).value)
    ensures PhaseOk(n, cl) && NameOf(n, cl) == NameOf(m, cl) && View(n, cl) == View(m, cl)
  {
    hide RanFor, HState.Cached;
  }

  // ---------- what a step does for the client whose call it is ----------

  lemma LiveHolds(m: Machine, id: SessionId)
    requires Inv(m) && Live(m.g, id)
    ensures id in m.g.home && m.g.h.LookupStep(id) == m.g.home[id] && m.g.h.Pool(m.g.home[id]).Find(id).Some?
  {
    hide PoolState.Valid, TakenOk, OnceOk, RanOk, HeldOk, CallsOk, CreatesOk, ReleasedOk, HomeOk;
  }

  lemma OneLease(w: Which, p: PoolState, home: map<SessionId, Which>, owner: map<Connection, SessionId>,
                 id: SessionId, lease: Lease)
    requires TakenOk(w, p, home, owner) && OnceOk(owner) && OwnedBy(owner, On(w, lease), id) && id in p.sessions
    ensures lease == p.sessions[id]
  {
    hide HeldOrReturned, HomeIs;
    assert OwnedBy(owner, On(w, p.sessions[id]), id);
    assert On(w, lease) == On(w, p.sessions[id]);
  }

  lemma InvGives(m: Machine, c: CallId, w: Which)
    requires Inv(m) && c in m.calls
    ensures CallOk(m.g, m.calls[c]) && m.g.h.Pool(w).Valid() && TakenOk(w, m.g.h.Pool(w), m.g.home, m.g.owner)
            && OnceOk(m.g.owner)
  {
    hide CallOk, PoolState.Valid, TakenOk, OnceOk, RanOk, HeldOk, CreatesOk, ReleasedOk, HomeOk, LiveOk, IdsOk;
  }

  /** A live session's own connection has not been given back. */
  lemma LiveRuns(m: Machine, c: CallId, id: SessionId)
    requires Inv(m) && Live(m.g, id) && c in m.calls && m.calls[c].Running? && m.calls[c].id == id
    ensures m.calls[c].lease !in m.g.h.Pool(m.calls[c].w).backing.returned
  {
    hide Inv, PoolState.Valid, TakenOk, OnceOk, HeldOrReturned, Live;
    LiveHolds(m, id);
    var w, lease := m.calls[c].w, m.calls[c].lease;
    InvGives(m, c, w);
    ValidBound(m.g.h.Pool(w));
    OneLease(w, m.g.h.Pool(w), m.g.home, m.g.owner, id, lease);
  }

  /** What serving one request does to a session and its answer, for a call that moves on. */
  ghost predicate Advances(g: World, call: Call, n: World, next: Call, id: SessionId, a: Ask, db: DbOutcome) {
    if !call.Answered? && next.Answered? then
      n.h.Cached(id) == (if a.kind == PARSE then a.sql else g.h.Cached(id))
      && Served(Entries(RanFor(g.h.ran, id)), g.h.Cached(id), a, db) == (Entries(RanFor(n.h.ran, id)), next.reply)
    else
      && n.h.Cached(id) == g.h.Cached(id) && RanFor(n.h.ran, id) == RanFor(g.h.ran, id)
      && (call.Answered? ==> next == call)
  }

  function Served(log: seq<Entry>, cached: bytes, a: Ask, db: DbOutcome): (seq<Entry>, HttpReply) {
    var p := Private(cached, log, []).Serves(a, db);
    (p.log, p.answers[0])
  }

  lemma DispatchAdvances(g: World, id: SessionId, a: Ask, db: DbOutcome)
    ensures var (n, next) := Dispatch(g, id, a.kind, a.sql);
            AskStage(n, next, id, a) && Advances(g, Asked(id, a.kind, a.sql), n, next, id, a, db)
  {
    hide RanFor, Respond, Entries, Failure, Nothing;
  }

  lemma RunAdvances(g: World, id: SessionId, text: bytes, w: Which, lease: Lease, a: Ask, db: DbOutcome)
    requires IsTextOf(g, id, text, a) && lease !in g.h.Pool(w).backing.returned
    ensures var (n, next) := RunSql(g, w, lease, id, text, db);
            AskStage(n, next, id, a) && Advances(g, Running(id, text, w, lease), n, next, id, a, db)
  {
    RanForOwn(g.h.ran, Statement(w, lease, id, text, Respond(text, db)));
    hide RanFor, Respond, Entries, Failure, Nothing;
  }

  /** One step of a query call is no step of its client's private connection, or the whole
      serving of one request. */
  lemma AskStep(m: Machine, c: CallId, id: SessionId, a: Ask, reachable: bool, db: DbOutcome)
    requires Inv(m) && Live(m.g, id) && c in m.calls && AskStage(m.g, m.calls[c], id, a)
    ensures var (n, next) := Step(m.g, m.calls[c], reachable, db);
            Live(n, id) && AskStage(n, next, id, a) && Advances(m.g, m.calls[c], n, next, id, a, db)
  {
    hide Inv, RanFor, Respond, Entries, Served, Dispatch, RunSql, Interleaving.Acquire, IsTextOf;
    LiveHolds(m, id);
    match m.calls[c]
    case Asked(_, _, _) =>
      DispatchIsLive(m.g, id, a);
      DispatchAdvances(m.g, id, a, db);
      hide Advances, AskStage;
    case Running(_, text, w, lease) =>
      LiveRuns(m, c, id);
      RunIsLive(m.g, w, lease, id, text, db);
      RunAdvances(m.g, id, text, w, lease, a, db);
      hide Advances;
    case _ =>
  }

  lemma DispatchIsLive(g: World, id: SessionId, a: Ask)
    requires Live(g, id)
    ensures Live(Dispatch(g, id, a.kind, a.sql).0, id)
  {
    hide Failure, Nothing;
  }

  lemma RunIsLive(g: World, w: Which, lease: Lease, id: SessionId, text: bytes, db: DbOutcome)
    requires Live(g, id)
    ensures Live(RunSql(g, w, lease, id, text, db).0, id)
  {
    hide Respond;
  }

  lemma OpenStep(m: Machine, c: CallId, reachable: bool, db: DbOutcome)
    requires Inv(m) && c in m.calls && OpenStage(m.g, m.calls[c])
    ensures var (n, next) := Step(m.g, m.calls[c], reachable, db);
            OpenStage(n, next) && (NamesOwn(next) ==> NamesOwn(m.calls[c]) && next.id == m.calls[c].id)
  {
    hide Inv, RanFor, PoolState.Acquire, PoolState.Valid;
    InvGives(m, c, PG);
  }

  lemma CloseStep(g: World, call: Call, id: SessionId, reachable: bool, db: DbOutcome)
    requires id in g.known && CloseStage(call, id)
    ensures var (n, next) := Step(g, call, reachable, db);
            id in n.known && CloseStage(next, id) && n.h.ran == g.h.ran
  {
    hide PoolState.Release;
  }

  // ---------- one happening and one client ----------

  /** A private connection does nothing, is closed, or serves its client's next request. */
  predicate PrivateStep(p: Private, q: Private, sent: seq<Ask>, e: Happening) {
    || q == p
    || (e.Leave? && q == p.(cached := []))
    || (e.Serve? && |p.answers| < |sent| && q == p.Serves(sent[|p.answers|], e.db))
  }

  lemma ServesIs(cached: bytes, log: seq<Entry>, answers: seq<HttpReply>, a: Ask, db: DbOutcome)
    ensures var (log', reply) := Served(log, cached, a, db);
            Private(cached, log, answers).Serves(a, db) ==
            Private(if a.kind == PARSE then a.sql else cached, log', answers + [reply])
  {
    hide Respond, Failure, Nothing;
  }

  /** The client whose call moves. */
  lemma OwnStep(m: Machine, cl: Client, c: CallId, reachable: bool, db: DbOutcome)
    requires Inv(m) && PhaseOk(m, cl) && SentOk(cl) && PendingCall(cl) == Some(c)
    ensures var n := Apply(m, Work(c, reachable, db));
            && PhaseOk(n, cl) && (NameOf(n, cl) == NameOf(m, cl) || NameOf(n, cl) == None)
            && PrivateStep(View(m, cl), View(n, cl), cl.sent, Serve(c, reachable, db))
  {
    match cl.phase
    case Opening(_) => OwnOpenStep(m, cl, c, reachable, db);
    case Asking(_, _) => OwnAskStep(m, cl, c, reachable, db);
    case Leaving(_, _) => OwnCloseStep(m, cl, c, reachable, db);
    hide *;
  }

  lemma OwnOpenStep(m: Machine, cl: Client, c: CallId, reachable: bool, db: DbOutcome)
    requires Inv(m) && PhaseOk(m, cl) && SentOk(cl) && cl.phase == Opening(c)
    ensures var n := Apply(m, Work(c, reachable, db));
            && PhaseOk(n, cl) && (NameOf(n, cl) == NameOf(m, cl) || NameOf(n, cl) == None)
            && PrivateStep(View(m, cl), View(n, cl), cl.sent, Serve(c, reachable, db))
  {
    hide Inv, Step, OpenStage, View, SentOk;
    StepKeepsHome(m.g, m.calls[c], reachable, db);
    OpenStep(m, c, reachable, db);
    NothingSent(cl);
    OpenView(m, cl, c);
    assert PhaseOk(Apply(m, Work(c, reachable, db)), cl);
    OpenView(Apply(m, Work(c, reachable, db)), cl, c);
  }

  lemma NothingSent(cl: Client)
    requires SentOk(cl) && cl.phase.Opening?
    ensures cl.sent == [] && cl.got == []
  {
  }

  lemma OwnAskStep(m: Machine, cl: Client, c: CallId, reachable: bool, db: DbOutcome)
    requires Inv(m) && PhaseOk(m, cl) && SentOk(cl) && PendingCall(cl) == Some(c) && cl.phase.Asking?
    ensures var n := Apply(m, Work(c, reachable, db));
            && PhaseOk(n, cl) && NameOf(n, cl) == NameOf(m, cl)
            && PrivateStep(View(m, cl), View(n, cl), cl.sent, Serve(c, reachable, db))
  {
    hide Inv, RanFor, Step, AskStage, Served, HState.Cached, Private.Serves, Program.Wants;
    StepKeepsHome(m.g, m.calls[c], reachable, db);
    var id, a := cl.phase.id, cl.sent[|cl.sent| - 1];
    AskStep(m, c, id, a, reachable, db);
    ServesIs(m.g.h.Cached(id), Entries(RanFor(m.g.h.ran, id)), cl.got, a, db);
    assert cl.got + [] == cl.got;
  }

  lemma OwnCloseStep(m: Machine, cl: Client, c: CallId, reachable: bool, db: DbOutcome)
    requires PhaseOk(m, cl) && PendingCall(cl) == Some(c) && cl.phase.Leaving?
    ensures var n := Apply(m, Work(c, reachable, db));
            PhaseOk(n, cl) && NameOf(n, cl) == NameOf(m, cl) && View(n, cl) == View(m, cl)
  {
    hide RanFor, Step, CloseStage;
    StepKeepsHome(m.g, m.calls[c], reachable, db);
    CloseStep(m.g, m.calls[c], cl.phase.id, reachable, db);
  }

  lemma OpenView(m: Machine, cl: Client, c: CallId)
    requires cl.phase == Opening(c) && PhaseOk(m, cl) && cl.got == []
    ensures View(m, cl) == Private([], [], [])
  {
    hide RanFor, HState.Cached;
  }

  /** Clients other than the one that moves. */
  lemma OtherStep(s: System, x: ClientId, y: ClientId, c: CallId, reachable: bool, db: DbOutcome)
    requires SysInv(s) && x < |s.clients| && y < |s.clients| && x != y && PendingCall(s.clients[x]) == Some(c)
    ensures var n := Apply(s.m, Work(c, reachable, db));
            var cl := s.clients[y];
            PhaseOk(n, cl) && NameOf(n, cl) == NameOf(s.m, cl) && View(n, cl) == View(s.m, cl)
  {
    hide Inv, RanFor, Step, HState.Cached, View, SentOk;
    var call := s.m.calls[c];
    var n := Apply(s.m, Work(c, reachable, db));
    assert PhaseOk(s.m, s.clients[x]) && PhaseOk(s.m, s.clients[y]);
    CallIsNamed(s.m, s.clients[x], c);
    if NameOf(s.m, s.clients[y]).Some? {
      StepIsLocal(s.m.g, call, reachable, db, NameOf(s.m, s.clients[y]).value);
    }
    UntouchedClient(s.m, n, s.clients[y]);
  }

  lemma CallIsNamed(m: Machine, cl: Client, c: CallId)
    requires PhaseOk(m, cl) && PendingCall(cl) == Some(c)
    ensures c in m.calls && (m.calls[c].CreateFailed? || NameOf(m, cl) == Some(m.calls[c].id))
  {
    hide RanFor, HState.Cached;
  }

  // ---------- every happening keeps the invariant ----------

  predicate Departing(cl: Client) {
    cl.phase.Leaving? || cl.phase.Left?
  }

  /** Each client's private connection makes a step, and only that of client `x` can change. */
  ghost predicate Refines(s: System, n: System, x: ClientId, e: Happening) {
    && |n.clients| == |s.clients|
    && (forall y :: 0 <= y < |s.clients| ==>
          && n.clients[y].program == s.clients[y].program && s.clients[y].sent <= n.clients[y].sent
          && (Departing(s.clients[y]) ==> Departing(n.clients[y]) && n.clients[y].sent == s.clients[y].sent)
          && PrivateStep(View(s.m, s.clients[y]), View(n.m, n.clients[y]), n.clients[y].sent, e)
          && (y != x ==> View(n.m, n.clients[y]) == View(s.m, s.clients[y]) && n.clients[y] == s.clients[y]))
  }

  lemma FinishedStays(g: World, call: Call, reachable: bool, db: DbOutcome)
    ensures Finished(call) ==> Step(g, call, reachable, db) == (g, call)
  {
    hide Dispatch, Interleaving.Acquire, RunSql;
  }

  lemma StepStmts(g: World, call: Call, reachable: bool, db: DbOutcome)
    ensures var n := Step(g, call, reachable, db).0;
            n.seen == g.seen && n.h.stmts.Keys <= g.h.stmts.Keys + if call.Asked? then {call.id} else {}
  {
    hide PoolState.Acquire, PoolState.Release, Respond, Failure, Nothing, NotFound;
  }

  lemma AskedIsSeen(m: Machine, c: CallId)
    requires Inv(m) && c in m.calls && m.calls[c].Asked?
    ensures m.calls[c].id in m.g.seen
  {
    hide WorldOk, HeldOk, CreatesOk;
    assert CallOk(m.g, m.calls[c]);
  }

  lemma StmtsAreSeen(m: Machine, e: Event)
    requires Inv(m) && m.g.h.stmts.Keys <= m.g.seen
    ensures Apply(m, e).g.h.stmts.Keys <= Apply(m, e).g.seen
  {
    hide Inv, Step, HState.PoolFor, Speakable;
    if e.Work? && e.c in m.calls {
      StepStmts(m.g, m.calls[e.c], e.reachable, e.db);
      if m.calls[e.c].Asked? {
        AskedIsSeen(m, e.c);
      }
    }
  }

  lemma ServeRefines(s: System, c: CallId, reachable: bool, db: DbOutcome)
    requires SysInv(s) && c in s.m.calls
    ensures var n := Move(s, Serve(c, reachable, db)); ClientsOk(n.m, n.clients) && DistinctNames(n.m, n.clients)
    ensures c in s.caller && Refines(s, Move(s, Serve(c, reachable, db)), s.caller[c], Serve(c, reachable, db))
  {
    hide Inv, PhaseOk, SentOk, View, Step, NameOf;
    var n := Move(s, Serve(c, reachable, db));
    FinishedStays(s.m.g, s.m.calls[c], reachable, db);
    if Finished(s.m.calls[c]) {
      assert n.m.calls == s.m.calls && n == s;
    } else {
      var x := s.caller[c];
      assert PhaseOk(s.m, s.clients[x]) && SentOk(s.clients[x]);
      OwnStep(s.m, s.clients[x], c, reachable, db);
      forall y | 0 <= y < |s.clients| && y != x
        ensures View(n.m, n.clients[y]) == View(s.m, s.clients[y]) && PhaseOk(n.m, n.clients[y])
        ensures NameOf(n.m, n.clients[y]) == NameOf(s.m, s.clients[y])
      {
        OtherStep(s, x, y, c, reachable, db);
      }
    }
  }

  lemma ServeKeeps(s: System, c: CallId, reachable: bool, db: DbOutcome)
    requires SysInv(s) && c in s.m.calls
    ensures SysInv(Move(s, Serve(c, reachable, db)))
  {
    hide Inv, PhaseOk, SentOk, View, Step, NameOf, ClientsOk, DistinctNames;
    FinishedStays(s.m.g, s.m.calls[c], reachable, db);
    ApplyKeepsInv(s.m, Work(c, reachable, db));
    StmtsAreSeen(s.m, Work(c, reachable, db));
    ServeRefines(s, c, reachable, db);
  }

  lemma NameIsSeen(m: Machine, cl: Client)
    requires Inv(m) && PhaseOk(m, cl) && NameOf(m, cl).Some?
    ensures NameOf(m, cl).value in m.g.seen
  {
    hide RanFor, HState.Cached, PoolState.Valid, TakenOk, OnceOk, RanOk, HeldOk, CreatesOk, ReleasedOk, HomeOk, LiveOk;
    if cl.phase.Opening? {
      assert CallOk(m.g, m.calls[cl.phase.c]);
    }
  }

  /** A client starts a call. */
  lemma CallingKeeps(s: System, x: ClientId, c: CallId, e: Event, cl: Client)
    requires SysInv(s) && x < |s.clients| && c !in s.m.calls && !e.Work? && PendingCall(s.clients[x]).None?
    requires c in Apply(s.m, e).calls && Apply(s.m, e).calls == s.m.calls[c := Apply(s.m, e).calls[c]]
    requires PendingCall(cl) == Some(c) && PhaseOk(Apply(s.m, e), cl) && SentOk(cl)
    requires NameOf(Apply(s.m, e), cl) == NameOf(s.m, s.clients[x])
             || NameOf(Apply(s.m, e), cl) == None || NameOf(Apply(s.m, e), cl).value !in s.m.g.seen
    ensures SysInv(Calling(s, x, c, e, cl))
    ensures forall y :: 0 <= y < |s.clients| && y != x ==> View(Apply(s.m, e), s.clients[y]) == View(s.m, s.clients[y])
  {
    hide Inv, PhaseOk, SentOk, View, Apply, NameOf;
    var m := Apply(s.m, e);
    ApplyKeepsInv(s.m, e);
    StmtsAreSeen(s.m, e);
    forall y | 0 <= y < |s.clients|
      ensures NameOf(s.m, s.clients[y]).Some? ==> NameOf(s.m, s.clients[y]).value in s.m.g.seen
      ensures y != x ==> PhaseOk(m, s.clients[y]) && NameOf(m, s.clients[y]) == NameOf(s.m, s.clients[y])
                         && View(m, s.clients[y]) == View(s.m, s.clients[y])
    {
      assert PhaseOk(s.m, s.clients[y]);
      if NameOf(s.m, s.clients[y]).Some? {
        NameIsSeen(s.m, s.clients[y]);
        StartIsLocal(s.m, e, NameOf(s.m, s.clients[y]).value);
      }
      if y != x {
        UntouchedClient(s.m, m, s.clients[y]);
      }
    }
  }

  /** A client takes the result of its call. */
  lemma TakingKeeps(s: System, x: ClientId, cl: Client)
    requires SysInv(s) && x < |s.clients| && PendingCall(cl) == None && PhaseOk(s.m, cl) && SentOk(cl)
    requires PendingCall(s.clients[x]).Some? && PendingCall(s.clients[x]).value in s.m.calls
    requires Finished(s.m.calls[PendingCall(s.clients[x]).value])
    requires NameOf(s.m, cl) == NameOf(s.m, s.clients[x])
    ensures SysInv(WithClient(s, x, cl))
  {
    hide Inv, PhaseOk, SentOk, View, NameOf;
  }

  // ---------- the happenings of a client ----------

  lemma BlankWhenUnseen(m: Machine, id: SessionId)
    requires Inv(m) && m.g.h.stmts.Keys <= m.g.seen && id !in m.g.seen
    ensures Blank(m.g, id)
  {
    hide PoolState.Valid, TakenOk, OnceOk, HeldOk, CreatesOk, ReleasedOk, HomeOk, LiveOk, CallsOk;
    NoneRan(m.g.h.ran, m.g.known, m.g.owner, id);
  }

  lemma {:induction false} NoneRan(ran: seq<Statement>, known: set<SessionId>, owner: map<Connection, SessionId>,
                                   id: SessionId)
    requires RanOk(ran, known, owner) && id !in known
    ensures RanFor(ran, id) == []
  {
    if ran != [] {
      NoneRan(ran[..|ran| - 1], known, owner, id);
    }
  }

  lemma ConnectKeeps(s: System, x: ClientId, c: CallId, id: SessionId)
    requires SysInv(s) && x < |s.clients| && s.clients[x].phase.Fresh? && c !in s.m.calls && id !in s.m.g.seen
    ensures var n := Move(s, Connect(x, c, id)); SysInv(n) && Refines(s, n, x, Connect(x, c, id))
  {
    hide Inv, SentOk, RanFor, HState.Cached, Program.Wants;
    var cl := s.clients[x].(phase := Opening(c));
    var e := StartCreate(c, s.clients[x].program.Speaks(), id);
    var m := Apply(s.m, e);
    assert SentOk(s.clients[x]) && PhaseOk(s.m, s.clients[x]);
    SentSame(s.clients[x], cl);
    BlankWhenUnseen(s.m, id);
    hide SysInv;
    assert PhaseOk(m, cl);
    CallingKeeps(s, x, c, e, cl);
    OpenView(m, cl, c);
  }

  lemma SentSame(cl: Client, next: Client)
    requires SentOk(cl) && next == cl.(phase := next.phase) && (cl.phase.Fresh? || cl.phase.Opening?)
    requires !next.phase.Asking? && !next.phase.Leaving? && !next.phase.Left?
    ensures SentOk(next) && cl.sent == [] && cl.got == []
  {
  }

  lemma ClientIsOk(s: System, x: ClientId)
    requires SysInv(s) && x < |s.clients|
    ensures SentOk(s.clients[x]) && PhaseOk(s.m, s.clients[x]) && Inv(s.m)
  {
    hide Inv, CallersOk, DistinctNames, SentOk, PhaseOk;
  }

  /** Taking a result changes no view. */
  lemma TakingRefines(s: System, x: ClientId, cl: Client, e: Happening)
    requires x < |s.clients| && cl.program == s.clients[x].program && cl.sent == s.clients[x].sent
    requires Departing(s.clients[x]) ==> Departing(cl)
    requires View(s.m, cl) == View(s.m, s.clients[x])
    ensures Refines(s, WithClient(s, x, cl), x, e)
  {
    hide View, Private.Serves;
  }

  lemma OpenedKeeps(s: System, x: ClientId, lost: bool)
    requires SysInv(s) && x < |s.clients|
    ensures var n := Move(s, Opened(x, lost)); SysInv(n) && Refines(s, n, x, Opened(x, lost))
  {
    hide SysInv, Inv, SentOk, RanFor, HState.Cached, Program.Wants, Refines;
    var n := Move(s, Opened(x, lost));
    Standstill(s, x, Opened(x, lost));
    if n != s {
      var c, cl := s.clients[x].phase.c, n.clients[x];
      ClientIsOk(s, x);
      SentSame(s.clients[x], cl);
      OpenView(s.m, s.clients[x], c);
      TakingKeeps(s, x, cl);
      TakingRefines(s, x, cl, Opened(x, lost));
    }
  }

  lemma ReplyKeeps(s: System, x: ClientId)
    requires SysInv(s) && x < |s.clients|
    ensures var n := Move(s, Reply(x)); SysInv(n) && Refines(s, n, x, Reply(x))
  {
    hide SysInv, Inv, RanFor, HState.Cached, Program.Wants, Refines;
    var n := Move(s, Reply(x));
    Standstill(s, x, Reply(x));
    if n != s {
      var before, cl := s.clients[x], n.clients[x];
      ClientIsOk(s, x);
      NextIsSettled(before.program, before.got, s.m.calls[before.phase.c].reply);
      TakingKeeps(s, x, cl);
      assert cl.got + [] == cl.got;
      TakingRefines(s, x, cl, Reply(x));
    }
  }

  lemma ClosedIsReleased(m: Machine, c: CallId)
    requires Inv(m) && c in m.calls && m.calls[c].Closed?
    ensures m.calls[c].id in m.g.released
  {
    hide WorldOk, HeldOk, CreatesOk, LocksOk;
    assert CallOk(m.g, m.calls[c]);
  }

  lemma GoneKeeps(s: System, x: ClientId)
    requires SysInv(s) && x < |s.clients|
    ensures var n := Move(s, Gone(x)); SysInv(n) && Refines(s, n, x, Gone(x))
  {
    hide SysInv, Inv, RanFor, HState.Cached, Program.Wants, Refines;
    var n := Move(s, Gone(x));
    Standstill(s, x, Gone(x));
    if n != s {
      ClientIsOk(s, x);
      ClosedIsReleased(s.m, s.clients[x].phase.c);
      TakingKeeps(s, x, n.clients[x]);
      TakingRefines(s, x, n.clients[x], Gone(x));
    }
  }

  lemma RequestKeeps(s: System, x: ClientId, c: CallId)
    requires SysInv(s) && x < |s.clients| && c !in s.m.calls
    ensures var n := Move(s, Request(x, c)); SysInv(n) && Refines(s, n, x, Request(x, c))
  {
    hide SysInv, Inv, RanFor, HState.Cached, Program.Wants, Private.Serves;
    var n := Move(s, Request(x, c));
    var cl := s.clients[x];
    if n != s {
      var id, ask := cl.phase.id, cl.program.Wants(cl.got)[|cl.got|];
      ClientIsOk(s, x);
      var e := StartQuery(c, id, ask.kind, ask.sql);
      assert Speakable(s.m.g, id);
      NameIsSeen(s.m, cl);
      StartIsLocal(s.m, e, id);
      CallingKeeps(s, x, c, e, n.clients[x]);
    }
  }

  lemma LeaveKeeps(s: System, x: ClientId, c: CallId)
    requires SysInv(s) && x < |s.clients| && c !in s.m.calls
    ensures var n := Move(s, Leave(x, c)); SysInv(n) && Refines(s, n, x, Leave(x, c))
  {
    hide SysInv, Inv, RanFor, HState.Cached, Program.Wants, Private.Serves;
    var n := Move(s, Leave(x, c));
    var cl := s.clients[x];
    if n != s {
      var id := cl.phase.id;
      ClientIsOk(s, x);
      assert Speakable(s.m.g, id);
      NameIsSeen(s.m, cl);
      StartIsLocal(s.m, StartClose(c, id), id);
      CallingKeeps(s, x, c, StartClose(c, id), n.clients[x]);
    }
  }

  /** The client a happening belongs to. */
  function Mover(s: System, e: Happening): ClientId {
    if e.Serve? then if e.c in s.caller then s.caller[e.c] else 0 else e.x
  }

  lemma Standstill(s: System, x: ClientId, e: Happening)
    ensures Refines(s, s, x, e)
  {
    hide View, Private.Serves;
  }

  /** The refinement: whatever happens, in any state a run can reach, is for the private
      connection of every client nothing, the serving of its next request, or its closing;
      and it is nothing for all but one of them. */
  lemma MoveRefines(s: System, e: Happening)
    requires SysInv(s)
    ensures SysInv(Move(s, e)) && Refines(s, Move(s, e), Mover(s, e), e)
  {
    hide SysInv, Refines;
    Standstill(s, Mover(s, e), e);
    match e
    case Serve(c, reachable, db) =>
      if c in s.m.calls {
        ServeKeeps(s, c, reachable, db);
        ServeRefines(s, c, reachable, db);
      }
    case Connect(x, c, id) =>
      if x < |s.clients| && s.clients[x].phase.Fresh? && c !in s.m.calls && id !in s.m.g.seen {
        ConnectKeeps(s, x, c, id);
      }
    case Opened(x, lost) => if x < |s.clients| { OpenedKeeps(s, x, lost); }
    case Request(x, c) => if x < |s.clients| && c !in s.m.calls { RequestKeeps(s, x, c); }
    case Reply(x) => if x < |s.clients| { ReplyKeeps(s, x); }
    case Leave(x, c) => if x < |s.clients| && c !in s.m.calls { LeaveKeeps(s, x, c); }
    case Gone(x) => if x < |s.clients| { GoneKeeps(s, x); }
  }

  lemma BeginIsOk(pgCapacity: Option<nat>, hasMy: bool, myCapacity: Option<nat>, programs: seq<Program>)
    ensures SysInv(Begin(pgCapacity, hasMy, myCapacity, programs))
  {
    StartIsOk(pgCapacity, hasMy, myCapacity);
    hide Inv;
  }
}
