/** Requests handled one at a time: what a session runs depends on its own messages only. */
module Isolation {
  import opened ByteStrings
  import opened Http
  import opened MessageTypes
  import opened Pools
  import opened HandlerState
  import opened Interleaving
  import opened Ownership

  // ---------- the methods are uninterrupted runs of the machine ----------

  function Works(c: CallId, n: nat, reachable: bool, db: DbOutcome): seq<Event> {
    seq(n, _ => Work(c, reachable, db))
  }

  lemma RunNext(m: Machine, c: CallId, n: nat, reachable: bool, db: DbOutcome)
    ensures Run(m, Works(c, n + 1, reachable, db)) == Run(Apply(m, Work(c, reachable, db)), Works(c, n, reachable, db))
    ensures Run(m, Works(c, 0, reachable, db)) == m
  {
    hide Apply;
    assert Works(c, n + 1, reachable, db)[1..] == Works(c, n, reachable, db);
  }

  /** No call but this one can hold a lock. */
  predicate Alone(m: Machine, c: CallId) {
    c in m.calls && m.locks == if m.calls[c].Connecting? then map[m.calls[c].w := c] else map[]
  }

  lemma StepAlone(m: Machine, c: CallId, reachable: bool, db: DbOutcome)
    requires Alone(m, c)
    ensures var n := Apply(m, Work(c, reachable, db));
            Alone(n, c) && (n.g, n.calls[c]) == Step(m.g, m.calls[c], reachable, db)
  {
    hide Step, PoolState.Acquire;
    StepOfLocks(m.g, m.calls[c], reachable, db);
  }

  /** Four steps of one call, in the terms of that call. */
  lemma RunFour(m: Machine, c: CallId, reachable: bool, db: DbOutcome)
    requires Alone(m, c)
    ensures var s1 := Step(m.g, m.calls[c], reachable, db);
            var s2 := Step(s1.0, s1.1, reachable, db);
            var s3 := Step(s2.0, s2.1, reachable, db);
            var s4 := Step(s3.0, s3.1, reachable, db);
            var n := Run(m, Works(c, 4, reachable, db));
            n.g == s4.0 && c in n.calls && n.calls[c] == s4.1
  {
    hide Run, Step, Works, Apply;
    var w := Work(c, reachable, db);
    RunNext(m, c, 3, reachable, db);
    StepAlone(m, c, reachable, db);
    var m1 := Apply(m, w);
    RunNext(m1, c, 2, reachable, db);
    StepAlone(m1, c, reachable, db);
    var m2 := Apply(m1, w);
    RunNext(m2, c, 1, reachable, db);
    StepAlone(m2, c, reachable, db);
    var m3 := Apply(m2, w);
    RunNext(m3, c, 0, reachable, db);
    StepAlone(m3, c, reachable, db);
    RunNext(Apply(m3, w), c, 0, reachable, db);
  }

  /** HandleQuery without interruption is the machine running that one call to its end, if no
      call holds a lock. */
  lemma QueryAlone(m: Machine, c: CallId, id: SessionId, kind: byte, sql: bytes, db: DbOutcome)
    requires c !in m.calls && m.locks == map[] && Speakable(m.g, id)
    ensures var n := Run(Apply(m, StartQuery(c, id, kind, sql)), Works(c, 4, true, db));
            var (h, reply) := HandleQuery(m.g.h, id, kind, sql, db);
            n.g.h == h && c in n.calls && n.calls[c].Answered? && n.calls[c].reply == reply
  {
    RunFour(Apply(m, StartQuery(c, id, kind, sql)), c, true, db);
    if kind !in {PARSE, BIND, DESCRIBE, SYNC} && !(kind == EXECUTE && m.g.h.Cached(id) == []) {
      FoundIsRun(Mentioned(m.g, id), id, if kind == EXECUTE then m.g.h.Cached(id) else sql, db);
    }
    hide Run, Works, Respond, NotFound, RunSql, Execute, Failure, Nothing, HState.LookupStep, PoolState.Find,
         HState.Cached, HState.CacheStep;
  }

  lemma FoundIsRun(g: World, id: SessionId, sql: bytes, db: DbOutcome)
    ensures var s1 := Step(g, LookingUp(id, sql), true, db);
            var s2 := Step(s1.0, s1.1, true, db);
            var s3 := Step(s2.0, s2.1, true, db);
            var (h, response) := Execute(g.h, id, sql, db);
            s3.0.h == h && s3.1.Answered? && s3.1.reply == Replied(response)
  {
    hide Respond, NotFound, Failure, HState.LookupStep, PoolState.Find;
  }

  lemma CloseAlone(m: Machine, c: CallId, id: SessionId, db: DbOutcome)
    requires c !in m.calls && m.locks == map[] && Speakable(m.g, id)
    ensures var n := Run(Apply(m, StartClose(c, id)), Works(c, 4, true, db));
            n.g.h == CloseSession(m.g.h, id) && c in n.calls && n.calls[c] == Interleaving.Closed(id)
  {
    RunFour(Apply(m, StartClose(c, id)), c, true, db);
    ReleaseSteps(Mentioned(m.g, id), id, db);
    hide Run, Works, Step, Speakable, HState.ReleaseStep, HState.ForgetStep;
  }

  lemma ReleaseSteps(g: World, id: SessionId, db: DbOutcome)
    ensures var s1 := Step(g, Closing(id), true, db);
            var s2 := Step(s1.0, s1.1, true, db);
            var s3 := Step(s2.0, s2.1, true, db);
            var s4 := Step(s3.0, s3.1, true, db);
            s4.0.h == CloseSession(g.h, id) && s4.1 == Interleaving.Closed(id)
  {
    hide HState.ReleaseStep, HState.ForgetStep, Dispatch, Interleaving.Acquire, RunSql;
  }

  lemma CreateAlone(m: Machine, c: CallId, protocol: Protocol, id: SessionId, reachable: bool, db: DbOutcome)
    requires c !in m.calls && m.locks == map[] && id !in m.g.seen
    ensures var n := Run(Apply(m, StartCreate(c, protocol, id)), Works(c, 4, reachable, db));
            var (h, r) := CreateSession(m.g.h, protocol, id, reachable);
            && n.g.h == h && c in n.calls
            && match r
               case Made(i) => i == id && n.calls[c] == Created(id)
               case Denied => n.calls[c] == CreateFailed
               case StillWaiting =>
                 && n.calls[c].Connecting? && n.calls[c].id == id
                 && Some(n.calls[c].w) == m.g.h.PoolFor(protocol)
  {
    RunFour(Apply(m, StartCreate(c, protocol, id)), c, reachable, db);
    if m.g.h.PoolFor(protocol).Some? {
      ConnectSteps(Mentioned(m.g, id).(home := m.g.home[id := m.g.h.PoolFor(protocol).value]),
                   m.g.h.PoolFor(protocol).value, id, reachable, db);
    }
    hide Run, Works, Step, HState.AcquireStep, HState.RecordStep;
  }

  lemma ConnectSteps(g: World, w: Which, id: SessionId, reachable: bool, db: DbOutcome)
    ensures var s1 := Step(g, Acquiring(w, id), reachable, db);
            var s2 := Step(s1.0, s1.1, reachable, db);
            var s3 := Step(s2.0, s2.1, reachable, db);
            var s4 := Step(s3.0, s3.1, reachable, db);
            var (h1, r) := g.h.AcquireStep(w, id, reachable);
            && s4.0.h == (if r.Got? then h1.RecordStep(w, id) else g.h) && (!r.Got? ==> h1 == g.h)
            && s4.1 == match r case Got => Created(id) case Failed => CreateFailed case Waits => Connecting(w, id)
  {
    hide HState.RecordStep, Dispatch, RunSql;
    AcquireHolds(g.h, reachable, id);
    hide PoolState.Acquire;
  }

  lemma AcquireHolds(h: HState, reachable: bool, id: SessionId)
    ensures forall w: Which :: var (h', r) := h.AcquireStep(w, id, reachable);
              if r.Got? then id in h'.Pool(w).sessions else h' == h
  {
  }

  // ---------- runs of requests ----------

  /** A Create that waits is one whose context ends: it changes nothing. */
  datatype Request =
    | Create(protocol: Protocol, id: SessionId, reachable: bool)
    | Ask(id: SessionId, kind: byte, sql: bytes, db: DbOutcome)
    | Close(id: SessionId)

  function Serve(h: HState, r: Request): HState {
    match r
    case Create(protocol, id, reachable) => CreateSession(h, protocol, id, reachable).0
    case Ask(id, kind, sql, db) => HandleQuery(h, id, kind, sql, db).0
    case Close(id) => CloseSession(h, id)
  }

  function ServeAll(h: HState, rs: seq<Request>): HState
    decreases |rs|
  {
    if rs == [] then h else ServeAll(Serve(h, rs[0]), rs[1..])
  }

  /** The requests that name one session. */
  function Only(rs: seq<Request>, id: SessionId): seq<Request>
    decreases |rs|
  {
    if rs == [] then [] else (if rs[0].id == id then [rs[0]] else []) + Only(rs[1..], id)
  }

  // ---------- one session by itself ----------

  /** What there is to say of one session: its cached statement, whether a statement would
      find a connection, and the statements run so far. */
  datatype Session = Session(cached: bytes, live: bool, ran: seq<bytes>) {
    function Runs(sql: bytes): Session {
      if live then this.(ran := ran + [sql]) else this
    }

    /** One of the session's own messages: Execute runs the latest Parse unless that is empty;
        Parse, Bind, Describe and Sync run nothing; anything else runs its own text. */
    function Sees(r: Request): Session {
      match r
      case Create(_, _, _) => this
      case Ask(_, kind, sql, _) =>
        if kind == PARSE then this.(cached := sql)
        else if kind == BIND || kind == DESCRIBE || kind == SYNC then this
        else if kind == EXECUTE then if cached == [] then this else Runs(cached)
        else Runs(sql)
      case Close(_) => Session([], false, ran)
    }

    function SeesAll(rs: seq<Request>): Session
      decreases |rs|
    {
      if rs == [] then this else Sees(rs[0]).SeesAll(rs[1..])
    }
  }

  function Texts(ran: seq<Statement>): (r: seq<bytes>)
    ensures |r| == |ran|
  {
    seq(|ran|, i requires 0 <= i < |ran| => ran[i].sql)
  }

  function ViewOf(h: HState, id: SessionId): Session {
    Session(h.Cached(id), h.Pool(h.LookupStep(id)).Find(id).Some?, Texts(RanFor(h.ran, id)))
  }

  /** Both pools are in order, and a pool holds the session only if the session is mapped to it
      (or to none, for the PG pool). */
  ghost predicate Settled(h: HState, id: SessionId) {
    && h.pg.Valid() && h.my.Valid()
    && (id in h.pg.sessions ==> h.LookupStep(id) == PG)
    && (id in h.my.sessions ==> h.LookupStep(id) == MY)
  }

  lemma RanForAppend(ran: seq<Statement>, s: Statement, id: SessionId)
    ensures RanFor(ran + [s], id) == RanFor(ran, id) + if s.id == id then [s] else []
    ensures Texts(RanFor(ran + [s], id)) == Texts(RanFor(ran, id)) + if s.id == id then [s.sql] else []
  {
    assert (ran + [s])[..|ran|] == ran;
  }

  lemma ExecuteServes(h: HState, a: SessionId, sql: bytes, db: DbOutcome, id: SessionId)
    requires Settled(h, id)
    ensures var h' := Execute(h, a, sql, db).0;
            && Settled(h', id) && ViewOf(h', id) == (if a == id then ViewOf(h, id).Runs(sql) else ViewOf(h, id))
  {
    hide PoolState.Valid, RanFor, Texts, Execute, HState.Cached, HState.LookupStep;
    var w := h.LookupStep(a);
    ExecuteTouches(h, a, sql, db);
    if h.Pool(w).Find(a).Some? {
      RanForAppend(h.ran, Statement(w, h.Pool(w).sessions[a], a, sql, Respond(sql, db)), id);
    }
    hide Respond;
  }

  /** All that running a statement changes is the record. */
  lemma ExecuteTouches(h: HState, a: SessionId, sql: bytes, db: DbOutcome)
    requires h.pg.Valid() && h.my.Valid()
    ensures var w := h.LookupStep(a);
            var h' := Execute(h, a, sql, db).0;
            && h'.pg == h.pg && h'.my == h.my && h'.stmts == h.stmts && h'.mapped == h.mapped
            && (forall k :: h'.Cached(k) == h.Cached(k) && h'.LookupStep(k) == h.LookupStep(k))
            && h'.ran == if h.Pool(w).Find(a).None? then h.ran
                         else h.ran + [Statement(w, h.Pool(w).sessions[a], a, sql, Respond(sql, db))]
  {
    var w := h.LookupStep(a);
    if h.Pool(w).Find(a).Some? {
      HeldIsNotReturned(h.Pool(w), a);
    }
    hide PoolState.Valid, Respond;
  }

  lemma HeldIsNotReturned(p: PoolState, id: SessionId)
    requires p.Valid() && id in p.sessions
    ensures p.sessions[id] !in p.backing.returned
  {
  }

  lemma AskServes(h: HState, a: SessionId, kind: byte, sql: bytes, db: DbOutcome, id: SessionId)
    requires Settled(h, id)
    ensures var r := Ask(a, kind, sql, db);
            var h' := Serve(h, r);
            Settled(h', id) && ViewOf(h', id) == (if a == id then ViewOf(h, id).Sees(r) else ViewOf(h, id))
  {
    hide PoolState.Valid, RanFor, Texts, Execute;
    ExecuteServes(h, a, if kind == EXECUTE then h.Cached(a) else sql, db, id);
  }

  lemma CloseServes(h: HState, a: SessionId, id: SessionId)
    requires Settled(h, id)
    ensures var h' := Serve(h, Request.Close(a));
            Settled(h', id)
              && ViewOf(h', id) == (if a == id then ViewOf(h, id).Sees(Request.Close(a)) else ViewOf(h, id))
  {
    hide PoolState.Valid, RanFor, Texts, CloseSession, HState.Cached, HState.LookupStep;
    CloseTouches(h, a);
    CloseReleases(h, a, id);
  }

  lemma CloseTouches(h: HState, a: SessionId)
    ensures var h' := CloseSession(h, a);
            && h'.ran == h.ran && h'.Cached(a) == [] && h'.LookupStep(a) == PG && a !in h'.stmts && a !in h'.mapped
            && (forall k :: k != a ==>
                  && h'.Cached(k) == h.Cached(k) && h'.LookupStep(k) == h.LookupStep(k)
                  && (k in h'.stmts <==> k in h.stmts) && (k in h'.mapped <==> k in h.mapped))
  {
    hide PoolState.Release;
  }

  lemma CloseReleases(h: HState, a: SessionId, id: SessionId)
    requires Settled(h, id)
    ensures var h' := CloseSession(h, a);
            && h'.pg.Valid() && h'.my.Valid()
            && (id in h'.pg.sessions <==> id in h.pg.sessions && id != a)
            && (id in h'.my.sessions <==> id in h.my.sessions && id != a)
  {
    hide PoolState.Valid, PoolState.Release, CloseSession;
    CloseHow(h, a);
    ReleaseKeepsValid(h.pg, a);
    ReleaseKeepsValid(h.my, a);
    ReleaseLeaves(h.pg, a, id);
    ReleaseLeaves(h.my, a, id);
  }

  /** Only the mapped pool is asked, or both. */
  lemma CloseHow(h: HState, a: SessionId)
    ensures CloseSession(h, a).pg == if a in h.mapped && h.mapped[a] == MY then h.pg else h.pg.Release(a)
    ensures CloseSession(h, a).my == if a in h.mapped && h.mapped[a] == PG then h.my else h.my.Release(a)
  {
    hide PoolState.Release;
  }

  lemma ReleaseLeaves(p: PoolState, a: SessionId, id: SessionId)
    ensures id in p.Release(a).sessions <==> id in p.sessions && id != a
  {
  }

  lemma AcquireLeaves(p: PoolState, a: SessionId, reachable: bool, id: SessionId)
    requires a != id
    ensures id in p.Acquire(a, reachable).0.sessions <==> id in p.sessions
  {
  }

  lemma CreateServes(h: HState, protocol: Protocol, a: SessionId, reachable: bool, id: SessionId)
    requires Settled(h, id) && a != id
    ensures var h' := Serve(h, Create(protocol, a, reachable));
            Settled(h', id) && ViewOf(h', id) == ViewOf(h, id)
  {
    hide PoolState.Valid, RanFor, Texts, PoolState.Acquire, CreateSession;
    AcquireKeepsValid(h.pg, a, reachable);
    AcquireKeepsValid(h.my, a, reachable);
    AcquireLeaves(h.pg, a, reachable, id);
    AcquireLeaves(h.my, a, reachable, id);
    CreateTouches(h, protocol, a, reachable);
  }

  lemma CreateTouches(h: HState, protocol: Protocol, a: SessionId, reachable: bool)
    ensures var h' := CreateSession(h, protocol, a, reachable).0;
            && h'.stmts == h.stmts && h'.ran == h.ran
            && (forall k :: k != a ==> h'.LookupStep(k) == h.LookupStep(k))
            && (h'.pg == h.pg || h'.pg == h.pg.Acquire(a, reachable).0)
            && (h'.my == h.my || h'.my == h.my.Acquire(a, reachable).0)
  {
    hide PoolState.Acquire;
  }

  /** Session isolation over whole runs: whatever requests are handled, for any sessions, what
      a session runs is determined by its own messages alone, in order. (Ids are fresh, so no
      later request creates the session again.) */
  lemma {:induction false} SessionFold(h: HState, rs: seq<Request>, id: SessionId)
    requires Settled(h, id) && forall i :: 0 <= i < |rs| && rs[i].Create? ==> rs[i].id != id
    ensures Settled(ServeAll(h, rs), id)
    ensures ViewOf(ServeAll(h, rs), id) == ViewOf(h, id).SeesAll(Only(rs, id))
    decreases |rs|
  {
    if rs != [] {
      var r := rs[0];
      match r {
        case Create(protocol, a, reachable) => CreateServes(h, protocol, a, reachable, id);
        case Ask(a, kind, sql, db) => AskServes(h, a, kind, sql, db, id);
        case Close(a) => CloseServes(h, a, id);
      }
      hide Serve, ViewOf, Settled, Session.Sees;
      SessionFold(Serve(h, r), rs[1..], id);
      SeesAllStep(ViewOf(h, id), r, Only(rs[1..], id));
    }
  }

  lemma SeesAllStep(v: Session, r: Request, more: seq<Request>)
    ensures v.SeesAll([r] + more) == v.Sees(r).SeesAll(more)
    ensures [] + more == more
  {
    assert ([r] + more)[1..] == more;
  }

  /** Hence deleting every message of every other session changes nothing for this one. */
  lemma OthersDoNotMatter(h: HState, rs: seq<Request>, id: SessionId)
    requires Settled(h, id) && forall i :: 0 <= i < |rs| && rs[i].Create? ==> rs[i].id != id
    ensures ViewOf(ServeAll(h, rs), id) == ViewOf(ServeAll(h, Only(rs, id)), id)
  {
    hide Serve, ViewOf, Settled, Session.Sees;
    SessionFold(h, rs, id);
    OnlyNames(rs, id);
    SessionFold(h, Only(rs, id), id);
    OnlyTwice(rs, id);
  }

  lemma {:induction false} OnlyTwice(rs: seq<Request>, id: SessionId)
    ensures Only(Only(rs, id), id) == Only(rs, id)
  {
    if rs != [] {
      OnlyTwice(rs[1..], id);
      if rs[0].id == id {
        assert ([rs[0]] + Only(rs[1..], id))[1..] == Only(rs[1..], id);
      } else {
        assert [] + Only(rs[1..], id) == Only(rs[1..], id);
      }
    }
  }

  lemma {:induction false} OnlyNames(rs: seq<Request>, id: SessionId)
    requires forall i :: 0 <= i < |rs| && rs[i].Create? ==> rs[i].id != id
    ensures forall i :: 0 <= i < |Only(rs, id)| ==> Only(rs, id)[i].id == id && !Only(rs, id)[i].Create?
  {
    if rs != [] {
      OnlyNames(rs[1..], id);
    }
  }

  // ---------- from the first request to the last ----------

  /** Nothing has been heard of the id. */
  ghost predicate Absent(h: HState, id: SessionId) {
    && h.pg.Valid() && h.my.Valid()
    && id !in h.mapped && id !in h.stmts && id !in h.pg.sessions && id !in h.my.sessions && RanFor(h.ran, id) == []
  }

  /** After a successful CreateSession for a new id the session is live and has run nothing. */
  lemma CreatedIsLive(h: HState, protocol: Protocol, id: SessionId, reachable: bool)
    requires Absent(h, id) && CreateSession(h, protocol, id, reachable).1 == Made(id)
    ensures var h' := CreateSession(h, protocol, id, reachable).0;
            Settled(h', id) && ViewOf(h', id) == Session([], true, [])
  {
    hide PoolState.Valid, RanFor, PoolState.Acquire;
    AcquireKeepsValid(h.pg, id, reachable);
    AcquireKeepsValid(h.my, id, reachable);
    AcquireHolds(h, reachable, id);
  }

  lemma OthersLeaveAbsent(h: HState, r: Request, id: SessionId)
    requires Absent(h, id) && r.id != id
    ensures Absent(Serve(h, r), id)
  {
    hide PoolState.Valid, RanFor, PoolState.Acquire, PoolState.Release, CreateSession, CloseSession, ViewOf,
         HandleQuery;
    match r {
      case Create(protocol, a, reachable) =>
        CreateServes(h, protocol, a, reachable, id);
        AcquireLeaves(h.pg, a, reachable, id);
        AcquireLeaves(h.my, a, reachable, id);
        CreateTouches(h, protocol, a, reachable);
        CreateMaps(h, protocol, a, reachable);
      case Ask(a, kind, sql, db) =>
        AskServes(h, a, kind, sql, db, id);
        AskTouches(h, a, kind, sql, db, id);
      case Close(a) =>
        CloseTouches(h, a);
        CloseReleases(h, a, id);
    }
  }

  lemma CreateMaps(h: HState, protocol: Protocol, a: SessionId, reachable: bool)
    ensures forall k :: k in CreateSession(h, protocol, a, reachable).0.mapped ==> k in h.mapped || k == a
  {
    hide PoolState.Acquire;
  }

  lemma AskTouches(h: HState, a: SessionId, kind: byte, sql: bytes, db: DbOutcome, id: SessionId)
    requires h.pg.Valid() && h.my.Valid() && a != id
    ensures var h' := HandleQuery(h, a, kind, sql, db).0;
            && h'.pg == h.pg && h'.my == h.my && h'.mapped == h.mapped && (id in h'.stmts <==> id in h.stmts)
            && RanFor(h'.ran, id) == RanFor(h.ran, id)
  {
    hide PoolState.Valid, RanFor, Texts, Execute, HState.Cached, HState.LookupStep;
    var text := if kind == EXECUTE then h.Cached(a) else sql;
    var w := h.LookupStep(a);
    ExecuteTouches(h, a, text, db);
    if h.Pool(w).Find(a).Some? {
      RanForAppend(h.ran, Statement(w, h.Pool(w).sessions[a], a, text, Respond(text, db)), id);
    }
    hide Respond;
  }

  lemma {:induction false} OthersLeaveAbsentAll(h: HState, rs: seq<Request>, id: SessionId)
    requires Absent(h, id) && forall i :: 0 <= i < |rs| ==> rs[i].id != id
    ensures Absent(ServeAll(h, rs), id)
    decreases |rs|
  {
    if rs != [] {
      OthersLeaveAbsent(h, rs[0], id);
      hide Serve, Absent;
      OthersLeaveAbsentAll(Serve(h, rs[0]), rs[1..], id);
    }
  }

  /** A whole session: whatever is served before it is created and whatever is served to
      others afterwards, what it runs is the fold of its own messages from a live session
      that has run nothing. */
  lemma WholeSession(pgCapacity: Option<nat>, hasMy: bool, myCapacity: Option<nat>, before: seq<Request>,
                     protocol: Protocol, id: SessionId, reachable: bool, after: seq<Request>)
    requires forall i :: 0 <= i < |before| ==> before[i].id != id
    requires forall i :: 0 <= i < |after| && after[i].Create? ==> after[i].id != id
    ensures var h := ServeAll(Start(pgCapacity, hasMy, myCapacity).g.h, before);
            var (h1, r) := CreateSession(h, protocol, id, reachable);
            r == Made(id) ==>
              Texts(RanFor(ServeAll(h1, after).ran, id)) == Session([], true, []).SeesAll(Only(after, id)).ran
  {
    var h0 := Start(pgCapacity, hasMy, myCapacity).g.h;
    assert Absent(h0, id);
    hide ServeAll, Absent, Settled, CreateSession, Session.Sees;
    OthersLeaveAbsentAll(h0, before, id);
    var h := ServeAll(h0, before);
    var (h1, r) := CreateSession(h, protocol, id, reachable);
    if r == Made(id) {
      CreatedIsLive(h, protocol, id, reachable);
      SessionFold(h1, after, id);
      assert ViewOf(ServeAll(h1, after), id).ran == Texts(RanFor(ServeAll(h1, after).ran, id));
    }
  }
}
