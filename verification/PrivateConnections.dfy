/** Over every run, each proxy connection gets what a server of its own would give it, and
    its database connection runs what that server's would run. */
module PrivateConnections {
  import opened ByteStrings
  import opened Http
  import opened MessageTypes
  import opened Pools
  import opened HandlerState
  import opened Interleaving
  import opened Ownership
  import opened Clients
  import Wire
  import MySqlProxy
  import MySqlClient
  import MySqlConversation
  import PgProxy
  import PgConversation
  import Isolation

  // ---------- over a run ----------

  /** The view `p` of a client is that of a private connection that served its answered
      requests, the databases having made `dbs` of them. A departing client has no cache. */
  ghost predicate IsPrivate(p: Private, sent: seq<Ask>, departing: bool, dbs: seq<DbOutcome>) {
    && |dbs| == |p.answers| <= |sent|
    && var q := ServesAll(sent[..|dbs|], dbs);
       p.log == q.log && p.answers == q.answers && (departing || p.cached == q.cached)
  }

  ghost predicate Explained(m: Machine, cl: Client, dbs: seq<DbOutcome>) {
    IsPrivate(View(m, cl), cl.sent, Departing(cl), dbs)
  }

  lemma ServesAllOneMore(asks: seq<Ask>, dbs: seq<DbOutcome>, db: DbOutcome)
    requires |dbs| < |asks|
    ensures ServesAll(asks[..|dbs| + 1], dbs + [db]) == ServesAll(asks[..|dbs|], dbs).Serves(asks[|dbs|], db)
  {
    hide Private.Serves;
    assert asks[..|dbs| + 1][..|dbs|] == asks[..|dbs|];
    assert (dbs + [db])[..|dbs|] == dbs;
  }

  lemma ServesSame(p: Private, q: Private, a: Ask, db: DbOutcome)
    requires p.log == q.log && p.answers == q.answers && p.cached == q.cached
    ensures p.Serves(a, db) == q.Serves(a, db)
    ensures |p.Serves(a, db).answers| == |p.answers| + 1
  {
    hide Respond, Nothing, Failure;
  }

  function OneMore(p: Private, q: Private, dbs: seq<DbOutcome>, e: Happening): seq<DbOutcome> {
    if q != p && e.Serve? then dbs + [e.db] else dbs
  }

  lemma IsPrivateStep(p: Private, q: Private, was: seq<Ask>, sent: seq<Ask>, before: bool, after: bool,
                      dbs: seq<DbOutcome>, e: Happening)
    requires IsPrivate(p, was, before, dbs) && PrivateStep(p, q, sent, e) && was <= sent
    requires before ==> after && sent == was && |p.answers| == |sent|
    requires e.Leave? ==> q == p || after
    ensures IsPrivate(q, sent, after, OneMore(p, q, dbs, e))
  {
    hide Private.Serves;
    assert sent[..|dbs|] == was[..|dbs|];
    if q != p && e.Serve? {
      ServesAllOneMore(sent, dbs, e.db);
      ServesSame(p, ServesAll(was[..|dbs|], dbs), sent[|dbs|], e.db);
    }
  }

  lemma LeaverDeparts(s: System, e: Happening, x: ClientId)
    requires SysInv(s) && x < |s.clients| && e.Leave? && x < |Move(s, e).clients| && e.x == x
    ensures Departing(Move(s, e).clients[x]) || Move(s, e) == s
  {
  }

  lemma ExplainedStep(s: System, e: Happening, x: ClientId, dbs: seq<DbOutcome>)
    requires SysInv(s) && x < |s.clients| && Explained(s.m, s.clients[x], dbs)
    ensures x < |Move(s, e).clients| && exists more :: Explained(Move(s, e).m, Move(s, e).clients[x], more)
  {
    hide SysInv, Move, View, Private.Serves, IsPrivate, PrivateStep, Departing;
    MoveRefines(s, e);
    var n := Move(s, e);
    var p, q := View(s.m, s.clients[x]), View(n.m, n.clients[x]);
    if Departing(s.clients[x]) {
      DepartingIsAnswered(s, x);
    }
    if e.Leave? && e.x == x {
      LeaverDeparts(s, e, x);
    }
    IsPrivateStep(p, q, s.clients[x].sent, n.clients[x].sent, Departing(s.clients[x]), Departing(n.clients[x]), dbs, e);
    assert Explained(n.m, n.clients[x], OneMore(p, q, dbs, e));
  }

  lemma DepartingIsAnswered(s: System, x: ClientId)
    requires SysInv(s) && x < |s.clients| && Departing(s.clients[x])
    ensures |View(s.m, s.clients[x]).answers| == |s.clients[x].sent|
  {
    hide Inv, CallersOk, DistinctNames;
    assert SentOk(s.clients[x]);
  }

  lemma {:induction false} RunIsExplained(s: System, es: seq<Happening>, x: ClientId, dbs: seq<DbOutcome>)
    requires SysInv(s) && x < |s.clients| && Explained(s.m, s.clients[x], dbs)
    ensures var n := Moves(s, es);
            SysInv(n) && x < |n.clients| && n.clients[x].program == s.clients[x].program
            && exists more :: Explained(n.m, n.clients[x], more)
    decreases |es|
  {
    if es != [] {
      hide SysInv, Explained, Move;
      ExplainedStep(s, es[0], x, dbs);
      MoveRefines(s, es[0]);
      var more :| Explained(Move(s, es[0]).m, Move(s, es[0]).clients[x], more);
      hide Refines;
      RunIsExplained(Move(s, es[0]), es[1..], x, more);
    }
  }

  lemma RunFromBegin(pgCapacity: Option<nat>, hasMy: bool, myCapacity: Option<nat>, programs: seq<Program>,
                     es: seq<Happening>, x: ClientId)
    requires x < |programs|
    ensures var n := Moves(Begin(pgCapacity, hasMy, myCapacity, programs), es);
            && SysInv(n) && x < |n.clients| && n.clients[x].program == programs[x]
            && (exists dbs :: Explained(n.m, n.clients[x], dbs))
  {
    hide SysInv, Explained;
    BeginIsOk(pgCapacity, hasMy, myCapacity, programs);
    BeginIsExplained(pgCapacity, hasMy, myCapacity, programs, x);
    RunIsExplained(Begin(pgCapacity, hasMy, myCapacity, programs), es, x, []);
  }

  /** The refinement over whole runs: any number of proxy connections, of both kinds, handled
      in any interleaving. What was run for a client's session and the replies it got are
      those of a server with that one client and one connection. And there is one such
      connection, of the database of the client's protocol: it ran all that was run for the
      session, and from its taking to its giving back nothing else. */
  lemma EveryClientIsPrivate(pgCapacity: Option<nat>, hasMy: bool, myCapacity: Option<nat>, programs: seq<Program>,
                             es: seq<Happening>, x: ClientId)
    requires x < |programs|
    ensures var n := Moves(Begin(pgCapacity, hasMy, myCapacity, programs), es);
            && x < |n.clients| && (exists dbs :: Explained(n.m, n.clients[x], dbs))
            && HasItsOwn(n.m, n.clients[x])
  {
    hide SysInv, Explained, Begin;
    RunFromBegin(pgCapacity, hasMy, myCapacity, programs, es, x);
    RunOwns(Moves(Begin(pgCapacity, hasMy, myCapacity, programs), es), x);
  }

  /** `k` is the one connection ever taken for the session. It is of database `w`, and what it
      was given to run is what was run for the session, all of it and nothing else. */
  ghost predicate IsItsOwn(g: World, id: SessionId, w: Which, k: Connection) {
    && OwnedBy(g.owner, k, id) && k.w == w
    && (forall j :: OwnedBy(g.owner, j, id) ==> j == k)
    && RanOn(g.h.ran, k) == RanFor(g.h.ran, id)
    && (forall i :: 0 <= i < |RanFor(g.h.ran, id)| ==> On(RanFor(g.h.ran, id)[i].w, RanFor(g.h.ran, id)[i].lease) == k)
  }

  /** The connection is in the map of its pool, under the session. */
  predicate Holds(g: World, id: SessionId, k: Connection) {
    g.h.Pool(k.w).Find(id) == Some(k.lease) && !GivenBack(g, k)
  }

  predicate GivenBack(g: World, k: Connection) {
    k.lease in g.h.Pool(k.w).backing.returned
  }

  /** A client that has left gave its connection back; one that has not begun to leave holds it,
      also one that was lost before its loop. */
  predicate InHand(m: Machine, cl: Client, id: SessionId, k: Connection) {
    && (cl.phase.Left? ==> GivenBack(m.g, k))
    && (cl.phase.Idle? || cl.phase.Asking? || cl.phase.Lost? ==> Holds(m.g, id, k))
  }

  /** A client that was given a session has one connection, of the database of its protocol. */
  ghost predicate HasItsOwn(m: Machine, cl: Client) {
    NameOf(m, cl).Some? && !cl.phase.Opening? ==>
      exists k ::
        && IsItsOwn(m.g, NameOf(m, cl).value, cl.program.Home(), k)
        && InHand(m, cl, NameOf(m, cl).value, k)
  }

  lemma {:induction false} RanOnIsThere(ran: seq<Statement>, k: Connection)
    ensures forall i :: 0 <= i < |RanOn(ran, k)| ==> On(RanOn(ran, k)[i].w, RanOn(ran, k)[i].lease) == k
  {
    if ran != [] {
      RanOnIsThere(ran[..|ran| - 1], k);
    }
  }

  lemma KnownOwns(m: Machine, id: SessionId, w: Which) returns (k: Connection)
    requires Inv(m) && id in m.g.known && HomeIs(m.g.home, id, w)
    ensures OwnedBy(m.g.owner, k, id) && k.w == w && forall j :: OwnedBy(m.g.owner, j, id) ==> j == k
  {
    hide PoolState.Valid, RanOk, HeldOk, CreatesOk, ReleasedOk, HomeOk, LiveOk, IdsOk, CallsOk, LocksOk, HeldOrReturned;
    assert Owning(m.g.owner, id);
    k :| OwnedBy(m.g.owner, k, id);
  }

  lemma OwnedIsInHand(m: Machine, cl: Client, id: SessionId, k: Connection)
    requires Inv(m) && PhaseOk(m, cl) && NameOf(m, cl) == Some(id) && !cl.phase.Opening? && OwnedBy(m.g.owner, k, id)
    ensures InHand(m, cl, id, k)
  {
    hide Inv, RanFor, HState.Cached, Holds, GivenBack;
    if cl.phase.Left? {
      ReleasedIsBack(m, id, k);
    } else if cl.phase.Idle? || cl.phase.Asking? || cl.phase.Lost? {
      LiveIsHeld(m, id, k);
    }
  }

  lemma ReleasedIsBack(m: Machine, id: SessionId, k: Connection)
    requires Inv(m) && id in m.g.released && OwnedBy(m.g.owner, k, id)
    ensures GivenBack(m.g, k)
  {
    hide PoolState.Valid, OnceOk, RanOk, KnownOk, HeldOk, CreatesOk, HomeOk, LiveOk, IdsOk, CallsOk, LocksOk, HomeIs;
    assert TakenOk(k.w, m.g.h.Pool(k.w), m.g.home, m.g.owner);
    assert HeldOrReturned(m.g.h.Pool(k.w), id, k.lease);
  }

  lemma LiveIsHeld(m: Machine, id: SessionId, k: Connection)
    requires Inv(m) && Live(m.g, id) && OwnedBy(m.g.owner, k, id)
    ensures Holds(m.g, id, k)
  {
    LiveHolds(m, id);
    hide PoolState.Valid, OnceOk, RanOk, KnownOk, HeldOk, CreatesOk, HomeOk, LiveOk, IdsOk, CallsOk, LocksOk, TakenOk,
         ReleasedOk, Live;
    var p := m.g.h.Pool(k.w);
    assert TakenOk(k.w, p, m.g.home, m.g.owner);
    OwnedAtHome(k.w, p, m.g.home, m.g.owner, id, k);
    OneLease(k.w, p, m.g.home, m.g.owner, id, k.lease);
    ValidBound(p);
  }

  lemma OwnedAtHome(w: Which, p: PoolState, home: map<SessionId, Which>, owner: map<Connection, SessionId>,
                    id: SessionId, k: Connection)
    requires TakenOk(w, p, home, owner) && OwnedBy(owner, k, id) && k.w == w
    ensures HomeIs(home, id, w)
  {
  }

  lemma NamedIsKnown(m: Machine, cl: Client)
    requires PhaseOk(m, cl) && NameOf(m, cl).Some? && !cl.phase.Opening?
    ensures NameOf(m, cl).value in m.g.known
  {
    hide RanFor, HState.Cached;
  }

  lemma RunOwns(s: System, x: ClientId)
    requires SysInv(s) && x < |s.clients|
    ensures HasItsOwn(s.m, s.clients[x])
  {
    hide Inv, RanOn, RanFor, CallersOk, DistinctNames, NameOf;
    assert PhaseOk(s.m, s.clients[x]);
    if NameOf(s.m, s.clients[x]).Some? && !s.clients[x].phase.Opening? {
      NamedIsKnown(s.m, s.clients[x]);
      var id, w := NameOf(s.m, s.clients[x]).value, s.clients[x].program.Home();
      var k := KnownOwns(s.m, id, w);
      InvGivesPrivate(s.m, k);
      RanOnIsThere(s.m.g.h.ran, k);
      OwnedIsInHand(s.m, s.clients[x], id, k);
      hide InHand, OwnedBy;
      assert IsItsOwn(s.m.g, id, w, k);
    }
  }

  lemma BeginIsExplained(pgCapacity: Option<nat>, hasMy: bool, myCapacity: Option<nat>, programs: seq<Program>,
                         x: ClientId)
    requires x < |programs|
    ensures var s := Begin(pgCapacity, hasMy, myCapacity, programs);
            s.clients[x].program == programs[x] && Explained(s.m, s.clients[x], [])
  {
  }

  // ---------- what a private connection does ----------

  /** The text of the last Parse. */
  function LatestParse(asks: seq<Ask>): bytes {
    if asks == [] then []
    else if asks[|asks| - 1].kind == PARSE then asks[|asks| - 1].sql
    else LatestParse(asks[..|asks| - 1])
  }

  /** What request `i` runs: Parse, Bind, Describe and Sync nothing, Execute the last Parse
      before it unless that is empty or missing, anything else its own text. */
  function TextRun(asks: seq<Ask>, i: nat): Option<bytes>
    requires i < |asks|
  {
    if asks[i].kind in {PARSE, BIND, DESCRIBE, SYNC} then None
    else if asks[i].kind == EXECUTE then if LatestParse(asks[..i]) == [] then None else Some(LatestParse(asks[..i]))
    else Some(asks[i].sql)
  }

  function TextsRun(asks: seq<Ask>): seq<bytes> {
    if asks == [] then []
    else
      TextsRun(asks[..|asks| - 1])
      + match TextRun(asks, |asks| - 1) case None => [] case Some(text) => [text]
  }

  /** The reply due to request `i`: that of the very statement it ran, or, if it ran none, an
      empty reply or a complaint about the missing Parse. */
  predicate IsDue(asks: seq<Ask>, i: nat, log: seq<Entry>, reply: HttpReply)
    requires i < |asks|
  {
    match TextRun(asks, i)
    case Some(text) =>
      var j := |TextsRun(asks[..i])|;
      j < |log| && log[j].sql == text && reply == Replied(log[j].response)
    case None =>
      if asks[i].kind == EXECUTE then reply == HttpFailed(NO_STATEMENT)
      else if asks[i].kind == BIND && LatestParse(asks[..i]) == [] then reply == Replied(Failure(NO_STATEMENT))
      else reply == Replied(Nothing())
  }

  function EntryTexts(log: seq<Entry>): (r: seq<bytes>)
    ensures |r| == |log|
  {
    seq(|log|, i requires 0 <= i < |log| => log[i].sql)
  }

  /** A private connection runs what the requests say, and gives the replies due to them. */
  lemma {:induction false} PrivateIs(asks: seq<Ask>, dbs: seq<DbOutcome>)
    requires |asks| == |dbs|
    ensures var p := ServesAll(asks, dbs);
            && p.cached == LatestParse(asks) && EntryTexts(p.log) == TextsRun(asks)
            && forall i :: 0 <= i < |asks| ==> IsDue(asks, i, p.log, p.answers[i])
  {
    if asks != [] {
      var n := |asks| - 1;
      var front := asks[..n];
      PrivateIs(front, dbs[..n]);
      var was, p := ServesAll(front, dbs[..n]), ServesAll(asks, dbs);
      LastServed(was, asks, dbs[n]);
      hide ServesAll, IsDue, TextsRun, Private.Serves;
      forall i | 0 <= i < |asks| ensures IsDue(asks, i, p.log, p.answers[i]) {
        if i < n {
          assert front[..i] == asks[..i];
          DueStays(front, asks, i, was.log, p.log, was.answers[i]);
        }
      }
    }
  }

  lemma LastServed(was: Private, asks: seq<Ask>, db: DbOutcome)
    requires asks != [] && |was.answers| == |asks| - 1
    requires was.cached == LatestParse(asks[..|asks| - 1]) && EntryTexts(was.log) == TextsRun(asks[..|asks| - 1])
    ensures var n := |asks| - 1;
            var p := was.Serves(asks[n], db);
            && p.cached == LatestParse(asks) && EntryTexts(p.log) == TextsRun(asks)
            && was.log <= p.log && |p.answers| == n + 1 && p.answers[..n] == was.answers
              && IsDue(asks, n, p.log, p.answers[n])
  {
    hide Respond, Failure, Nothing;
    var n := |asks| - 1;
    var p := was.Serves(asks[n], db);
    if TextRun(asks, n).Some? {
      assert p.log == was.log + [Entry(TextRun(asks, n).value, Respond(TextRun(asks, n).value, db))];
    }
  }

  lemma DueStays(front: seq<Ask>, asks: seq<Ask>, i: nat, log: seq<Entry>, more: seq<Entry>, reply: HttpReply)
    requires i < |front| && front <= asks && log <= more && IsDue(front, i, log, reply)
    ensures IsDue(asks, i, more, reply)
  {
    assert front[..i] == asks[..i];
  }

  /** The requests of one client, as served one at a time. */
  function AsRequests(id: SessionId, asks: seq<Ask>, db: DbOutcome): (r: seq<Isolation.Request>)
    ensures |r| == |asks|
  {
    seq(|asks|, i requires 0 <= i < |asks| => Isolation.Ask(id, asks[i].kind, asks[i].sql, db))
  }

  lemma {:induction false} SeesAllThen(v: Isolation.Session, rs: seq<Isolation.Request>, r: Isolation.Request)
    ensures v.SeesAll(rs + [r]) == v.SeesAll(rs).Sees(r)
    decreases |rs|
  {
    hide Isolation.Session.Sees;
    if rs == [] {
      assert v.SeesAll([r]) == v.Sees(r).SeesAll([r][1..]);
    } else {
      assert (rs + [r])[1..] == rs[1..] + [r];
      SeesAllThen(v.Sees(rs[0]), rs[1..], r);
    }
  }

  /** The fold of a session that is served one request at a time runs the same texts: a
      private connection is what a session is when nothing is interleaved. */
  lemma {:induction false} FoldIsPrivate(id: SessionId, asks: seq<Ask>, db: DbOutcome)
    ensures Isolation.Session([], true, []).SeesAll(AsRequests(id, asks, db)) ==
            Isolation.Session(LatestParse(asks), true, TextsRun(asks))
  {
    if asks != [] {
      var n := |asks| - 1;
      FoldIsPrivate(id, asks[..n], db);
      assert AsRequests(id, asks, db) ==
        AsRequests(id, asks[..n], db) + [Isolation.Ask(id, asks[n].kind, asks[n].sql, db)];
      SeesAllThen(Isolation.Session([], true, []), AsRequests(id, asks[..n], db),
        Isolation.Ask(id, asks[n].kind, asks[n].sql, db));
    }
  }
}
