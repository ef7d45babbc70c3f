/** When a proxy connection gets on: exactly when no acquire is inside a full pool that its next
    step needs. */
module ClientProgress {
  import opened ByteStrings
  import opened Http
  import opened HandlerState
  import opened Interleaving
  import opened Ownership
  import opened Progress
  import opened Clients

  /** What a client can do next: ask or leave between calls, or take what its call returned. */
  function NextMove(s: System, x: ClientId, c: CallId): Happening
    requires x < |s.clients|
  {
    var cl := s.clients[x];
    match cl.phase
    case Opening(_) => Opened(x, false)
    case Asking(_, _) => Reply(x)
    case Leaving(_, _) => Gone(x)
    case _ => if |cl.got| < |cl.program.Wants(cl.got)| then Request(x, c) else Leave(x, c)
  }

  /** The phases in the order a client goes through them. */
  predicate Follows(was: Phase, now: Phase) {
    match was
    case Opening(_) => now.Idle? || now.Refused?
    case Idle(id) => (now.Asking? || now.Leaving?) && now.id == id
    case Asking(id, _) => now == Phase.Idle(id)
    case Leaving(id, _) => now == Phase.Left(id)
    case _ => false
  }

  predicate Going(cl: Client) {
    cl.phase.Idle? || PendingCall(cl).Some?
  }

  lemma SentIsBounded(cl: Client)
    requires SentOk(cl)
    ensures cl.phase.Idle? ==> |cl.got| <= |cl.program.Wants(cl.got)|
  {
    hide Program.Wants;
  }

  lemma ReturnedIsTakeable(m: Machine, cl: Client, c: CallId)
    requires PhaseOk(m, cl) && PendingCall(cl) == Some(c)
    ensures c in m.calls
    ensures StepsLeft(m.calls[c]) == 0 ==>
              && (cl.phase.Opening? ==> m.calls[c].Created? || m.calls[c].CreateFailed?)
              && (cl.phase.Asking? ==> m.calls[c].Answered?)
              && (cl.phase.Leaving? ==> m.calls[c].Closed?)
  {
    hide RanFor, HState.Cached, AtHome;
  }

  /** One between calls can make its next request or leave, and one whose call has returned can
      take the result. */
  lemma TakesItsMove(s: System, x: ClientId, c: CallId)
    requires SysInv(s) && x < |s.clients| && c !in s.m.calls && Going(s.clients[x])
    ensures PendingCall(s.clients[x]).Some? ==> PendingCall(s.clients[x]).value in s.m.calls
    ensures var pending := PendingCall(s.clients[x]);
            (pending.Some? ==> StepsLeft(s.m.calls[pending.value]) == 0) ==>
              var n := Move(s, NextMove(s, x, c));
              x < |n.clients| && Follows(s.clients[x].phase, n.clients[x].phase)
  {
    hide Inv, CallersOk, DistinctNames, Program.Wants, RanFor, HState.Cached, Apply, PhaseOk, SentOk, StepsLeft;
    var cl := s.clients[x];
    assert PhaseOk(s.m, cl) && SentOk(cl);
    hide SysInv;
    SentIsBounded(cl);
    if PendingCall(cl).Some? {
      ReturnedIsTakeable(s.m, cl, PendingCall(cl).value);
    }
  }

  // ---------- patience ----------

  predicate Patient(e: Happening) {
    e.Serve? ==> e.reachable
  }

  predicate AllPatient(es: seq<Happening>) {
    forall i :: 0 <= i < |es| ==> Patient(es[i])
  }

  /** Turns of calls, as happenings. */
  function Serving(es: seq<Event>): (r: seq<Happening>)
    requires OnlyWork(es)
    ensures |r| == |es| && AllPatient(r)
  {
    seq(|es|, i requires 0 <= i < |es| => Serve(es[i].c, true, es[i].db))
  }

  lemma {:induction false} ServingRuns(s: System, es: seq<Event>)
    requires OnlyWork(es)
    ensures Moves(s, Serving(es)) == s.(m := Run(s.m, es))
    decreases |es|
  {
    hide Apply;
    if es != [] {
      assert Serving(es)[1..] == Serving(es[1..]);
      assert es[0] == Work(es[0].c, true, es[0].db);
      ServingRuns(s.(m := Apply(s.m, es[0])), es[1..]);
    }
  }

  // ---------- getting on ----------

  /** A client got on from `s` to `n`: to its next phase, or its call is further. */
  predicate GotOn(s: System, n: System, x: ClientId) {
    x < |s.clients| && x < |n.clients| &&
    (n.clients[x].phase != s.clients[x].phase
     || (PendingCall(s.clients[x]).Some? && PendingCall(s.clients[x]).value in s.m.calls
         && PendingCall(s.clients[x]).value in n.m.calls
         && n.m.calls[PendingCall(s.clients[x]).value] != s.m.calls[PendingCall(s.clients[x]).value]))
  }

  /** The pool a client's next step needs, if any. */
  function Needs(s: System, x: ClientId): Option<Which>
    requires x < |s.clients|
  {
    match PendingCall(s.clients[x])
    case None => None
    case Some(c) => if c in s.m.calls then PoolNeeded(s.m.calls[c]) else None
  }

  /** What gets a client on: its own move, or turns of its call and of the holder it waits for. */
  function WayOn(s: System, x: ClientId, c: CallId, db: DbOutcome): seq<Happening>
    requires x < |s.clients|
  {
    match PendingCall(s.clients[x])
    case None => [NextMove(s, x, c)]
    case Some(d) =>
      if d in s.m.calls && StepsLeft(s.m.calls[d]) > 0 then
        TurnsAreWork(s.m, d, db);
        Serving(Turns(s.m, d, db))
      else [NextMove(s, x, c)]
  }

  lemma TurnsAreWork(m: Machine, d: CallId, db: DbOutcome)
    ensures OnlyWork(Turns(m, d, db))
  {
    hide Blocked;
  }

  lemma WayOnIsPatient(s: System, x: ClientId, c: CallId, db: DbOutcome)
    requires x < |s.clients|
    ensures AllPatient(WayOn(s, x, c, db)) && |WayOn(s, x, c, db)| <= 2
  {
    hide StepsLeft, Blocked;
  }

  lemma TurnsGoOn(m: Machine, d: CallId, db: DbOutcome)
    requires Inv(m) && d in m.calls && StepsLeft(m.calls[d]) > 0
    requires PoolNeeded(m.calls[d]).Some? ==> !Jammed(m, PoolNeeded(m.calls[d]).value)
    ensures d in Run(m, Turns(m, d, db)).calls && StepsLeft(Run(m, Turns(m, d, db)).calls[d]) < StepsLeft(m.calls[d])
  {
    hide Inv, Apply, StepsLeft, Full;
    if PoolNeeded(m.calls[d]).Some? {
      hide PoolNeeded, Blocked;
      TurnsMove(m, d, PoolNeeded(m.calls[d]).value, db);
    } else {
      FreeMoves(m, d, db);
      RunOne(m, Work(d, true, db));
    }
  }

  /** The only turn of a client that a jam takes away is a step at the jammed pool: with any
      other next step it gets on within two happenings, in every reachable state. */
  lemma NeverStuck(s: System, x: ClientId, c: CallId, db: DbOutcome)
    requires SysInv(s) && x < |s.clients| && c !in s.m.calls && Going(s.clients[x])
    requires Needs(s, x).Some? ==> !Jammed(s.m, Needs(s, x).value)
    ensures GotOn(s, Moves(s, WayOn(s, x, c, db)), x)
  {
    hide Move, StepsLeft, Jammed, PoolNeeded, NextMove, Going, Follows;
    TakesItsMove(s, x, c);
    hide SysInv;
    var pending := PendingCall(s.clients[x]);
    if pending.Some? && StepsLeft(s.m.calls[pending.value]) > 0 {
      var d := pending.value;
      InvOf(s);
      TurnsGoOn(s.m, d, db);
      TurnsAreWork(s.m, d, db);
      hide Turns;
      ServingRuns(s, Turns(s.m, d, db));
    } else {
      OneMove(s, NextMove(s, x, c));
      FollowsDiffers(s.clients[x].phase, Move(s, NextMove(s, x, c)).clients[x].phase);
    }
  }

  lemma InvOf(s: System)
    requires SysInv(s)
    ensures Inv(s.m)
  {
    hide Inv;
  }

  lemma OneMove(s: System, e: Happening)
    ensures Moves(s, [e]) == Move(s, e)
  {
    hide Move;
    assert [e][1..] == [];
    assert Moves(Move(s, e), []) == Move(s, e);
  }

  lemma FollowsDiffers(was: Phase, now: Phase)
    requires Follows(was, now)
    ensures now != was
  {
  }

  // ---------- and not getting on ----------

  /** The handler's part of a happening. */
  function EventOf(s: System, e: Happening): Event {
    if e.Serve? then Work(e.c, e.reachable, e.db)
    else if e.x >= |s.clients| then Work(0, true, DbFailed([]))
    else
      var cl := s.clients[e.x];
      match e
      case Connect(_, c, id) => StartCreate(c, cl.program.Speaks(), id)
      case Request(_, c) =>
        if cl.phase.Idle? && |cl.got| < |cl.program.Wants(cl.got)| then
          var ask := cl.program.Wants(cl.got)[|cl.got|];
          StartQuery(c, cl.phase.id, ask.kind, ask.sql)
        else Work(0, true, DbFailed([]))
      case Leave(_, c) => if cl.phase.Idle? then StartClose(c, cl.phase.id) else Work(0, true, DbFailed([]))
      case _ => Work(0, true, DbFailed([]))
  }

  lemma MoveIsEvent(s: System, e: Happening)
    ensures Move(s, e).m == s.m || Move(s, e).m == Apply(s.m, EventOf(s, e))
    ensures Patient(e) ==> Progress.Patient(EventOf(s, e))
  {
    hide Apply, Program.Wants;
  }

  /** A client whose call has not returned stays in its phase. */
  lemma PendingStays(s: System, e: Happening, x: ClientId)
    requires x < |s.clients| && PendingCall(s.clients[x]).Some? && PendingCall(s.clients[x]).value in s.m.calls
    requires StepsLeft(s.m.calls[PendingCall(s.clients[x]).value]) > 0
    ensures x < |Move(s, e).clients| && Move(s, e).clients[x] == s.clients[x]
  {
    hide Apply, Program.Wants;
  }

  lemma {:induction false} JammedClientStays(s: System, es: seq<Happening>, x: ClientId, w: Which)
    requires SysInv(s) && x < |s.clients| && AllPatient(es) && Needs(s, x) == Some(w) && Jammed(s.m, w)
    ensures !GotOn(s, Moves(s, es), x)
    decreases |es|
  {
    hide Move, SysInv, Jammed, GotOn, Needs, Refines;
    if es == [] {
      NeedsIsPending(s, x, w);
      StandsStill(s, s, s, x, w);
    } else {
      var n := Move(s, es[0]);
      assert Patient(es[0]);
      JammedClientStep(s, es[0], x, w);
      MoveRefines(s, es[0]);
      JammedClientStays(n, es[1..], x, w);
      StandsStill(s, n, Moves(n, es[1..]), x, w);
    }
  }

  lemma NeedsIsPending(s: System, x: ClientId, w: Which)
    requires x < |s.clients| && Needs(s, x) == Some(w)
    ensures PendingCall(s.clients[x]).Some? && PendingCall(s.clients[x]).value in s.m.calls
  {
    hide PoolNeeded;
  }

  lemma StandsStill(s: System, n: System, o: System, x: ClientId, w: Which)
    requires x < |s.clients| && Needs(s, x) == Some(w) && x < |n.clients| && n.clients[x] == s.clients[x]
    requires var c := PendingCall(s.clients[x]).value; c in n.m.calls && n.m.calls[c] == s.m.calls[c]
    ensures !GotOn(n, n, x)
    ensures !GotOn(n, o, x) ==> !GotOn(s, o, x)
  {
    hide PoolNeeded;
  }

  lemma JammedClientStep(s: System, e: Happening, x: ClientId, w: Which)
    requires SysInv(s) && x < |s.clients| && Patient(e) && Needs(s, x) == Some(w) && Jammed(s.m, w)
    ensures var n := Move(s, e);
            && x < |n.clients| && n.clients[x] == s.clients[x] && Needs(n, x) == Some(w) && Jammed(n.m, w)
            && PendingCall(s.clients[x]).value in n.m.calls
            && n.m.calls[PendingCall(s.clients[x]).value] == s.m.calls[PendingCall(s.clients[x]).value]
  {
    hide Move, SysInv, Full, StepsLeft, PoolNeeded;
    var c := PendingCall(s.clients[x]).value;
    NeedsPool(s.m.locks, s.m.calls[c], w);
    InvOf(s);
    JamStaysMoving(s, e, w, c);
    PendingStays(s, e, x);
  }

  lemma JamStaysMoving(s: System, e: Happening, w: Which, c: CallId)
    requires Inv(s.m) && Jammed(s.m, w) && Patient(e) && c in s.m.calls && PoolNeeded(s.m.calls[c]) == Some(w)
    ensures Jammed(Move(s, e).m, w) && c in Move(s, e).m.calls && Move(s, e).m.calls[c] == s.m.calls[c]
  {
    hide Apply, Full, Move, Inv, PoolNeeded;
    MoveIsEvent(s, e);
    JamStays(s.m, EventOf(s, e), w);
  }

  /** The exact condition for a client: it can get on, in some course of events in which no
      context ends, if and only if no acquire is inside the full pool its next step needs. */
  lemma GetsOnExactlyWhen(s: System, x: ClientId, c: CallId, db: DbOutcome)
    requires SysInv(s) && x < |s.clients| && c !in s.m.calls && Going(s.clients[x])
    ensures (exists es :: AllPatient(es) && GotOn(s, Moves(s, es), x)) <==>
            !(Needs(s, x).Some? && Jammed(s.m, Needs(s, x).value))
  {
    hide SysInv, GotOn, Moves, Jammed, Needs, Going;
    if Needs(s, x).Some? && Jammed(s.m, Needs(s, x).value) {
      forall es | AllPatient(es) ensures !GotOn(s, Moves(s, es), x) {
        JammedClientStays(s, es, x, Needs(s, x).value);
      }
    } else {
      NeverStuck(s, x, c, db);
      WayOnIsPatient(s, x, c, db);
    }
  }
}
