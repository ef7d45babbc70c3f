/** When all calls return: under a schedule that gives every call its turns, and while new calls
    keep arriving. */
module Returns {
  import opened ByteStrings
  import opened Http
  import opened MessageTypes
  import opened Pools
  import opened HandlerState
  import opened Interleaving
  import opened Progress

  // ---------- fair schedules ----------

  /** The calls that have at least `k` steps left. */
  function AtLeast(calls: map<CallId, Call>, k: nat): set<CallId> {
    set c | c in calls && StepsLeft(calls[c]) >= k
  }

  /** All the steps that are left. */
  function Total(calls: map<CallId, Call>): nat {
    |AtLeast(calls, 1)| + |AtLeast(calls, 2)| + |AtLeast(calls, 3)| + |AtLeast(calls, 4)|
  }

  ghost predicate NoneBack(calls: map<CallId, Call>, later: map<CallId, Call>) {
    later.Keys == calls.Keys && forall c <- calls :: StepsLeft(later[c]) <= StepsLeft(calls[c])
  }

  lemma SubsetSize(a: set<CallId>, b: set<CallId>)
    requires a <= b
    ensures |a| <= |b| && (a != b ==> |a| < |b|)
  {
    assert b == a + (b - a);
    if a != b {
      var x :| x in b - a;
      assert b - a == {x} + (b - a - {x});
    }
  }

  lemma TotalFalls(calls: map<CallId, Call>, later: map<CallId, Call>)
    requires NoneBack(calls, later)
    ensures Total(later) <= Total(calls)
    ensures forall c <- calls :: StepsLeft(later[c]) < StepsLeft(calls[c]) ==> Total(later) < Total(calls)
  {
    hide StepsLeft;
    AtLeastFalls(calls, later, 1);
    AtLeastFalls(calls, later, 2);
    AtLeastFalls(calls, later, 3);
    AtLeastFalls(calls, later, 4);
    forall c | c in calls && StepsLeft(later[c]) < StepsLeft(calls[c]) ensures Total(later) < Total(calls) {
      StepsAreFew(calls[c]);
      var k := StepsLeft(calls[c]);
      assert c in AtLeast(calls, k) && c !in AtLeast(later, k);
    }
  }

  lemma AtLeastFalls(calls: map<CallId, Call>, later: map<CallId, Call>, k: nat)
    requires NoneBack(calls, later)
    ensures |AtLeast(later, k)| <= |AtLeast(calls, k)|
    ensures AtLeast(later, k) != AtLeast(calls, k) ==> |AtLeast(later, k)| < |AtLeast(calls, k)|
  {
    hide StepsLeft;
    SubsetSize(AtLeast(later, k), AtLeast(calls, k));
  }

  lemma StepsAreFew(call: Call)
    ensures StepsLeft(call) <= 4
  {
  }

  lemma TotalBound(calls: map<CallId, Call>)
    ensures Total(calls) <= 4 * |calls|
  {
    hide StepsLeft;
    SubsetSize(AtLeast(calls, 1), calls.Keys);
    SubsetSize(AtLeast(calls, 2), calls.Keys);
    SubsetSize(AtLeast(calls, 3), calls.Keys);
    SubsetSize(AtLeast(calls, 4), calls.Keys);
  }

  predicate AllReturned(calls: map<CallId, Call>) {
    forall c <- calls :: StepsLeft(calls[c]) == 0
  }

  lemma NothingLeft(calls: map<CallId, Call>)
    ensures Total(calls) == 0 ==> AllReturned(calls)
  {
    hide StepsLeft;
    if Total(calls) == 0 {
      forall c | c in calls ensures StepsLeft(calls[c]) == 0 {
        assert c !in AtLeast(calls, 1);
      }
    }
  }

  lemma WorkCounts(m: Machine, e: Event)
    requires e.Work?
    ensures NoneBack(m.calls, Apply(m, e).calls)
    ensures Apply(m, e) == m || Total(Apply(m, e).calls) < Total(m.calls)
  {
    hide Apply, StepsLeft, Total;
    forall c | c in m.calls ensures c in Apply(m, e).calls && StepsLeft(Apply(m, e).calls[c]) <= StepsLeft(m.calls[c]) {
      TurnCounts(m, e, c);
    }
    WorkAddsNone(m, e);
    TotalFalls(m.calls, Apply(m, e).calls);
    if e.c in m.calls {
      TurnCounts(m, e, e.c);
    }
  }

  lemma WorkAddsNone(m: Machine, e: Event)
    requires e.Work?
    ensures Apply(m, e).calls.Keys <= m.calls.Keys && (e.c !in m.calls ==> Apply(m, e) == m)
  {
    hide Step, Blocked, LocksAfter;
  }

  lemma {:induction false} WorksCount(m: Machine, es: seq<Event>)
    requires OnlyWork(es)
    ensures NoneBack(m.calls, Run(m, es).calls) && Total(Run(m, es).calls) <= Total(m.calls)
    decreases |es|
  {
    hide Apply, StepsLeft, Total;
    if es != [] {
      WorkCounts(m, es[0]);
      WorksCount(Apply(m, es[0]), es[1..]);
    }
  }

  /** A schedule that has a turn of a call that can move gets something done. */
  lemma {:induction false} TurnIsTaken(m: Machine, es: seq<Event>, d: CallId, i: nat)
    requires OnlyWork(es) && d in m.calls && i < |es| && es[i].c == d
    requires forall db ::
               && d in Apply(m, Work(d, true, db)).calls
               && StepsLeft(Apply(m, Work(d, true, db)).calls[d]) < StepsLeft(m.calls[d])
    ensures Total(Run(m, es).calls) < Total(m.calls)
    decreases |es|
  {
    hide Apply, StepsLeft, Total;
    var n := Apply(m, es[0]);
    WorkCounts(m, es[0]);
    if n == m {
      assert es[0] == Work(es[0].c, true, es[0].db);
      TurnIsTaken(m, es[1..], d, i - 1);
    } else {
      WorksCount(n, es[1..]);
    }
  }

  /** A round gives every call a turn. */
  ghost predicate IsRound(calls: map<CallId, Call>, es: seq<Event>) {
    OnlyWork(es) && forall c <- calls :: exists i :: 0 <= i < |es| && es[i].c == c
  }

  lemma RoundCounts(m: Machine, es: seq<Event>)
    requires Inv(m) && NoJam(m) && IsRound(m.calls, es)
    ensures AllReturned(m.calls) || Total(Run(m, es).calls) < Total(m.calls)
  {
    hide Inv, Apply, StepsLeft, Total, NoJam;
    if !AllReturned(m.calls) {
      var c :| c in m.calls && StepsLeft(m.calls[c]) != 0;
      var d := Ahead(m, c);
      forall db ensures d in m.calls && d in Apply(m, Work(d, true, db)).calls
                        && StepsLeft(Apply(m, Work(d, true, db)).calls[d]) < StepsLeft(m.calls[d]) {
        SomeCallMoves(m, c, db);
      }
      SomeCallMoves(m, c, DbFailed([]));
      var i :| 0 <= i < |es| && es[i].c == d;
      TurnIsTaken(m, es, d, i);
    }
  }

  function Flat(rounds: seq<seq<Event>>): seq<Event> {
    if rounds == [] then [] else rounds[0] + Flat(rounds[1..])
  }

  lemma {:induction false} FlatIsWork(calls: map<CallId, Call>, rounds: seq<seq<Event>>)
    requires forall r <- rounds :: IsRound(calls, r)
    ensures OnlyWork(Flat(rounds)) && AllPatient(Flat(rounds))
  {
    if rounds != [] {
      assert IsRound(calls, rounds[0]);
      FlatIsWork(calls, rounds[1..]);
    }
  }

  lemma ReturnedStays(calls: map<CallId, Call>, later: map<CallId, Call>)
    requires NoneBack(calls, later) && AllReturned(calls)
    ensures AllReturned(later)
  {
    hide StepsLeft;
  }

  lemma {:induction false} RoundsFinish(m: Machine, rounds: seq<seq<Event>>)
    requires Inv(m) && NoJam(m) && (forall r <- rounds :: IsRound(m.calls, r)) && |rounds| >= Total(m.calls)
    requires AlwaysRoom(m, Flat(rounds))
    ensures AllReturned(Run(m, Flat(rounds)).calls)
    decreases |rounds|
  {
    hide Inv, Apply, StepsLeft, Total, NoJam, AllReturned, AlwaysRoom, IsRound;
    NothingLeft(m.calls);
    FlatIsWork(m.calls, rounds);
    if AllReturned(m.calls) {
      WorksCount(m, Flat(rounds));
      ReturnedStays(m.calls, Run(m, Flat(rounds)).calls);
    } else {
      var r, more := rounds[0], rounds[1..];
      FlatIsWork(m.calls, [r]);
      assert [r][1..] == [] && r + [] == r && Flat([r]) == r + Flat([r][1..]);
      RunConcat(m, r, Flat(more));
      var n := Run(m, r);
      RoundCounts(m, r);
      RunKeepsInv(m, r);
      JamExactlyWhen(m, r);
      WorksCount(m, r);
      SameKeys(m.calls, n.calls, more);
      RoundsFinish(n, more);
    }
  }

  lemma SameKeys(calls: map<CallId, Call>, later: map<CallId, Call>, rounds: seq<seq<Event>>)
    requires later.Keys == calls.Keys && forall r <- rounds :: IsRound(calls, r)
    ensures forall r <- rounds :: IsRound(later, r)
  {
  }

  /** The exact condition under which every call returns. Take any state that can be reached
      and any schedule that gives each call in flight four turns for every call there is (in any
      order, with any other turns between); no context ends. Then all calls have returned if and
      only if no acquire was inside a full pool at the start and every acquire that took a lock
      found the map below the capacity. */
  lemma {:induction false} EveryCallReturnsExactlyWhen(m: Machine, rounds: seq<seq<Event>>)
    requires Inv(m) && (forall r <- rounds :: IsRound(m.calls, r)) && |rounds| >= 4 * |m.calls|
    ensures AllReturned(Run(m, Flat(rounds)).calls) <==> NoJam(m) && AlwaysRoom(m, Flat(rounds))
  {
    hide Inv, Run, StepsLeft, Total, AlwaysRoom, IsRound, Jammed;
    TotalBound(m.calls);
    FlatIsWork(m.calls, rounds);
    var n := Run(m, Flat(rounds));
    RunKeepsInv(m, Flat(rounds));
    if NoJam(m) && AlwaysRoom(m, Flat(rounds)) {
      RoundsFinish(m, rounds);
    } else {
      if NoJam(m) {
        JamExactlyWhen(m, Flat(rounds));
      } else {
        FullPoolStops(m, Flat(rounds), if Jammed(m, PG) then PG else MY);
      }
      JamIsUnfinished(n);
    }
  }

  lemma JamIsUnfinished(m: Machine)
    requires Inv(m) && !NoJam(m)
    ensures !AllReturned(m.calls)
  {
    hide Inv;
    var w := if Jammed(m, PG) then PG else MY;
    HolderIs(m, w);
  }

  // ---------- a call among calls that keep arriving ----------

  /** The turns of a call at which it is neither blocked nor inside a full pool. */
  function FreeTurns(m: Machine, es: seq<Event>, c: CallId): nat
    requires c in m.calls
    decreases |es|
  {
    if es == [] then 0
    else
      OthersKeep(m, es[0], c);
      (if es[0].Work? && es[0].c == c && !Blocked(m.locks, m.calls[c])
        && !(m.calls[c].Connecting? && Jammed(m, m.calls[c].w))
       then 1 else 0) + FreeTurns(Apply(m, es[0]), es[1..], c)
  }

  lemma OthersKeep(m: Machine, e: Event, c: CallId)
    requires c in m.calls
    ensures c in Apply(m, e).calls
  {
    hide Step, Blocked, LocksAfter;
  }

  /** With new calls arriving all the time, at most four turns that find the lock free bring a
      call to its return. */
  lemma {:induction false} FreeTurnsBringReturn(m: Machine, es: seq<Event>, c: CallId)
    requires Inv(m) && AllPatient(es) && c in m.calls && FreeTurns(m, es, c) >= StepsLeft(m.calls[c])
    ensures c in Run(m, es).calls && StepsLeft(Run(m, es).calls[c]) == 0
    decreases |es|
  {
    hide Inv, Apply, StepsLeft, Jammed, Blocked;
    if es != [] {
      var e := es[0];
      var n := Apply(m, e);
      assert Patient(e);
      TurnCounts(m, e, c);
      ApplyKeepsInv(m, e);
      if StepsLeft(m.calls[c]) > 0 && e.Work? && e.c == c && !Blocked(m.locks, m.calls[c])
         && !(m.calls[c].Connecting? && Jammed(m, m.calls[c].w)) {
        FreeMoves(m, c, e.db);
      }
      FreeTurnsBringReturn(n, es[1..], c);
    }
  }
}
