/** From the bytes a client sends to the answers it reads, through its proxy, the handler, the
    pools and its own database connection, whatever the other clients do meanwhile. */
module EndToEnd {
  import opened ByteStrings
  import opened Http
  import opened MessageTypes
  import opened Pools
  import opened HandlerState
  import opened Interleaving
  import opened Ownership
  import opened Clients
  import opened PrivateConnections
  import Isolation
  import Wire
  import Packets
  import MySqlProxy
  import MySqlClient
  import MySqlAnswers
  import My = MySqlConversation
  import PgProxy
  import Pg = PgConversation
  import PgForwarding
  import Sql = SqlText

  // ---------- what a client that has left was given ----------

  /** The replies made of some statements. */
  function RepliesOf(ran: seq<Statement>): (r: seq<HttpReply>)
    ensures |r| == |ran| && forall i :: 0 <= i < |r| ==> r[i] == Replied(ran[i].response)
  {
    seq(|ran|, i requires 0 <= i < |ran| => Replied(ran[i].response))
  }

  /** The statements run for the session of a client. */
  function RanBy(m: Machine, cl: Client): seq<Statement> {
    match NameOf(m, cl)
    case None => []
    case Some(id) => RanFor(m.g.h.ran, id)
  }

  /** The requests answered so far ran what they should, and were answered with it. */
  ghost predicate Served(m: Machine, cl: Client) {
    var answers := AnswersTo(m, cl);
    var log := Entries(RanBy(m, cl));
    && |answers| <= |cl.sent| && cl.got <= answers
    && EntryTexts(log) == TextsRun(cl.sent[..|answers|])
    && forall i :: 0 <= i < |answers| ==> IsDue(cl.sent[..|answers|], i, log, answers[i])
  }

  lemma ExplainedIsServed(m: Machine, cl: Client, dbs: seq<DbOutcome>)
    requires Explained(m, cl, dbs) && (NameOf(m, cl) == None ==> AnswersTo(m, cl) == [])
    ensures Served(m, cl)
  {
    PrivateIs(cl.sent[..|dbs|], dbs);
    hide RanFor, IsDue, NameOf, HState.Cached, ServesAll;
  }

  lemma NamelessIsUnanswered(s: System, x: ClientId)
    requires SysInv(s) && x < |s.clients| && NameOf(s.m, s.clients[x]) == None
    ensures AnswersTo(s.m, s.clients[x]) == []
  {
    hide Inv, CallersOk, DistinctNames;
    assert SentOk(s.clients[x]) && PhaseOk(s.m, s.clients[x]);
  }

  lemma SentIsWanted(s: System, x: ClientId)
    requires SysInv(s) && x < |s.clients|
    ensures SentOk(s.clients[x])
  {
    hide Inv, CallersOk, DistinctNames, SentOk;
  }

  /** In every reachable state, every client has sent only what its loop asks for, and what
      was run for it and answered to it is due to its own requests, in order. */
  lemma EveryClientIsServed(pgCapacity: Option<nat>, hasMy: bool, myCapacity: Option<nat>, programs: seq<Program>,
                            es: seq<Happening>, x: ClientId)
    requires x < |programs|
    ensures var n := Moves(Begin(pgCapacity, hasMy, myCapacity, programs), es);
            && x < |n.clients| && n.clients[x].program == programs[x]
            && SentOk(n.clients[x]) && Served(n.m, n.clients[x]) && HasItsOwn(n.m, n.clients[x])
  {
    hide *;
    RunFromBegin(pgCapacity, hasMy, myCapacity, programs, es, x);
    var n := Moves(Begin(pgCapacity, hasMy, myCapacity, programs), es);
    RunOwns(n, x);
    SentIsWanted(n, x);
    if NameOf(n.m, n.clients[x]) == None {
      NamelessIsUnanswered(n, x);
    }
    var dbs :| Explained(n.m, n.clients[x], dbs);
    ExplainedIsServed(n.m, n.clients[x], dbs);
  }

  lemma LeftOwns(m: Machine, cl: Client)
    requires HasItsOwn(m, cl) && cl.phase.Left?
    ensures exists k :: IsItsOwn(m.g, cl.phase.id, cl.program.Home(), k) && GivenBack(m.g, k)
  {
    hide IsItsOwn;
  }

  lemma LostHolds(m: Machine, cl: Client)
    requires HasItsOwn(m, cl) && cl.phase.Lost?
    ensures exists k :: IsItsOwn(m.g, cl.phase.id, cl.program.Home(), k) && Holds(m.g, cl.phase.id, k)
  {
    hide IsItsOwn;
  }

  /** A client that was given a session but broke before its loop stays as it is, whatever
      happens, and holds its connection for good. */
  lemma LostHoldsForGood(pgCapacity: Option<nat>, hasMy: bool, myCapacity: Option<nat>, programs: seq<Program>,
                         es: seq<Happening>, more: seq<Happening>, x: ClientId)
    requires x < |programs|
    ensures var n := Moves(Begin(pgCapacity, hasMy, myCapacity, programs), es);
            var later := Moves(n, more);
            x < |n.clients| && (n.clients[x].phase.Lost? ==>
              && x < |later.clients| && later.clients[x] == n.clients[x]
              && exists k :: IsItsOwn(later.m.g, n.clients[x].phase.id, n.clients[x].program.Home(), k)
                             && Holds(later.m.g, n.clients[x].phase.id, k))
  {
    hide *;
    var s := Begin(pgCapacity, hasMy, myCapacity, programs);
    EveryClientIsServed(pgCapacity, hasMy, myCapacity, programs, es, x);
    EveryClientIsServed(pgCapacity, hasMy, myCapacity, programs, es + more, x);
    MovesConcat(s, es, more);
    var n := Moves(s, es);
    if n.clients[x].phase.Lost? {
      LostStays(n, more, x);
      LostHolds(Moves(n, more).m, n.clients[x]);
    }
  }

  lemma {:induction false} LostStays(s: System, es: seq<Happening>, x: ClientId)
    requires x < |s.clients| && s.clients[x].phase.Lost?
    ensures x < |Moves(s, es).clients| && Moves(s, es).clients[x] == s.clients[x]
    decreases |es|
  {
    if es != [] {
      LostStep(s, es[0], x);
      hide Move;
      LostStays(Move(s, es[0]), es[1..], x);
    }
  }

  lemma LostStep(s: System, e: Happening, x: ClientId)
    requires x < |s.clients| && s.clients[x].phase.Lost?
    ensures x < |Move(s, e).clients| && Move(s, e).clients[x] == s.clients[x]
  {
    hide Apply, Program.Wants;
  }

  // ---------- MySQL ----------

  lemma {:induction false} QueriesRunThemselves(asks: seq<Ask>)
    requires forall i :: 0 <= i < |asks| ==> asks[i].kind == MySqlProxy.COM_QUERY
    ensures |TextsRun(asks)| == |asks| && forall i :: 0 <= i < |asks| ==> TextsRun(asks)[i] == asks[i].sql
  {
    if asks != [] {
      QueriesRunThemselves(asks[..|asks| - 1]);
    }
  }

  lemma QueryIsDue(asks: seq<Ask>, i: nat, log: seq<Entry>, reply: HttpReply)
    requires forall k :: 0 <= k < |asks| ==> asks[k].kind == MySqlProxy.COM_QUERY
    requires i < |asks| && IsDue(asks, i, log, reply)
    ensures i < |log| && log[i].sql == asks[i].sql && reply == Replied(log[i].response)
  {
    QueriesRunThemselves(asks[..i]);
    hide TextsRun;
  }

  /** What a MySQL connection runs on its database connection is a prefix of its own COM_QUERY
      texts, in order, and all of them once it has left; the k-th reply is that of the k-th. */
  lemma MySqlRunsItsQueries(m: Machine, cl: Client)
    requires cl.program.MySqlLoop? && SentOk(cl) && Served(m, cl)
    ensures var texts := My.QueryTexts(My.Served(Wire.ReadAll(cl.program.input).0));
            var ran := RanBy(m, cl);
            && |ran| <= |texts| && Isolation.Texts(ran) == texts[..|ran|]
            && cl.got <= RepliesOf(ran)
            && (cl.phase.Left? ==> Isolation.Texts(ran) == texts && cl.got == RepliesOf(ran))
  {
    hide RanBy, My.QueryTexts, My.Served, Wire.ReadAll, IsDue, TextsRun, HState.Cached;
    var answers := AnswersTo(m, cl);
    var asks := cl.sent[..|answers|];
    var ran := RanBy(m, cl);
    QueriesRunThemselves(asks);
    assert |EntryTexts(Entries(ran))| == |ran|;
    forall i | 0 <= i < |asks| ensures ran[i].sql == asks[i].sql && answers[i] == Replied(ran[i].response) {
      assert IsDue(asks, i, Entries(ran), answers[i]);
      QueryIsDue(asks, i, Entries(ran), answers[i]);
    }
    hide IsDue, TextsRun, SentOk, Served;
    assert answers == RepliesOf(ran);
    assert Isolation.Texts(ran) == My.QueryTexts(My.Served(Wire.ReadAll(cl.program.input).0))[..|ran|];
  }

  /** What the proxy writes back when it gets these replies reads as the meant answers. */
  lemma LoopReads(input: bytes, id: SessionId, replies: seq<HttpReply>)
    requires var served := My.Served(Wire.ReadAll(input).0); My.AllAnswerable(served, My.Outcomes(served, replies))
    ensures var served := My.Served(Wire.ReadAll(input).0);
            var end := MySqlProxy.Commands(MySqlProxy.State(input, Wire.Link([], None), replies, []), id);
            && end.calls == My.QueryCalls(id, My.QueryTexts(served))
            && My.ReadConversation(end.link.out, served) == Some(My.AllMeant(served, My.Outcomes(served, replies)))
  {
    hide MySqlProxy.Commands, My.AllAnswerable, My.AllMeant, My.ReadConversation, My.QueryTexts, My.Served,
         Wire.ReadAll;
    My.CommandLoopIs(MySqlProxy.State(input, Wire.Link([], None), replies, []), id);
    var served := My.Served(Wire.ReadAll(input).0);
    var outcomes := My.Outcomes(served, replies);
    My.ConversationRoundTrip(served, outcomes);
    assert [] + My.Answers(served, outcomes) == My.Answers(served, outcomes);
    assert [] + My.QueryCalls(id, My.QueryTexts(served)) == My.QueryCalls(id, My.QueryTexts(served));
  }

  /** End to end for MySQL: any number of connections of both kinds, in any interleaving. When
      one has left, its session ran exactly its COM_QUERY texts, in order; only they were run
      on its database connection, which was given back; and on a healthy link its client has read one answer per
      command, each with the meant content, made of the responses of those very statements
      (if they can be answered: the packets fit and the rows are as wide as the columns). One
      that was lost before its loop still holds its connection. */
  lemma MySqlEndToEnd(pgCapacity: Option<nat>, hasMy: bool, myCapacity: Option<nat>, programs: seq<Program>,
                      es: seq<Happening>, x: ClientId)
    requires x < |programs| && programs[x].MySqlLoop?
    ensures var n := Moves(Begin(pgCapacity, hasMy, myCapacity, programs), es);
            x < |n.clients| &&
            (n.clients[x].phase.Lost? ==>
               var id := n.clients[x].phase.id; exists k :: IsItsOwn(n.m.g, id, MY, k) && Holds(n.m.g, id, k)) &&
            (n.clients[x].phase.Left? ==>
               var input, id := programs[x].input, n.clients[x].phase.id;
               var served := My.Served(Wire.ReadAll(input).0);
               var ran := RanFor(n.m.g.h.ran, id);
               var end := MySqlProxy.Commands(MySqlProxy.State(input, Wire.Link([], None), n.clients[x].got, []), id);
               var outcomes := My.Outcomes(served, RepliesOf(ran));
               && Isolation.Texts(ran) == My.QueryTexts(served)
               && (exists k :: IsItsOwn(n.m.g, id, MY, k) && GivenBack(n.m.g, k))
               && end.calls == My.QueryCalls(id, My.QueryTexts(served))
               && (My.AllAnswerable(served, outcomes) ==>
                     My.ReadConversation(end.link.out, served) == Some(My.AllMeant(served, outcomes))))
  {
    hide Begin, Moves, SentOk, Served, RanFor, IsItsOwn, HasItsOwn, Holds, GivenBack, My.AllAnswerable,
         My.Served, My.QueryTexts, Wire.ReadAll, MySqlProxy.Commands, My.ReadConversation, My.AllMeant,
         My.QueryCalls, My.Outcomes;
    EveryClientIsServed(pgCapacity, hasMy, myCapacity, programs, es, x);
    var n := Moves(Begin(pgCapacity, hasMy, myCapacity, programs), es);
    var cl := n.clients[x];
    if cl.phase.Lost? {
      LostHolds(n.m, cl);
    }
    if cl.phase.Left? {
      MySqlRunsItsQueries(n.m, cl);
      LeftOwns(n.m, cl);
      LoopAsks(programs[x].input, cl.phase.id, cl.got);
      var served := My.Served(Wire.ReadAll(programs[x].input).0);
      if My.AllAnswerable(served, My.Outcomes(served, cl.got)) {
        LoopReads(programs[x].input, cl.phase.id, cl.got);
      }
    }
  }

  lemma LoopAsks(input: bytes, id: SessionId, replies: seq<HttpReply>)
    ensures MySqlProxy.Commands(MySqlProxy.State(input, Wire.Link([], None), replies, []), id).calls ==
            My.QueryCalls(id, My.QueryTexts(My.Served(Wire.ReadAll(input).0)))
  {
    hide MySqlProxy.Commands, My.QueryTexts, My.Served, Wire.ReadAll;
    My.CommandLoopIs(MySqlProxy.State(input, Wire.Link([], None), replies, []), id);
    var calls := My.QueryCalls(id, My.QueryTexts(My.Served(Wire.ReadAll(input).0)));
    assert [] + calls == calls;
  }

  // ---------- PostgreSQL ----------

  lemma {:induction false} OutcomesAre(incoming: seq<PgProxy.Incoming>, got: seq<HttpReply>, flushes: Option<nat>,
                                       i: nat)
    requires i < |Pg.Exchanges(incoming, got, flushes)| && i < |got|
    ensures Pg.Exchanges(incoming, got, flushes)[i].outcome == got[i]
    decreases |incoming|
  {
    hide PgProxy.GoesOn, Pg.Parser.Extracted;
    if incoming[0].Silent? {
      OutcomesAre(incoming[1..], got, flushes, i);
    } else if i > 0 {
      var x := PgProxy.Exchange(incoming[0].kind, Pg.Parser.Extracted(incoming[0].kind, incoming[0].payload),
                                incoming[0].payload, got[0]);
      OutcomesAre(incoming[1..], got[1..], if Pg.Answered(x) then PgProxy.Spend(flushes) else flushes, i - 1);
    }
  }

  lemma {:induction false} AllAnswered(xs: seq<PgProxy.Exchange>)
    requires forall i :: 0 <= i < |xs| ==> Pg.Answered(xs[i])
    ensures Pg.AnsweredOnes(xs) == xs
  {
    hide Pg.Answered;
    if xs != [] {
      AllAnswered(xs[1..]);
    }
  }

  /** A PostgreSQL connection that has left: its requests are its forwarded messages. */
  lemma PgIsServed(m: Machine, cl: Client)
    requires cl.program.PgLoop? && cl.phase.Left? && SentOk(cl) && Served(m, cl)
    ensures var xs := Pg.Exchanges(cl.program.incoming, cl.got, cl.program.flushes);
            var ran := RanFor(m.g.h.ran, cl.phase.id);
            && |xs| == |cl.got| && Isolation.Texts(ran) == TextsRun(Forwards(xs))
            && forall i :: 0 <= i < |xs| ==>
                 Pg.Answered(xs[i]) && xs[i].outcome == cl.got[i] && IsDue(Forwards(xs), i, Entries(ran), cl.got[i])
  {
    hide RanFor, Pg.Exchanges, IsDue, TextsRun;
    var xs := Pg.Exchanges(cl.program.incoming, cl.got, cl.program.flushes);
    var ran := RanFor(m.g.h.ran, cl.phase.id);
    assert cl.got + [] == cl.got;
    assert cl.sent == Forwards(xs) && cl.sent[..|cl.got|] == Forwards(xs);
    assert EntryTexts(Entries(ran)) == Isolation.Texts(ran);
    forall i | 0 <= i < |xs| ensures Pg.Answered(xs[i]) && xs[i].outcome == cl.got[i] {
      OutcomesAre(cl.program.incoming, cl.got, cl.program.flushes, i);
      DueIsDecodable(Forwards(xs), i, Entries(ran), cl.got[i]);
    }
  }

  lemma DueIsDecodable(asks: seq<Ask>, i: nat, log: seq<Entry>, reply: HttpReply)
    requires i < |asks| && IsDue(asks, i, log, reply)
    ensures !reply.BadJson?
  {
  }

  lemma PgReads(incoming: seq<PgProxy.Incoming>, got: seq<HttpReply>, id: SessionId)
    requires var xs := Pg.Exchanges(incoming, got, None); forall i :: 0 <= i < |xs| ==> Pg.Answered(xs[i])
    ensures var xs := Pg.Exchanges(incoming, got, None);
            Pg.ReadSession(Pg.Kinds(xs), PgProxy.Messages(PgProxy.State(incoming, [], None, got, []), id).delivered)
            == Some(Pg.AllMeant(xs))
  {
    hide Pg.Answered, Pg.Exchanges, PgProxy.Messages, Pg.ReadSession, Pg.Meant;
    Pg.ConversationGrammar(PgProxy.State(incoming, [], None, got, []), id);
    AllAnswered(Pg.Exchanges(incoming, got, None));
  }

  /** End to end for PostgreSQL: when a connection has left, the requests of its session were its
      messages before Terminate, in order, all of them unless a request failed, a reply could not be
      decoded or a batch without an error text could not be flushed; what was run for it is what they say (Execute:
      the latest Parse); every reply is the one due to its request; and on a healthy link the
      client has read one batch per message, each with the meant content. Its database connection
      was given back; that of a client lost before its loop is still held. */
  lemma PgEndToEnd(pgCapacity: Option<nat>, hasMy: bool, myCapacity: Option<nat>, programs: seq<Program>,
                   es: seq<Happening>, x: ClientId)
    requires x < |programs| && programs[x].PgLoop?
    ensures var n := Moves(Begin(pgCapacity, hasMy, myCapacity, programs), es);
            x < |n.clients| &&
            (n.clients[x].phase.Lost? ==>
               var id := n.clients[x].phase.id; exists k :: IsItsOwn(n.m.g, id, PG, k) && Holds(n.m.g, id, k)) &&
            (n.clients[x].phase.Left? ==>
               var (incoming, flushes) := (programs[x].incoming, programs[x].flushes);
               var (id, got) := (n.clients[x].phase.id, n.clients[x].got);
               var xs := Pg.Exchanges(incoming, got, flushes);
               var ran := RanFor(n.m.g.h.ran, id);
               var sent := PgForwarding.Forwardable(incoming);
               && |xs| == |got| && |xs| <= |sent| && PgForwarding.SentOf(xs) == sent[..|xs|]
               && (PgForwarding.SentOf(xs) == sent <==>
                     forall k :: 0 <= k < |sent| - 1 ==> !PgForwarding.EndsWith(got, flushes, k))
               && Isolation.Texts(ran) == TextsRun(Forwards(xs))
               && (exists k :: IsItsOwn(n.m.g, id, PG, k) && GivenBack(n.m.g, k))
               && (forall i :: 0 <= i < |xs| ==>
                     Pg.Answered(xs[i]) && xs[i].outcome == got[i] && IsDue(Forwards(xs), i, Entries(ran), got[i]))
               && (flushes == None ==>
                     Pg.ReadSession(Pg.Kinds(xs),
                       PgProxy.Messages(PgProxy.State(incoming, [], None, got, []), id).delivered)
                     == Some(Pg.AllMeant(xs))))
  {
    hide Begin, Moves, RanFor, IsItsOwn, HasItsOwn, Holds, GivenBack, PgProxy.Messages, Pg.ReadSession, IsDue,
         Pg.Exchanges, TextsRun, Pg.Meant, PgForwarding.Forwardable, PgForwarding.EndsWith;
    EveryClientIsServed(pgCapacity, hasMy, myCapacity, programs, es, x);
    var n := Moves(Begin(pgCapacity, hasMy, myCapacity, programs), es);
    var cl := n.clients[x];
    if cl.phase.Lost? {
      LostHolds(n.m, cl);
    }
    if cl.phase.Left? {
      PgIsServed(n.m, cl);
      LeftOwns(n.m, cl);
      PgForwarding.AllForwardedExactlyWhen(programs[x].incoming, cl.got, programs[x].flushes);
      if programs[x].flushes == None {
        PgReads(programs[x].incoming, cl.got, cl.phase.id);
      }
    }
  }

  // ---------- cells ----------

  /** No database value is the very text both pools put in place of a null. */
  ghost predicate NoNullText(rows: seq<seq<Option<bytes>>>) {
    forall r, c :: 0 <= r < |rows| && 0 <= c < |rows[r]| ==> rows[r][c] != Some(NULL_TEXT)
  }

  function AsCell(v: Option<bytes>): MySqlClient.Cell {
    match v
    case None => MySqlClient.Null
    case Some(text) => MySqlClient.Text(text)
  }

  function AsCells(row: seq<Option<bytes>>): (r: seq<MySqlClient.Cell>)
    ensures |r| == |row|
  {
    seq(|row|, i requires 0 <= i < |row| => AsCell(row[i]))
  }

  function AsTable(rows: seq<seq<Option<bytes>>>): (r: seq<seq<MySqlClient.Cell>>)
    ensures |r| == |rows|
  {
    seq(|rows|, i requires 0 <= i < |rows| => AsCells(rows[i]))
  }

  /** The table a MySQL client is shown for a result with columns is the database's own, nulls
      included, if and only if the statement runs as a query (commands drop their rows) and no
      value is the text NULL. */
  lemma MySqlTableArrivesExactly(sql: bytes, columns: seq<bytes>, rows: seq<seq<Option<bytes>>>, affected: int64)
    requires columns != []
    ensures var response := Respond(sql, DbDone(columns, rows, affected));
            MySqlAnswers.Shown(response, sql) == MySqlClient.Table(MySqlAnswers.InfosOf(columns), AsTable(rows))
            <==> !IsCommand(Sql.CommandWord(sql)) && NoNullText(rows)
  {
    hide IsCommand, Sql.CommandWord, MySqlAnswers.InfosOf, Packets.OkInfo;
    var shown, meant := MySqlAnswers.TableOf(RowsText(rows)), AsTable(rows);
    assert forall r, c :: 0 <= r < |rows| && 0 <= c < |rows[r]| ==>
      (shown[r][c] == meant[r][c] <==> rows[r][c] != Some(NULL_TEXT));
    if NoNullText(rows) {
      forall r | 0 <= r < |rows| ensures shown[r] == meant[r] {
        assert forall c :: 0 <= c < |rows[r]| ==> shown[r][c] == meant[r][c];
      }
      assert shown == meant;
    }
  }

  /** So are the columns and rows a PostgreSQL client gets. */
  lemma PgTableArrivesExactly(x: PgProxy.Exchange, sql: bytes, columns: seq<bytes>, rows: seq<seq<Option<bytes>>>,
                              affected: int64)
    requires x.outcome == Replied(Respond(sql, DbDone(columns, rows, affected))) && columns != []
    requires x.kind !in {PARSE, BIND, SYNC, DESCRIBE}
    ensures Pg.Meant(x).Result?
    ensures Pg.Meant(x).columns == Pg.Columns(columns) && Pg.Meant(x).rows == rows
            <==> !IsCommand(Sql.CommandWord(sql)) && NoNullText(rows)
  {
    hide IsCommand, Sql.CommandWord, Sql.PgTag;
    var shown := Pg.CellTable(RowsText(rows));
    assert forall r, c :: 0 <= r < |rows| && 0 <= c < |rows[r]| ==>
      (shown[r][c] == rows[r][c] <==> rows[r][c] != Some(NULL_TEXT));
    if NoNullText(rows) {
      forall r | 0 <= r < |rows| ensures shown[r] == rows[r] {
        assert forall c :: 0 <= c < |rows[r]| ==> shown[r][c] == rows[r][c];
      }
    }
  }

  // ---------- affected rows ----------

  /** A MySQL client is told the number of rows a statement affected if and only if the statement
      runs as a command, or there were none (and no columns, which make the answer a table). */
  lemma MySqlCountArrivesExactly(sql: bytes, columns: seq<bytes>, rows: seq<seq<Option<bytes>>>, affected: int64)
    ensures var shown := MySqlAnswers.Shown(Respond(sql, DbDone(columns, rows, affected)), sql);
            (shown.Done? && shown.affected == ToUint64(affected))
            <==> IsCommand(Sql.CommandWord(sql)) || (columns == [] && affected == 0)
  {
    hide IsCommand, Sql.CommandWord, Packets.OkInfo, MySqlAnswers.InfosOf, MySqlAnswers.TableOf, RowsText;
  }

  /** And where its command runs as one, the numbers in the info are that count. */
  lemma MySqlInfoCounts(sql: bytes, columns: seq<bytes>, rows: seq<seq<Option<bytes>>>, affected: int64)
    requires IsCommand(Sql.CommandWord(sql)) && affected >= 0
    ensures var shown := MySqlAnswers.Shown(Respond(sql, DbDone(columns, rows, affected)), sql);
            shown.Done? && Sql.InfoNumbers(shown.info) == Sql.InfoOf(Sql.CommandWord(sql), affected)
  {
    hide IsCommand, Sql.CommandWord, Sql.MySqlTag, Sql.InfoNumbers, Sql.InfoOf;
    Sql.MySqlTagNumbers(sql, affected);
  }

  /** What makes a PostgreSQL client read a count of affected rows in the tag: with rows affected,
      a command other than CREATE, ALTER and DROP; with none, one of the six statements whose tag
      always has a count; or a number that is in the tag anyway. */
  predicate PgTellsCount(sql: bytes, numRows: nat, affected: nat) {
    var word := Sql.CommandWord(sql);
    || (if affected > 0 then IsCommand(word) && !Sql.IsDdl(word) else Sql.AlwaysCounts(word))
    || Sql.OwnNumber(sql, numRows) == Some(affected)
  }

  /** The number a PostgreSQL client reads in the tag of a statement is the affected count exactly
      under that condition, for every statement and every result. */
  lemma PgCountArrivesExactly(x: PgProxy.Exchange, columns: seq<bytes>, rows: seq<seq<Option<bytes>>>, affected: int64)
    requires x.outcome == Replied(Respond(x.sql, DbDone(columns, rows, affected))) && affected >= 0
    requires x.kind !in {PARSE, BIND, SYNC, DESCRIBE}
    ensures Pg.Meant(x).Result?
    ensures Sql.TagCount(Pg.Meant(x).tag) == Some(affected) <==> PgTellsCount(x.sql, |rows|, affected)
  {
    hide IsCommand, Sql.CommandWord, Sql.PgTag, Sql.TagCount, Sql.CountsAffected, Sql.CountsRows, Sql.IsDdl,
         Pg.CellTable, Sql.AlwaysCounts, Sql.Words, ReadDigits;
    var response := x.outcome.response;
    var word := Sql.CommandWord(x.sql);
    Sql.TagNumbers(x.sql, |response.rows|, response.rowsAffected);
    if IsCommand(word) {
      CommandsAreNotCountedByRows(word);
    }
    if Sql.AlwaysCounts(word) {
      Sql.CountedIsNoNumber(word);
    }
  }

  lemma CommandsAreNotCountedByRows(word: bytes)
    requires IsCommand(word)
    ensures !Sql.CountsRows(word)
  {
    hide Ascii;
    Sql.Letters();
    Sql.CountedLetters();
    Sql.DdlLetters();
    CommandLetters();
  }

  /** After an Execute, whose tag is made from an empty text: exactly if the statement it runs is a
      command and affects rows. */
  lemma PgExecuteCountArrivesExactly(x: PgProxy.Exchange, ran: bytes, columns: seq<bytes>,
                                     rows: seq<seq<Option<bytes>>>, affected: int64)
    requires x.outcome == Replied(Respond(ran, DbDone(columns, rows, affected))) && affected >= 0
    requires x.kind == EXECUTE && x.sql == Pg.Parser.Extracted(EXECUTE, x.raw)
    ensures Pg.Meant(x).Result?
    ensures Sql.TagCount(Pg.Meant(x).tag) == Some(affected) <==> IsCommand(Sql.CommandWord(ran)) && affected > 0
  {
    assert x.sql == [] && Sql.CommandWord([]) == [];
    assert !Sql.CountsRows([]) && !Sql.AlwaysCounts([]) && !Sql.IsDdl([]);
    assert ReadDigits([]) == None;
    hide IsCommand, Sql.CommandWord, Sql.PgTag, Sql.TagCount, Sql.CountsAffected, Sql.CountsRows, Sql.IsDdl,
         Pg.CellTable, Sql.AlwaysCounts, Sql.Words;
    var response := x.outcome.response;
    Sql.TagNumbers(x.sql, |response.rows|, response.rowsAffected);
  }
}
