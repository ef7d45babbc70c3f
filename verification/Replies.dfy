/** What the clients of both proxies are told of a statement, from what the database made of it. */
module Replies {
  import opened ByteStrings
  import opened Http
  import opened Pools
  import opened HandlerState
  import opened Interleaving
  import opened Ownership
  import opened PrivateConnections
  import opened PgTags
  import Clients
  import EndToEnd
  import MySqlClient
  import MySqlAnswers
  import Packets
  import My = MySqlConversation
  import PgProxy
  import Pg = PgConversation
  import Sql = SqlText

  // ---------- commands and queries ----------

  /** The statements that are run as commands, by their first word. */
  predicate RunsAsCommand(word: bytes) {
    || word == Ascii("INSERT") || word == Ascii("UPDATE") || word == Ascii("DELETE") || word == Ascii("CREATE")
    || word == Ascii("ALTER") || word == Ascii("DROP") || word == Ascii("TRUNCATE") || word == Ascii("SET")
    || word == Ascii("BEGIN") || word == Ascii("COMMIT") || word == Ascii("ROLLBACK") || word == Ascii("GRANT")
    || word == Ascii("REVOKE") || word == Ascii("COPY") || word == Ascii("VACUUM")
  }

  lemma CommandWordsAre(word: bytes)
    ensures IsCommand(word) <==> RunsAsCommand(word)
  {
    hide Ascii;
  }

  // ---------- what there is to tell ----------

  /** The text of an error: the database's own, after what failed. None if the statement was done. */
  function ErrorText(word: bytes, db: DbOutcome): Option<bytes> {
    match db
    case DbDone(_, _, _) => None
    case DbFailed(text) => Some(Ascii(if RunsAsCommand(word) then "exec failed: " else "query failed: ") + text)
    case DbBrokeOff(step, text) =>
      if RunsAsCommand(word) then Some(Ascii("exec failed: ") + text)
      else
        match step
        case GetColumns => Some(Ascii("get columns: ") + text)
        case ScanRow => Some(Ascii("scan row: ") + text)
        case NextRow => Some(Ascii("rows iteration: ") + text)
  }

  /** A value as the client sees it: a null, and the text NULL, as a null. */
  function Visible(v: Option<bytes>): Option<bytes> {
    if v == Some(Ascii("NULL")) then None else v
  }

  function VisibleRows(rows: seq<seq<Option<bytes>>>): (r: seq<seq<Option<bytes>>>)
    ensures |r| == |rows|
    ensures forall i :: 0 <= i < |r| ==> |r[i]| == |rows[i]|
    ensures forall i, j :: 0 <= i < |r| && 0 <= j < |r[i]| ==> r[i][j] == Visible(rows[i][j])
  {
    seq(|rows|, i requires 0 <= i < |rows| =>
      seq(|rows[i]|, j requires 0 <= j < |rows[i]| => Visible(rows[i][j])))
  }

  const RECORDS: bytes := Ascii("Records: ")
  const NO_DUPLICATES: bytes := Ascii("  Duplicates: 0  Warnings: 0")
  const AFFECTED: bytes := Ascii("Affected rows: ")
  const MATCHED: bytes := Ascii("  Rows matched: ")
  const CHANGED: bytes := Ascii("  Changed: ")
  const NO_WARNINGS: bytes := Ascii("  Warnings: 0")

  /** The info of an OK packet, by the first word of the statement. */
  function InfoText(word: bytes, affected: int): bytes {
    var n := Decimal(affected);
    if word == Ascii("INSERT") then RECORDS + n + NO_DUPLICATES
    else if word == Ascii("UPDATE") || word == Ascii("DELETE") then
      AFFECTED + n + MATCHED + n + CHANGED + n + NO_WARNINGS
    else if affected > 0 then AFFECTED + n
    else []
  }

  function Unsigned(v: int64): uint64 {
    if v < 0 then v + 0x1_0000_0000_0000_0000 else v
  }

  /** What a MySQL client is told of a statement with this first word. */
  function MySqlTold(word: bytes, db: DbOutcome): MySqlClient.Answer {
    match ErrorText(word, db)
    case Some(text) => MySqlClient.Error(1064, Ascii("42000"), text)
    case None =>
      if RunsAsCommand(word) then MySqlClient.Done(Unsigned(db.affected), 0, 2, 0, InfoText(word, db.affected))
      else if db.columns == [] then MySqlClient.Done(0, 0, 2, 0, InfoText(word, 0))
      else MySqlClient.Table(MySqlAnswers.InfosOf(db.columns), EndToEnd.AsTable(VisibleRows(db.rows)))
  }

  /** The code of every error the PostgreSQL proxy sends. */
  const PROXY_CODE: bytes := Ascii("08000")

  /** What a PostgreSQL client is told, by a tag made of the text `tagged`. */
  function PgTold(word: bytes, db: DbOutcome, tagged: bytes): Pg.Answer {
    match ErrorText(word, db)
    case Some(text) => Pg.Failure(PROXY_CODE, text)
    case None =>
      if RunsAsCommand(word) then Pg.Result(None, [], Sql.PgTag(tagged, 0, db.affected))
      else
        Pg.Result(if db.columns == [] then None else Some(db.columns), VisibleRows(db.rows),
          Sql.PgTag(tagged, |db.rows|, 0))
  }

  // ---------- and that it is told ----------

  lemma ErrorOfRespond(sql: bytes, db: DbOutcome)
    ensures match ErrorText(Sql.CommandWord(sql), db)
            case Some(text) => text != [] && Respond(sql, db) == QueryResponse([], [], 0, text)
            case None =>
              db.DbDone? && Respond(sql, db) ==
              if RunsAsCommand(Sql.CommandWord(sql)) then QueryResponse([], [], db.affected, [])
              else QueryResponse(db.columns, RowsText(db.rows), 0, [])
  {
    hide Ascii, IsCommand, RunsAsCommand, Sql.CommandWord, RowsText;
    CommandWordsAre(Sql.CommandWord(sql));
  }

  lemma CellsAreVisible(rows: seq<seq<Option<bytes>>>)
    ensures Pg.CellTable(RowsText(rows)) == VisibleRows(rows)
    ensures MySqlAnswers.TableOf(RowsText(rows)) == EndToEnd.AsTable(VisibleRows(rows))
  {
    NullIs();
    hide Ascii;
    forall i | 0 <= i < |rows|
      ensures Pg.CellTable(RowsText(rows))[i] == VisibleRows(rows)[i]
      ensures MySqlAnswers.TableOf(RowsText(rows))[i] == EndToEnd.AsTable(VisibleRows(rows))[i]
    {
      var texts := RowText(rows[i]);
      assert RowsText(rows)[i] == texts;
      assert forall j :: 0 <= j < |texts| ==> PgProxy.CellsOf(texts)[j] == VisibleRows(rows)[i][j];
      assert PgProxy.CellsOf(texts) == VisibleRows(rows)[i];
      assert MySqlAnswers.TableOf(RowsText(rows))[i] == MySqlClient.CellsOf(texts);
    }
  }

  lemma NullIs()
    ensures NULL_TEXT == Ascii("NULL")
  {
  }

  lemma InfoIs(sql: bytes, affected: int64)
    ensures Packets.OkInfo(sql, affected) == InfoText(Sql.CommandWord(sql), affected)
  {
    hide Ascii, Decimal, Sql.CommandWord;
  }

  /** A MySQL client is told an error if and only if the database refused the statement or broke off,
      with the database's own text; else the count of a command, or the columns and rows of a query. */
  lemma MySqlIsTold(sql: bytes, db: DbOutcome)
    ensures My.Meant([0x03] + sql, Replied(Respond(sql, db))) == MySqlTold(Sql.CommandWord(sql), db)
    ensures My.Meant([0x03] + sql, Replied(Respond(sql, db))).Error? <==> !db.DbDone?
  {
    hide Ascii, Sql.CommandWord, Respond, RunsAsCommand, MySqlAnswers.InfosOf, Packets.OkInfo, InfoText, RowsText,
         VisibleRows, EndToEnd.AsTable, MySqlAnswers.TableOf;
    assert ([0x03] + sql)[1..] == sql;
    ErrorOfRespond(sql, db);
    if db.DbDone? {
      InfoIs(sql, db.affected);
      InfoIs(sql, 0);
      CellsAreVisible(db.rows);
    }
  }

  /** So is a PostgreSQL client, after every message that runs a statement. */
  lemma PgIsTold(x: PgProxy.Exchange, ran: bytes, db: DbOutcome)
    requires x.outcome == Replied(Respond(ran, db)) && x.kind !in {0x50, 0x42, 0x44, 0x53}
    ensures Pg.Meant(x) == PgTold(Sql.CommandWord(ran), db, x.sql)
    ensures Pg.Meant(x).Failure? <==> !db.DbDone?
  {
    hide Ascii, Sql.CommandWord, Respond, RunsAsCommand, Sql.PgTag, RowsText, VisibleRows, Pg.CellTable;
    ErrorOfRespond(ran, db);
    if db.DbDone? {
      CellsAreVisible(db.rows);
      NoCells();
    }
  }

  lemma NoCells()
    ensures Pg.CellTable([]) == []
  {
  }

  /** After a command that affected rows, the count is the last word of the tag. */
  lemma CommandShowsItsCount(x: PgProxy.Exchange, space: bytes, word: bytes, rest: bytes, columns: seq<bytes>,
                             rows: seq<seq<Option<bytes>>>, affected: int64)
    requires IsCut(space, word, rest) && x.sql == space + word + rest
    requires x.outcome == Replied(Respond(x.sql, DbDone(columns, rows, affected)))
    requires x.kind !in {0x50, 0x42, 0x44, 0x53}
    requires RunsAsCommand(word) && !Defines(word) && affected > 0
    ensures Pg.Meant(x).Result? && Pg.Meant(x).columns == None && Pg.Meant(x).rows == []
    ensures Pieces(Pg.Meant(x).tag) ==
            if word == Ascii("INSERT") then [word, [0x30], Decimal(affected)] else [word, Decimal(affected)]
  {
    hide Ascii, Sql.CommandWord, Respond, RunsAsCommand, Sql.PgTag, Pieces, Decimal, Sql.Widen, Defines, IsCut,
         Pg.Meant;
    PgIsTold(x, x.sql, DbDone(columns, rows, affected));
    CutWord(space, word, rest);
    TagIs(space, word, rest, 0, affected);
    CommandsAreAscii(word);
  }

  lemma CommandsAreAscii(word: bytes)
    requires RunsAsCommand(word)
    ensures Sql.Widen(word) == word && !ShowsRows(word)
  {
    hide Sql.Widen, Sql.IsAscii, Ascii;
    CommandWordsAre(word);
    EndToEnd.CommandsAreNotCountedByRows(word);
    Sql.WordsAreAscii();
    if Sql.IsDdl(word) {
      Sql.DdlIsPlain(word);
    }
    OtherWordsAreAscii();
    Sql.WidenLength(word);
  }

  lemma OtherWordsAreAscii()
    ensures Sql.IsAscii(TRUNCATE) && Sql.IsAscii(SET) && Sql.IsAscii(BEGIN) && Sql.IsAscii(COMMIT)
    ensures Sql.IsAscii(ROLLBACK) && Sql.IsAscii(GRANT) && Sql.IsAscii(REVOKE) && Sql.IsAscii(VACUUM)
  {
  }

  // ---------- the server ----------

  /** The database of a session: that of its mapping, the PostgreSQL one if it has none. */
  function DatabaseOf(h: HState, id: SessionId): Which {
    if id in h.mapped && h.mapped[id] == MY then MY else PG
  }

  /** A live session's statement is run on its own connection to its own database, and is answered
      with what that made of it: a Query, a command of a MySQL client, and an Execute after a Parse. */
  lemma QueryIsTold(h: HState, id: SessionId, sql: bytes, db: DbOutcome)
    requires var p := if DatabaseOf(h, id) == MY then h.my else h.pg;
             id in p.sessions && p.sessions[id] !in p.backing.returned
    ensures var w := DatabaseOf(h, id);
            var lease := (if w == MY then h.my else h.pg).sessions[id];
            var run := h.(ran := h.ran + [Statement(w, lease, id, sql, Respond(sql, db))]);
            && HandleQuery(h, id, 0x51, sql, db) == HandleQuery(h, id, 0x03, sql, db)
            && HandleQuery(h, id, 0x51, sql, db) == (run, Replied(Respond(sql, db)))
            && (sql != [] ==>
                  HandleQuery(HandleQuery(h, id, 0x50, sql, db).0, id, 0x45, [], db) ==
                  (run.(stmts := h.stmts[id := sql]), Replied(Respond(sql, db))))
  {
    hide Respond;
  }

  /** A session without a connection is told so, and runs nothing. */
  lemma UnknownIsTold(h: HState, id: SessionId, sql: bytes, db: DbOutcome)
    requires id !in (if DatabaseOf(h, id) == MY then h.my else h.pg).sessions
    ensures HandleQuery(h, id, 0x51, sql, db) == HandleQuery(h, id, 0x03, sql, db) ==
            (h, Replied(QueryResponse([], [], 0, Ascii("session ") + id + Ascii(" not found"))))
  {
    hide Ascii;
  }

  /** After a close the session has no connection in its mapped pool, or in either if it had no
      mapping; the connections it had are given back and nothing else has changed. */
  lemma ClosedHoldsNothing(h: HState, id: SessionId)
    ensures var n := CloseSession(h, id);
            && id !in n.mapped && id !in n.stmts && n.ran == h.ran
            && (id !in h.mapped || h.mapped[id] == PG ==> IsGivenBack(h.pg, n.pg, id))
            && (id !in h.mapped || h.mapped[id] == MY ==> IsGivenBack(h.my, n.my, id))
            && (id in h.mapped && h.mapped[id] == PG ==> n.my == h.my)
            && (id in h.mapped && h.mapped[id] == MY ==> n.pg == h.pg)
  {
  }

  predicate IsGivenBack(was: PoolState, now: PoolState, id: SessionId) {
    && now.sessions.Keys == was.sessions.Keys - {id}
    && (forall other <- now.sessions :: now.sessions[other] == was.sessions[other])
    && now.backing.taken == was.backing.taken
    && now.backing.returned == was.backing.returned + if id in was.sessions then [was.sessions[id]] else []
  }

  const NO_PARSE: bytes := Ascii("no parsed statement found for session")

  /** The requests that run nothing: Parse, Bind, Describe and Sync, and an Execute without a Parse.
      The client reads an acknowledgement, no description, or the complaint of a missing Parse. */
  lemma IdleIsTold(asks: seq<Clients.Ask>, i: nat, log: seq<Clients.Entry>, x: PgProxy.Exchange)
    requires i < |asks| && IsDue(asks, i, log, x.outcome) && x.kind == asks[i].kind
    ensures x.kind == 0x50 || x.kind == 0x53 ==> Pg.Answered(x) && Pg.Meant(x) == Pg.Acknowledged
    ensures x.kind == 0x44 ==> Pg.Answered(x) && Pg.Meant(x) == Pg.Described(None)
    ensures x.kind == 0x42 ==>
              && Pg.Answered(x)
              && Pg.Meant(x) ==
                 if LatestParse(asks[..i]) != [] then Pg.Acknowledged
                 else Pg.Failure(PROXY_CODE, NO_PARSE)
    ensures x.kind == 0x45 && LatestParse(asks[..i]) == [] ==>
              && Pg.Answered(x)
              && Pg.Meant(x) == Pg.Failure(PROXY_CODE, Ascii("Query failed: ") + NO_PARSE)
  {
    hide Ascii, LatestParse;
    assert NO_STATEMENT != [];
  }

  // ---------- over a run ----------

  /** The database made `db` of a statement, and that is what the client is told, by either proxy. */
  ghost predicate IsTold(s: Statement, db: DbOutcome) {
    && My.Meant([0x03] + s.sql, Replied(s.response)) == MySqlTold(Sql.CommandWord(s.sql), db)
    && forall x: PgProxy.Exchange ::
         x.outcome == Replied(s.response) && x.kind !in {0x50, 0x42, 0x44, 0x53} ==>
           Pg.Meant(x) == PgTold(Sql.CommandWord(s.sql), db, x.sql)
  }

  lemma ResponseIsTold(s: Statement, db: DbOutcome)
    requires s.response == Respond(s.sql, db)
    ensures IsTold(s, db)
  {
    hide Respond, My.Meant, Pg.Meant, MySqlTold, PgTold, Sql.CommandWord;
    MySqlIsTold(s.sql, db);
    forall x: PgProxy.Exchange | x.outcome == Replied(s.response) && x.kind !in {0x50, 0x42, 0x44, 0x53}
      ensures Pg.Meant(x) == PgTold(Sql.CommandWord(s.sql), db, x.sql)
    {
      PgIsTold(x, s.sql, db);
    }
  }

  lemma {:induction false} LogIsAnswered(asks: seq<Clients.Ask>, dbs: seq<DbOutcome>)
    requires |asks| == |dbs|
    ensures forall e <- Clients.ServesAll(asks, dbs).log :: exists db <- dbs :: e.response == Respond(e.sql, db)
  {
    hide Respond, Failure, Nothing;
    if asks != [] {
      LogIsAnswered(asks[..|asks| - 1], dbs[..|asks| - 1]);
    }
  }

  /** Whatever the clients do and however their requests are interleaved: of every statement run for
      a client there is an outcome the database gave, and the answer made of it tells that outcome. */
  lemma EveryAnswerIsTold(pgCapacity: Option<nat>, hasMy: bool, myCapacity: Option<nat>, programs: seq<Clients.Program>,
                          es: seq<Clients.Happening>, x: Clients.ClientId)
    requires x < |programs|
    ensures var n := Clients.Moves(Clients.Begin(pgCapacity, hasMy, myCapacity, programs), es);
            && x < |n.clients|
            && forall s <- EndToEnd.RanBy(n.m, n.clients[x]) :: exists db :: IsTold(s, db)
  {
    hide *;
    RunFromBegin(pgCapacity, hasMy, myCapacity, programs, es, x);
    var n := Clients.Moves(Clients.Begin(pgCapacity, hasMy, myCapacity, programs), es);
    var dbs :| Explained(n.m, n.clients[x], dbs);
    forall s <- EndToEnd.RanBy(n.m, n.clients[x]) ensures exists db :: IsTold(s, db) {
      var db := OutcomeOf(n.m, n.clients[x], dbs, s);
      ResponseIsTold(s, db);
    }
  }

  lemma OutcomeOf(m: Machine, cl: Clients.Client, dbs: seq<DbOutcome>, s: Statement) returns (db: DbOutcome)
    requires Explained(m, cl, dbs) && s in EndToEnd.RanBy(m, cl)
    ensures db in dbs && s.response == Respond(s.sql, db)
  {
    hide RanFor, Clients.NameOf, Clients.ServesAll, Respond;
    var log := Clients.ServesAll(cl.sent[..|dbs|], dbs).log;
    LogIsAnswered(cl.sent[..|dbs|], dbs);
    var i :| 0 <= i < |EndToEnd.RanBy(m, cl)| && EndToEnd.RanBy(m, cl)[i] == s;
    assert log == Clients.Entries(EndToEnd.RanBy(m, cl));
    assert log[i] == Clients.Entry(s.sql, s.response) && log[i] in log;
    db :| db in dbs && s.response == Respond(s.sql, db);
  }
}
