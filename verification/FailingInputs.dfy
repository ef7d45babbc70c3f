/** Inputs at which a promise fails, one for each exact condition proved elsewhere. */
module FailingInputs {
  import opened ByteStrings
  import opened Http
  import opened MessageTypes
  import opened HandlerState
  import opened Wire
  import EndToEnd
  import Pools
  import Handshake
  import LenEnc
  import Packets
  import MySqlAnswers
  import MySqlClient
  import MySqlProxy
  import My = MySqlConversation
  import PgProxy
  import Pg = PgConversation
  import Sql = SqlText

  // ---------- rows and counts ----------

  lemma WordOf(word: bytes, rest: bytes)
    requires word != [] && Sql.NoCommandEnd(word) && (rest == [] || Sql.EndsCommand(rest[0]))
    ensures Sql.CommandWord(word + rest) == word
  {
    Sql.CommandWordIs([], word, rest);
    assert [] + word + rest == word + rest;
  }

  /** A statement that returns rows and runs as a command: the rows are dropped. */
  lemma InsertReturningLosesItsRows(affected: int64)
    ensures var sql := Ascii("INSERT") + Ascii(" INTO t VALUES (1) RETURNING id");
            var (columns, rows) := ([Ascii("id")], [[Some(Ascii("1"))]]);
            var response := Respond(sql, DbDone(columns, rows, affected));
            && response.rows == [] && response.columns == []
            && MySqlAnswers.Shown(response, sql) !=
               MySqlClient.Table(MySqlAnswers.InfosOf(columns), EndToEnd.AsTable(rows))
  {
    var (word, rest) := (Ascii("INSERT"), Ascii(" INTO t VALUES (1) RETURNING id"));
    var (columns, rows) := ([Ascii("id")], [[Some(Ascii("1"))]]);
    WordOf(word, rest);
    assert IsCommand(word);
    hide Ascii, IsCommand, Sql.CommandWord;
    EndToEnd.MySqlTableArrivesExactly(word + rest, columns, rows, affected);
  }

  /** The text NULL of a query is shown as an SQL null, by both proxies. */
  lemma NullTextIsShownAsNull(sql: bytes, name: bytes)
    requires !IsCommand(Sql.CommandWord(sql))
    ensures var text := DbDone([name], [[Some(NULL_TEXT)]], 0);
            var none := DbDone([name], [[None]], 0);
            && Respond(sql, text) == Respond(sql, none)
            && MySqlAnswers.TableOf(Respond(sql, text).rows) == [[MySqlClient.Null]]
            && Pg.CellTable(Respond(sql, text).rows) == [[None]]
  {
    hide Sql.CommandWord, IsCommand;
    var value: seq<seq<Option<bytes>>> := [[Some(NULL_TEXT)]];
    var none: seq<seq<Option<bytes>>> := [[None]];
    assert Pools.RowText(value[0]) == [NULL_TEXT] && Pools.RowText(none[0]) == [NULL_TEXT];
    assert Pools.RowsText(value) == [[NULL_TEXT]] && Pools.RowsText(none) == [[NULL_TEXT]];
    assert MySqlClient.CellsOf([NULL_TEXT]) == [MySqlClient.Null] && PgProxy.CellsOf([NULL_TEXT]) == [None];
    assert MySqlAnswers.TableOf([[NULL_TEXT]]) == [[MySqlClient.Null]] && Pg.CellTable([[NULL_TEXT]]) == [[None]];
  }

  /** A command word in lower case is none: the affected rows are reported as zero. */
  lemma LowerCaseInsertReportsZero()
    ensures var sql := Ascii("insert") + Ascii(" into t values (1)");
            var response := Respond(sql, DbDone([], [], 1));
            response.rowsAffected == 0 && MySqlAnswers.Shown(response, sql).Done?
              && MySqlAnswers.Shown(response, sql).affected == 0
  {
    var (word, rest) := (Ascii("insert"), Ascii(" into t values (1)"));
    WordOf(word, rest);
    assert word[0] == 0x69;
    NotACommand(word);
    hide Ascii, IsCommand, Sql.CommandWord, Sql.MySqlTag;
  }

  lemma NotACommand(word: bytes)
    requires word != [] && word[0] !in {0x49, 0x55, 0x44, 0x43, 0x41, 0x54, 0x53, 0x42, 0x52, 0x47, 0x56}
    ensures !IsCommand(word)
  {
    hide Ascii;
    Sql.CountedLetters();
    Sql.DdlLetters();
    CommandLetters();
  }

  /** MOVE is counted by the tag of the PG proxy but not run as a command: its tag ends in 0. */
  lemma MoveReportsZero(payload: bytes)
    ensures var sql := Sql.MOVE + Ascii(" 5 IN c");
            var x := PgProxy.Exchange(QUERY, sql, payload, Replied(Respond(sql, DbDone([], [], 5))));
            Pg.Meant(x).Result? && Sql.TagCount(Pg.Meant(x).tag) != Some(5)
  {
    var sql := Sql.MOVE + Ascii(" 5 IN c");
    WordOf(Sql.MOVE, Ascii(" 5 IN c"));
    assert Sql.MOVE[0] == 0x4D;
    NotACommand(Sql.MOVE);
    hide Ascii, IsCommand, Sql.CommandWord, Sql.TagCount, Sql.PgTag;
    var x := PgProxy.Exchange(QUERY, sql, payload, Replied(Respond(sql, DbDone([], [], 5))));
    EndToEnd.PgCountArrivesExactly(x, [], [], 5);
  }

  /** CREATE TABLE AS runs as a command, and the proxy is told the five rows; its tag has no number. */
  lemma CreateTableAsReportsNothing(payload: bytes)
    ensures var sql := Sql.CREATE + ([0x20] + (Ascii("TABLE") + Ascii(" t AS SELECT * FROM u")));
            var response := Respond(sql, DbDone([], [], 5));
            var x := PgProxy.Exchange(QUERY, sql, payload, Replied(response));
            && response.rowsAffected == 5 && Pg.Meant(x).Result?
            && Pg.Meant(x).tag == Ascii("CREATE TABLE") && Sql.TagCount(Pg.Meant(x).tag) == None
  {
    hide Ascii, IsCommand, Sql.CommandWord, Sql.TagCount, Sql.PgTag;
    var rest := Ascii("TABLE") + Ascii(" t AS SELECT * FROM u");
    CreateIsACommand();
    WordOf(Sql.CREATE, [0x20] + rest);
    CreateTableTag(5);
  }

  lemma CreateIsACommand()
    ensures IsCommand(Sql.CREATE) && Sql.NoCommandEnd(Sql.CREATE) && Sql.CREATE != []
  {
  }

  lemma CreateTableTag(affected: nat)
    ensures var sql := Sql.CREATE + ([0x20] + (Ascii("TABLE") + Ascii(" t AS SELECT * FROM u")));
            Sql.PgTag(sql, 0, affected) == Ascii("CREATE TABLE") && Sql.TagCount(Sql.PgTag(sql, 0, affected)) == None
  {
    var (table, rest) := (Ascii("TABLE"), Ascii(" t AS SELECT * FROM u"));
    assert rest[0] == 0x20 && table[0] == 0x54 && 0x20 !in table && Sql.NoGap(table) && Sql.IsAscii(table);
    assert Sql.CREATE + [0x20] + table == Ascii("CREATE TABLE");
    CreateIsACommand();
    CreateIsNotCounted();
    hide Ascii, IsCommand, Sql.CommandWord, Sql.TagCount, Sql.IsDdl, Sql.Words, Sql.Tag, Sql.Widen, Sql.CountsRows,
         Sql.CountsAffected;
    var sql := Sql.CREATE + ([0x20] + (table + rest));
    WordOf(Sql.CREATE, [0x20] + (table + rest));
    assert [] + sql == sql;
    Sql.CreateTagMeaning([], Sql.CREATE, [0x20], table, rest);
    Sql.WidenLength(table);
    Sql.SameWord(Sql.CREATE);
    NoCountOf(table);
  }

  lemma CreateIsNotCounted()
    ensures !Sql.CountsRows(Sql.CREATE) && !Sql.CountsAffected(Sql.CREATE) && Sql.CREATE != Sql.INSERT
    ensures Sql.IsDdl(Sql.CREATE)
  {
    if Sql.AlwaysCounts(Sql.CREATE) {
      Sql.CountedIsNoNumber(Sql.CREATE);
    }
    Sql.DdlIsNotCounted(Sql.CREATE);
  }

  lemma NoCountOf(word: bytes)
    requires word != [] && 0x20 !in word && word[0] > 0x39
    ensures Sql.TagCount(Sql.CREATE + [0x20] + word) == None
  {
    hide Sql.TagCount, ReadDigits;
    Sql.LastWordNumber(Sql.CREATE, word);
    Sql.ReadDigitsOnlyDigits(word);
    Sql.AfterNoSpace(word);
    assert Sql.TagCount(word) == ReadDigits(word) by {
      CountIsNumber(word);
    }
  }

  lemma CountIsNumber(word: bytes)
    requires 0x20 !in word
    ensures Sql.TagCount(word) == ReadDigits(word)
  {
    Sql.AfterNoSpace(word);
  }

  /** A command word in lower case, for PostgreSQL: the tag is that word, without a count. */
  lemma LowerCaseInsertHasNoCount(payload: bytes)
    ensures var sql := Ascii("insert") + Ascii(" into t values (1)");
            var x := PgProxy.Exchange(QUERY, sql, payload, Replied(Respond(sql, DbDone([], [], 1))));
            Pg.Meant(x).Result? && Sql.TagCount(Pg.Meant(x).tag) != Some(1)
  {
    var (word, rest) := (Ascii("insert"), Ascii(" into t values (1)"));
    var x := PgProxy.Exchange(QUERY, word + rest, payload, Replied(Respond(word + rest, DbDone([], [], 1))));
    WordOf(word, rest);
    assert word[0] == 0x69;
    NotACommand(word);
    hide Ascii, ReadDigits;
    Sql.ReadDigitsOnlyDigits(word);
    Sql.Letters();
    Sql.DdlLetters();
    assert !Sql.CountsRows(word) && !Sql.IsDdl(word);
    hide Ascii, IsCommand, Sql.CommandWord, Sql.TagCount, Sql.PgTag, Sql.CountsRows, Sql.IsDdl, ReadDigits;
    EndToEnd.PgCountArrivesExactly(x, [], [], 1);
  }

  /** BEGIN runs as a command and affects no rows: its tag does not say 0. */
  lemma BeginHasNoCount(payload: bytes)
    ensures var x := PgProxy.Exchange(QUERY, BEGIN, payload, Replied(Respond(BEGIN, DbDone([], [], 0))));
            Pg.Meant(x).Result? && Sql.TagCount(Pg.Meant(x).tag) != Some(0)
  {
    hide Ascii, IsCommand, Sql.CommandWord, Sql.TagCount, Sql.PgTag, ReadDigits;
    var x := PgProxy.Exchange(QUERY, BEGIN, payload, Replied(Respond(BEGIN, DbDone([], [], 0))));
    BeginIsAWord();
    WordOf(BEGIN, []);
    assert BEGIN + [] == BEGIN;
    CommandLetters();
    Sql.ReadDigitsOnlyDigits(BEGIN);
    Sql.Letters();
    Sql.CountedLetters();
    Sql.DdlLetters();
    assert !Sql.CountsRows(BEGIN) && !Sql.AlwaysCounts(BEGIN) && !Sql.IsDdl(BEGIN);
    EndToEnd.PgCountArrivesExactly(x, [], [], 0);
  }

  lemma BeginIsAWord()
    ensures Sql.NoCommandEnd(BEGIN)
  {
  }

  // ---------- the wire ----------

  /** 2^63 comes back from its encoding as -2^63. */
  lemma LengthOfTwoTo63IsNegative()
    ensures LenEnc.DecodeLenEncInt(LenEnc.LenEncInt(TWO_63), 0) == (-(TWO_63 as int), 9)
  {
    LenEnc.DecodeUndoesEncode([], TWO_63, []);
    assert [] + LenEnc.LenEncInt(TWO_63) + [] == LenEnc.LenEncInt(TWO_63);
  }

  /** A handshake response of four bytes makes the parser panic. */
  lemma FourByteHandshakePanics()
    ensures Handshake.Parse([0, 0, 0, 0]) == Handshake.Crash
  {
    Handshake.ParsesWithoutPanicExactly([0, 0, 0, 0]);
  }

  /** So does one that announces 2^63 - 1 bytes of auth data. */
  lemma HugeAuthLengthPanics()
    ensures Handshake.Parse(HugeAuth()) == Handshake.Crash
  {
    hide Handshake.Parse, FromLE, LE, Handshake.Has;
    var p := HugeAuth();
    assert p[..4] == LE(0x20_0000, 4) && p[32] == 0 && p[33] == 0xFE && p[34..42] == LE(TWO_63 - 1, 8);
    Pow256Values();
    FromLEOfLE(0x20_0000, 4);
    FromLEOfLE(TWO_63 - 1, 8);
    assert Handshake.FindNull(p, 32) == 32 && p[32..32] == [];
    assert Handshake.TextField(p, 32) == ([], 33);
    LenencFlag();
    Handshake.ParsesWithoutPanicExactly(p);
  }

  lemma LenencFlag()
    ensures Handshake.Has(0x20_0000, Handshake.CLIENT_PLUGIN_AUTH_LENENC)
  {
  }

  function HugeAuth(): (p: bytes)
    ensures |p| == 42
  {
    LE(0x20_0000, 4) + seq(28, _ => 0) + [0] + [0xFE] + LE(TWO_63 - 1, 8)
  }

  /** A cell of 2^24 bytes: the client cannot read any answer from what is sent. */
  lemma OverlongRowIsNoAnswer(sql: bytes, name: bytes, no: byte)
    ensures var cell := seq(TWO_24, _ => 0x61);
            var packets := Packets.ResultSet(QueryResponse([name], [[cell]], 0, []), sql);
            MySqlClient.ReadAnswer(Burst(Sendable(packets), no), no) == None
  {
    hide MySqlClient.ReadAnswer, Burst, Sendable, Packets.ColumnNamed;
    var cell := seq(TWO_24, _ => 0x61);
    var result := QueryResponse([name], [[cell]], 0, []);
    MySqlAnswers.ResultSetSplits(result, sql);
    assert cell[0] != NULL_TEXT[0];
    assert Packets.RowPackets([[cell]])[0] == Packets.RowPacket([cell]);
    Packets.RowPacketStep([cell]);
    assert |Packets.CellBytes(cell)| >= TWO_24;
    hide Packets.ResultSet, Packets.RowPackets, Packets.ColumnPackets, Packets.CellBytes;
    MySqlAnswers.CutOffIsNoAnswer(result, sql, no, []);
  }

  // ---------- sessions that are never closed ----------

  /** A MySQL client that goes away between the greeting and the OK packet: its session is
      created and no call ever closes it. */
  lemma MySqlSessionIsNeverClosed(greeting: bytes, replies: seq<HttpReply>, id: SessionId)
    requires Fits(greeting)
    ensures var s := MySqlProxy.State(Frame(seq(9, _ => 0), 1), Link([], Some(|greeting| + 4)), replies, []);
            var calls := MySqlProxy.Connection(s, greeting, Some(id)).0.calls;
            calls != [] && Close(id) !in calls
  {
    hide MySqlProxy.Connection, MySqlProxy.PlainOk, Handshake.Parse;
    var payload: bytes := seq(9, _ => 0);
    var s := MySqlProxy.State(Frame(payload, 1), Link([], Some(|greeting| + 4)), replies, []);
    ParseFrame(payload, 1, []);
    assert Frame(payload, 1) + [] == Frame(payload, 1);
    NineBytesParse(payload);
    My.SessionIsClosedExactlyWhen(s, greeting, id);
  }

  lemma NineBytesParse(payload: bytes)
    requires |payload| == 9
    ensures Handshake.Parse(payload).Parsed?
  {
    Handshake.ParsesWithoutPanicExactly(payload);
  }

  /** A PostgreSQL client that goes away before the greeting is flushed. */
  lemma PgSessionIsNeverClosed(s: PgProxy.State, raw: bytes, id: SessionId)
    requires s.calls == [] && s.flushes == Some(0)
    ensures PgProxy.Connection(s, Some(raw), Some(id)).0.calls == [Open(raw)]
  {
    hide PgProxy.Messages, PgProxy.Greeting;
  }
}
