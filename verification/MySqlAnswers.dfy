/** Whole answers of the MySQL proxy, read back by the client of MySqlClient. */
module MySqlAnswers {
  import opened ByteStrings
  import opened Wire
  import opened LenEnc
  import opened Http
  import opened Packets
  import opened MySqlClient

  lemma NextPacketOf(p: bytes, no: byte, tail: bytes)
    requires Fits(p)
    ensures NextPacket(Frame(p, no) + tail, no) == Some((p, tail))
  {
    ParseFrame(p, no, tail);
  }

  lemma NextPacketOfNothing(no: byte)
    ensures NextPacket([], no) == None
  {
  }

  /** The front of a burst. */
  lemma NextPacketOfBurst(p: bytes, more: seq<bytes>, no: byte, tail: bytes)
    requires Fits(p)
    ensures NextPacket(Burst([p] + more, no) + tail, no) == Some((p, Burst(more, Next(no)) + tail))
  {
    BurstStep(p, more, no);
    AppendTwo(Frame(p, no), Burst(more, Next(no)), tail);
    NextPacketOf(p, no, Burst(more, Next(no)) + tail);
  }

  // ---------- columns ----------

  /** What a client is to learn of a result column: its name, twice, and that it is text. */
  function InfoNamed(name: bytes): ColumnInfo {
    ColumnInfo([Ascii("def"), [], [], [], name, name], 45, 1024, 0xFD, 0, 0)
  }

  function InfosOf(columns: seq<bytes>): (r: seq<ColumnInfo>)
    ensures |r| == |columns|
  {
    seq(|columns|, i requires 0 <= i < |columns| => InfoNamed(columns[i]))
  }

  /** The definition sent for a column name is read as just that. */
  lemma ColumnNameArrives(name: bytes)
    requires Fits(ColumnNamed(name).Packed())
    ensures DecodeColumn(ColumnNamed(name).Packed()) == Some(InfoNamed(name))
  {
    ColumnRoundTrip(ColumnNamed(name));
    ColumnNamedIs(name);
    hide DecodeColumn, InfoNamed;
  }

  lemma ColumnNamedIs(name: bytes)
    ensures Info(ColumnNamed(name)) == InfoNamed(name)
  {
    assert [0x64, 0x65, 0x66] == Ascii("def");
  }

  lemma ColumnPacketsStep(columns: seq<bytes>)
    requires columns != []
    ensures ColumnPackets(columns) == [ColumnNamed(columns[0]).Packed()] + ColumnPackets(columns[1..])
    ensures InfosOf(columns) == [Info(ColumnNamed(columns[0]))] + InfosOf(columns[1..])
  {
    hide ColumnNamed, InfoNamed, Info;
    ColumnNamedIs(columns[0]);
  }

  /** A column definition at the front. */
  lemma ReadColumnsStep(stream: bytes, no: byte, n: nat, c: ColumnDef, rest: bytes)
    requires n > 0 && Fits(c.Packed()) && NextPacket(stream, no) == Some((c.Packed(), rest))
    ensures ReadColumns(stream, no, n) ==
            match ReadColumns(rest, Next(no), n - 1)
            case None => None
            case Some((cs, left, last)) => Some(([Info(c)] + cs, left, last))
  {
    ColumnIsNotEof(c);
    ColumnRoundTrip(c);
    hide Fits, IsEof, DecodeColumn, NextPacket, Info;
  }

  lemma {:induction false} ReadColumnsOf(columns: seq<bytes>, no: byte, tail: bytes)
    requires AllFitIn(ColumnPackets(columns))
    ensures ReadColumns(Burst(ColumnPackets(columns), no) + tail, no, |columns|) ==
            Some((InfosOf(columns), tail, Shift(no, |columns|)))
  {
    hide ColumnNamed, Info, NextPacket, Burst, Shift, Next, Fits, InfosOf;
    ShiftNext(no, if columns == [] then 0 else |columns| - 1);
    if columns == [] {
      EmptyBurst(no);
      assert InfosOf([]) == [];
      assert [] + tail == tail;
    } else {
      var c := ColumnNamed(columns[0]);
      var more := ColumnPackets(columns[1..]);
      ColumnPacketsStep(columns);
      assert ColumnPackets(columns)[0] == c.Packed() && ColumnPackets(columns)[1..] == more;
      NextPacketOfBurst(c.Packed(), more, no, tail);
      ReadColumnsStep(Burst(ColumnPackets(columns), no) + tail, no, |columns|, c, Burst(more, Next(no)) + tail);
      ReadColumnsOf(columns[1..], Next(no), tail);
    }
  }

  /** With fewer definitions than columns there is nothing to read but what comes after. */
  lemma {:induction false} ReadColumnsCutOff(columns: seq<bytes>, no: byte, n: nat, tail: bytes)
    requires AllFitIn(ColumnPackets(columns)) && |columns| < n
    ensures EatsInto(ReadColumns(Burst(ColumnPackets(columns), no) + tail, no, n), tail)
  {
    hide ColumnNamed, Info, NextPacket, Burst, Fits;
    if columns == [] {
      EmptyBurst(no);
      assert [] + tail == tail;
      ReadColumnsShrinks(tail, no, n);
    } else {
      var c := ColumnNamed(columns[0]);
      var more := ColumnPackets(columns[1..]);
      ColumnPacketsStep(columns);
      assert ColumnPackets(columns)[0] == c.Packed() && ColumnPackets(columns)[1..] == more;
      NextPacketOfBurst(c.Packed(), more, no, tail);
      ReadColumnsStep(Burst(ColumnPackets(columns), no) + tail, no, n, c, Burst(more, Next(no)) + tail);
      hide ReadColumns;
      ReadColumnsCutOff(columns[1..], Next(no), n - 1, tail);
    }
  }

  lemma EmptyTail(b: bytes)
    ensures b + [] == b
  {
  }

  // ---------- rows ----------

  function TableOf(rows: seq<seq<bytes>>): (r: seq<seq<Cell>>)
    ensures |r| == |rows|
  {
    seq(|rows|, i requires 0 <= i < |rows| => CellsOf(rows[i]))
  }

  predicate Wide(rows: seq<seq<bytes>>, n: nat) {
    forall i :: 0 <= i < |rows| ==> |rows[i]| == n
  }

  lemma RowPacketsStep(rows: seq<seq<bytes>>)
    requires rows != []
    ensures RowPackets(rows) == [RowPacket(rows[0])] + RowPackets(rows[1..])
    ensures TableOf(rows) == [CellsOf(rows[0])] + TableOf(rows[1..])
  {
    hide RowPacket, CellsOf;
  }

  /** A row at the front. */
  lemma ReadRowsStep(stream: bytes, no: byte, n: nat, row: seq<bytes>, rest: bytes)
    requires n > 0 && |row| == n && Fits(RowPacket(row)) && NextPacket(stream, no) == Some((RowPacket(row), rest))
    ensures ReadRows(stream, no, n) ==
            match ReadRows(rest, Next(no), n)
            case None => None
            case Some((rows, left, last)) => Some(([CellsOf(row)] + rows, left, last))
  {
    RowIsNotAnEnd(row);
    RowRoundTrip(row);
    hide Fits, DecodeRow, NextPacket, CellsOf, RowPacket;
  }

  lemma {:induction false} ReadRowsOf(rows: seq<seq<bytes>>, no: byte, n: nat, tail: bytes)
    requires n > 0 && Wide(rows, n) && AllFitIn(RowPackets(rows))
    ensures ReadRows(Burst(RowPackets(rows) + [EofPacket(0, AUTOCOMMIT)], no) + tail, no, n) ==
            Some((TableOf(rows), tail, Shift(no, |rows| + 1)))
  {
    hide RowPacket, DecodeRow, EofPacket, NextPacket, CellsOf, Burst, Shift, Next, Fits, RowPackets, TableOf;
    var eof := EofPacket(0, AUTOCOMMIT);
    EofRoundTrip(0, AUTOCOMMIT);
    ShiftNext(no, |rows|);
    if rows == [] {
      NextPacketOfBurst(eof, [], no, tail);
      assert RowPackets(rows) + [eof] == [eof] + [];
      EmptyBurst(Next(no));
      assert [] + tail == tail;
      assert TableOf(rows) == [];
    } else {
      var p, more := RowPacket(rows[0]), RowPackets(rows[1..]) + [eof];
      RowPacketsStep(rows);
      assert RowPackets(rows)[0] == p && RowPackets(rows)[1..] == RowPackets(rows[1..]);
      assert RowPackets(rows) + [eof] == [p] + more;
      NextPacketOfBurst(p, more, no, tail);
      ReadRowsStep(Burst([p] + more, no) + tail, no, n, rows[0], Burst(more, Next(no)) + tail);
      hide ReadRows;
      ReadRowsOf(rows[1..], Next(no), n, tail);
    }
  }

  /** And so it is with rows that are not closed by an EOF packet. */
  lemma {:induction false} ReadRowsCutOff(rows: seq<seq<bytes>>, no: byte, n: nat, tail: bytes)
    requires n > 0 && Wide(rows, n) && AllFitIn(RowPackets(rows))
    ensures EatsInto(ReadRows(Burst(RowPackets(rows), no) + tail, no, n), tail)
  {
    hide RowPacket, NextPacket, CellsOf, Burst, Fits, RowPackets, ReadRows;
    if rows == [] {
      EmptyBurst(no);
      assert RowPackets(rows) == [] && [] + tail == tail;
      ReadRowsShrinks(tail, no, n);
    } else {
      var p, more := RowPacket(rows[0]), RowPackets(rows[1..]);
      RowPacketsStep(rows);
      assert RowPackets(rows)[0] == p && RowPackets(rows)[1..] == more;
      NextPacketOfBurst(p, more, no, tail);
      ReadRowsStep(Burst(RowPackets(rows), no) + tail, no, n, rows[0], Burst(more, Next(no)) + tail);
      ReadRowsCutOff(rows[1..], Next(no), n, tail);
    }
  }

  // ---------- the answer to a query ----------

  /** What the client is meant to see of a reply without an error text. */
  function Shown(result: QueryResponse, sql: bytes): Answer {
    if result.columns == [] then
      Done(ToUint64(result.rowsAffected), 0, 2, 0, OkInfo(sql, result.rowsAffected))
    else Table(InfosOf(result.columns), TableOf(result.rows))
  }

  /** Both pools fill every row to the width of the column list. */
  predicate WellFormed(result: QueryResponse) {
    0 < |result.columns| < TWO_64 ==> Wide(result.rows, |result.columns|)
  }

  lemma DoneFits(result: QueryResponse, sql: bytes)
    ensures var info := OkInfo(sql, result.rowsAffected);
            |info| < 251 && Fits(OkPacket(ToUint64(result.rowsAffected), 0, AUTOCOMMIT, 0, info))
  {
    hide Text.MySqlTag;
    Text.MySqlTagIsShort(sql, result.rowsAffected);
  }

  /** A statement without columns is always answered by one OK packet, which always fits. */
  lemma DoneRoundTrip(result: QueryResponse, sql: bytes, no: byte, tail: bytes)
    requires result.columns == []
    ensures AllFitIn(ResultSet(result, sql))
    ensures ReadAnswer(Burst(ResultSet(result, sql), no) + tail, no) ==
            Some((Shown(result, sql), tail, Next(no)))
  {
    hide NextPacket, Burst, OkInfo;
    var info := OkInfo(sql, result.rowsAffected);
    DoneFits(result, sql);
    OkRoundTrip(ToUint64(result.rowsAffected), 0, AUTOCOMMIT, 0, info);
    var ok := OkPacket(ToUint64(result.rowsAffected), 0, AUTOCOMMIT, 0, info);
    assert ok[0] == 0x00;
    NextPacketOfBurst(ok, [], no, tail);
    assert [ok] + [] == [ok];
    EmptyBurst(Next(no));
    assert [] + tail == tail;
  }

  /** The first packet of a table, and what is left to read. */
  lemma TableStarts(n: nat, more: seq<bytes>, no: byte, tail: bytes)
    requires 0 < n < TWO_64
    ensures ReadAnswer(Burst([LenEncInt(n)] + more, no) + tail, no) ==
            ReadTable(LenEncInt(n), Burst(more, Next(no)) + tail, Next(no))
    ensures ReadInt(LenEncInt(n)) == Some((n, []))
  {
    hide NextPacket, Burst, ReadTable;
    CountIsNotAnotherKind(n);
    NextPacketOfBurst(LenEncInt(n), more, no, tail);
    ReadIntOfLenEnc(n, []);
    EmptyTail(LenEncInt(n));
  }

  /** Column definitions, the EOF packet, and what is left to read. */
  lemma TableContinues(columns: seq<bytes>, more: seq<bytes>, no: byte, tail: bytes)
    requires columns != [] && |columns| < TWO_64 && AllFitIn(ColumnPackets(columns))
    ensures var n := |columns|;
            var eof := EofPacket(0, AUTOCOMMIT);
            ReadTable(LenEncInt(n), Burst(ColumnPackets(columns) + [eof] + more, no) + tail, no) ==
            match ReadRows(Burst(more, Shift(no, n + 1)) + tail, Shift(no, n + 1), n)
            case None => None
            case Some((rows, left, last)) => Some((Table(InfosOf(columns), rows), left, last))
  {
    hide NextPacket, Burst, ReadRows, ReadColumns, EofPacket, ColumnPackets, InfosOf, LenEncInt, ReadInt, Shift,
         Next, Fits;
    var n := |columns|;
    var eof := EofPacket(0, AUTOCOMMIT);
    TableStarts(n, [], no, tail);
    EofRoundTrip(0, AUTOCOMMIT);
    var rest := [eof] + more;
    assert ColumnPackets(columns) + [eof] + more == ColumnPackets(columns) + rest;
    BurstConcat(ColumnPackets(columns), rest, no);
    AppendTwo(Burst(ColumnPackets(columns), no), Burst(rest, Shift(no, n)), tail);
    ReadColumnsOf(columns, no, Burst(rest, Shift(no, n)) + tail);
    NextPacketOfBurst(eof, more, Shift(no, n), tail);
    ShiftNext(no, n);
  }

  /** Result set round trip: the packets of a table, numbered from `no` and followed by
      anything, are read back as the column definitions and all cells in order; the client
      stops right after the last packet and every number on the way was the expected one. */
  lemma TableRoundTrip(result: QueryResponse, sql: bytes, no: byte, tail: bytes)
    requires result.columns != [] && |result.columns| < TWO_64 && WellFormed(result)
    requires AllFitIn(ResultSet(result, sql))
    ensures ReadAnswer(Burst(ResultSet(result, sql), no) + tail, no) ==
            Some((Shown(result, sql), tail, Shift(no, |ResultSet(result, sql)|)))
  {
    hide Burst, ReadRows, ReadTable, EofPacket, ColumnPackets, RowPackets, InfosOf, TableOf, LenEncInt, ReadAnswer,
         ResultSet;
    var n := |result.columns|;
    var eof := EofPacket(0, AUTOCOMMIT);
    var body := RowPackets(result.rows) + [eof];
    var more := ColumnPackets(result.columns) + [eof] + body;
    ResultSetSplits(result, sql);
    hide Shift, Next, Fits, Wide, AllFitIn;
    TableStarts(n, more, no, tail);
    TableContinues(result.columns, body, Next(no), tail);
    ShiftNext(no, n + 1);
    ReadRowsOf(result.rows, Shift(no, n + 2), n, tail);
    ShiftTwice(no, n + 2, |result.rows| + 1);
  }

  lemma ResultSetSplits(result: QueryResponse, sql: bytes)
    requires result.columns != []
    ensures var eof := EofPacket(0, AUTOCOMMIT);
            var body := RowPackets(result.rows) + [eof];
            && ResultSet(result, sql) ==
               [LenEncInt(|result.columns|)] + (ColumnPackets(result.columns) + [eof] + body)
            && |ResultSet(result, sql)| == |result.columns| + |result.rows| + 3
    ensures AllFitIn(ResultSet(result, sql)) <==>
            AllFitIn(ColumnPackets(result.columns)) && AllFitIn(RowPackets(result.rows))
  {
    hide EofPacket, LenEncInt, ColumnPackets, RowPackets;
    var eof := EofPacket(0, AUTOCOMMIT);
    var c, cs, rs := [LenEncInt(|result.columns|)], ColumnPackets(result.columns), RowPackets(result.rows);
    EofRoundTrip(0, AUTOCOMMIT);
    CountFits(|result.columns|);
    assert ResultSet(result, sql) == c + cs + [eof] + rs + [eof];
    FiveFit(c, cs, [eof], rs, [eof]);
  }

  lemma CountFits(n: nat)
    ensures Fits(LenEncInt(n))
  {
  }

  lemma FiveFit(a: seq<bytes>, b: seq<bytes>, c: seq<bytes>, d: seq<bytes>, e: seq<bytes>)
    ensures AllFitIn(a + b + c + d + e) <==> AllFitIn(a) && AllFitIn(b) && AllFitIn(c) && AllFitIn(d) && AllFitIn(e)
    ensures a + b + c + d + e == a + (b + c + (d + e))
  {
    TwoFit(a, b);
    TwoFit(a + b, c);
    TwoFit(a + b + c, d);
    TwoFit(a + b + c + d, e);
  }

  lemma TwoFit(a: seq<bytes>, b: seq<bytes>)
    ensures AllFitIn(a + b) <==> AllFitIn(a) && AllFitIn(b)
  {
    var s := a + b;
    assert forall i :: 0 <= i < |a| ==> s[i] == a[i];
    assert forall i :: 0 <= i < |b| ==> s[|a| + i] == b[i];
  }

  // ---------- over-long packets ----------

  /** What is sent of a table: all of it before the first packet that is refused. */
  lemma SendableTable(n: nat, cs: seq<bytes>, eof: bytes, rs: seq<bytes>)
    requires Fits(eof)
    ensures var packets := [LenEncInt(n)] + (cs + [eof] + (rs + [eof]));
            && (!AllFitIn(cs) ==> Sendable(packets) == [LenEncInt(n)] + Sendable(cs))
            && (AllFitIn(cs) && !AllFitIn(rs) ==>
                  Sendable(packets) == [LenEncInt(n)] + (cs + [eof] + Sendable(rs)))
  {
    hide LenEncInt, Fits, Sendable;
    CountFits(n);
    var count, tail := [LenEncInt(n)], rs + [eof];
    assert AllFitIn(count) && AllFitIn([eof]);
    AppendTwo(cs, [eof], tail);
    SendableConcat(count, cs + ([eof] + tail));
    SendableConcat(cs, [eof] + tail);
    if AllFitIn(cs) && !AllFitIn(rs) {
      SendableConcat([eof], tail);
      SendableConcat(rs, [eof]);
      AppendTwo(cs, [eof], Sendable(rs));
    }
  }

  lemma CutOffInColumns(columns: seq<bytes>, no: byte, tail: bytes)
    requires 0 < |columns| < TWO_64 && !AllFitIn(ColumnPackets(columns))
    ensures EatsInto(ReadAnswer(Burst([LenEncInt(|columns|)] + Sendable(ColumnPackets(columns)), no) + tail, no), tail)
  {
    hide Burst, ReadRows, ReadTable, ColumnPackets, LenEncInt, ReadAnswer, ReadColumns, ReadInt;
    var n, sent := |columns|, Sendable(ColumnPackets(columns));
    ColumnPacketsPrefix(columns, |sent|);
    TableStarts(n, sent, no, tail);
    ReadColumnsCutOff(columns[..|sent|], Next(no), n, tail);
    ReadAfterColumns(LenEncInt(n), n, Burst(sent, Next(no)) + tail, Next(no));
  }

  lemma CutOffInRows(columns: seq<bytes>, rows: seq<seq<bytes>>, no: byte, tail: bytes)
    requires 0 < |columns| < TWO_64 && AllFitIn(ColumnPackets(columns))
    requires Wide(rows, |columns|) && !AllFitIn(RowPackets(rows))
    ensures var packets := [LenEncInt(|columns|)]
              + (ColumnPackets(columns) + [EofPacket(0, AUTOCOMMIT)] + Sendable(RowPackets(rows)));
            EatsInto(ReadAnswer(Burst(packets, no) + tail, no), tail)
  {
    hide Burst, ReadRows, ReadTable, EofPacket, ColumnPackets, RowPackets, LenEncInt, ReadAnswer, InfosOf, Shift, Next;
    var n, sent := |columns|, Sendable(RowPackets(rows));
    var more := ColumnPackets(columns) + [EofPacket(0, AUTOCOMMIT)] + sent;
    RowPacketsPrefix(rows, |sent|);
    TableStarts(n, more, no, tail);
    TableContinues(columns, sent, Next(no), tail);
    ReadRowsCutOff(rows[..|sent|], Shift(Next(no), n + 1), n, tail);
  }

  /** When a packet is refused, the answer is cut short: a client reads no answer from what was
      sent, unless it takes some of the bytes that come after (of a later answer) for it. If
      nothing comes after, it reads none. */
  lemma CutOffIsNoAnswer(result: QueryResponse, sql: bytes, no: byte, tail: bytes)
    requires result.columns != [] && |result.columns| < TWO_64 && WellFormed(result)
    requires !AllFitIn(ResultSet(result, sql))
    ensures EatsInto(ReadAnswer(Burst(Sendable(ResultSet(result, sql)), no) + tail, no), tail)
    ensures ReadAnswer(Burst(Sendable(ResultSet(result, sql)), no), no) == None
  {
    CutOffEatsInto(result, sql, no, tail);
    CutOffEatsInto(result, sql, no, []);
    hide Burst, ReadAnswer, ResultSet, Sendable;
    EmptyTail(Burst(Sendable(ResultSet(result, sql)), no));
  }

  lemma CutOffEatsInto(result: QueryResponse, sql: bytes, no: byte, tail: bytes)
    requires result.columns != [] && |result.columns| < TWO_64 && WellFormed(result)
    requires !AllFitIn(ResultSet(result, sql))
    ensures EatsInto(ReadAnswer(Burst(Sendable(ResultSet(result, sql)), no) + tail, no), tail)
  {
    hide Burst, EofPacket, ColumnPackets, RowPackets, LenEncInt, ReadAnswer, Fits, Wide;
    ResultSetSplits(result, sql);
    EofRoundTrip(0, AUTOCOMMIT);
    SendableTable(|result.columns|, ColumnPackets(result.columns), EofPacket(0, AUTOCOMMIT), RowPackets(result.rows));
    if AllFitIn(ColumnPackets(result.columns)) {
      CutOffInRows(result.columns, result.rows, no, tail);
    } else {
      CutOffInColumns(result.columns, no, tail);
    }
  }

  lemma RowPacketsPrefix(rows: seq<seq<bytes>>, k: nat)
    requires k <= |rows|
    ensures RowPackets(rows)[..k] == RowPackets(rows[..k])
  {
  }

  lemma ColumnPacketsPrefix(columns: seq<bytes>, k: nat)
    requires k <= |columns|
    ensures ColumnPackets(columns)[..k] == ColumnPackets(columns[..k])
  {
  }

  /** The exact condition: a client recovers the reply from what the proxy sends, and stops right
      after it whatever comes next, if and only if every packet fits. */
  lemma AnswerArrivesExactlyWhenItFits(result: QueryResponse, sql: bytes, no: byte, tail: bytes)
    requires |result.columns| < TWO_64 && WellFormed(result)
    ensures var packets := ResultSet(result, sql);
            AllFitIn(packets) <==>
            ReadAnswer(Burst(Sendable(packets), no) + tail, no) ==
            Some((Shown(result, sql), tail, Shift(no, |packets|)))
  {
    hide Burst, ReadAnswer, Shown;
    var packets := ResultSet(result, sql);
    if result.columns == [] {
      DoneRoundTrip(result, sql, no, tail);
    } else if AllFitIn(packets) {
      TableRoundTrip(result, sql, no, tail);
    } else {
      CutOffIsNoAnswer(result, sql, no, tail);
    }
  }
}
