/** A MySQL client, written from the protocol and not from the proxy: it reads the answer to
    one command off a byte stream. The proxy's encoders are proved inverse to it. */
module MySqlClient {
  import opened ByteStrings
  import opened Wire
  import opened LenEnc
  import opened Packets
  import opened Http
  import Text = SqlText

  // ---------- reading values ----------

  /** A length-encoded integer at the front of `b`, and what follows it. Unlike the proxy's
      own decoder it refuses cut-off values and the bytes 0xFB and 0xFF. */
  function ReadInt(b: bytes): (r: Option<(nat, bytes)>)
    ensures r.Some? ==> |r.value.1| < |b|
  {
    if b == [] then None
    else if b[0] < 251 then Some((b[0], b[1..]))
    else if b[0] == 0xFC then ReadFixed(b[1..], 2)
    else if b[0] == 0xFD then ReadFixed(b[1..], 3)
    else if b[0] == 0xFE then ReadFixed(b[1..], 8)
    else None
  }

  function ReadFixed(b: bytes, n: nat): (r: Option<(nat, bytes)>)
    ensures r.Some? ==> |r.value.1| == |b| - n
  {
    if |b| < n then None else Some((FromLE(b[..n]), b[n..]))
  }

  function ReadString(b: bytes): Option<(bytes, bytes)> {
    var (n, rest) :- ReadInt(b);
    if |rest| < n then None else Some((rest[..n], rest[n..]))
  }

  function ReadStrings(b: bytes, n: nat): Option<(seq<bytes>, bytes)> {
    if n == 0 then Some(([], b))
    else
      var (s, rest) :- ReadString(b);
      var (ss, left) :- ReadStrings(rest, n - 1);
      Some(([s] + ss, left))
  }

  // ---------- reading payloads ----------

  datatype Cell = Null | Text(text: bytes)

  datatype ColumnInfo = ColumnInfo(names: seq<bytes>, charset: nat, length: nat, kind: nat, flags: nat, decimals: nat)

  datatype Answer =
    | Done(affected: nat, lastId: nat, status: nat, warnings: nat, info: bytes)
    | Error(code: nat, state: bytes, message: bytes)
    | Table(columns: seq<ColumnInfo>, rows: seq<seq<Cell>>)

  function DecodeOk(p: bytes): Option<Answer> {
    if p == [] || p[0] != 0x00 then None
    else
      var (affected, b1) :- ReadInt(p[1..]);
      var (lastId, b2) :- ReadInt(b1);
      var (status, b3) :- ReadFixed(b2, 2);
      var (warnings, b4) :- ReadFixed(b3, 2);
      if b4 == [] then Some(Done(affected, lastId, status, warnings, []))
      else
        var (info, left) :- ReadString(b4);
        if left != [] || info == [] then None else Some(Done(affected, lastId, status, warnings, info))
  }

  function DecodeErr(p: bytes): Option<Answer> {
    if |p| < 9 || p[0] != 0xFF || p[3] != 0x23 then None
    else Some(Error(FromLE(p[1..3]), p[4..9], p[9..]))
  }

  /** An EOF packet: the mark, and too short to be a row. */
  predicate IsEof(p: bytes) {
    0 < |p| < 9 && p[0] == 0xFE
  }

  /** Its warnings and status. */
  function DecodeEof(p: bytes): Option<(nat, nat)> {
    if !IsEof(p) || |p| != 5 then None else Some((FromLE(p[1..3]), FromLE(p[3..])))
  }

  /** The end of the columns or rows of a result the client takes: no warnings, autocommit. */
  predicate IsPlainEnd(p: bytes) {
    DecodeEof(p) == Some((0, 2))
  }

  function DecodeColumn(p: bytes): Option<ColumnInfo> {
    var (names, b) :- ReadStrings(p, 6);
    var (size, f) :- ReadInt(b);
    if size != 12 || |f| != 12 || f[10..] != [0, 0] then None
    else Some(ColumnInfo(names, FromLE(f[..2]), FromLE(f[2..6]), f[6], FromLE(f[7..9]), f[9]))
  }

  function DecodeRow(p: bytes, n: nat): Option<seq<Cell>> {
    if n == 0 then if p == [] then Some([]) else None
    else if p == [] then None
    else if p[0] == 0xFB then
      var cells :- DecodeRow(p[1..], n - 1);
      Some([Null] + cells)
    else
      var (text, rest) :- ReadString(p);
      var cells :- DecodeRow(rest, n - 1);
      Some([Text(text)] + cells)
  }

  // ---------- reading the stream ----------

  /** The next packet, which must carry number `no`. */
  function NextPacket(stream: bytes, no: byte): (r: Option<(bytes, bytes)>)
    ensures r.Some? ==> |r.value.1| < |stream|
  {
    match ParsePacket(stream)
    case Failed => None
    case Got(p, rest) => if p.no == no then Some((p.payload, rest)) else None
  }

  function ReadColumns(stream: bytes, no: byte, n: nat): Option<(seq<ColumnInfo>, bytes, byte)> {
    if n == 0 then Some(([], stream, no))
    else
      var (p, rest) :- NextPacket(stream, no);
      if IsEof(p) then None
      else
        var c :- DecodeColumn(p);
        var (cs, left, last) :- ReadColumns(rest, Next(no), n - 1);
        Some(([c] + cs, left, last))
  }

  /** Rows of width `n` up to the closing EOF packet. */
  function ReadRows(stream: bytes, no: byte, n: nat): Option<(seq<seq<Cell>>, bytes, byte)>
    decreases |stream|
  {
    var (p, rest) :- NextPacket(stream, no);
    if IsEof(p) then if IsPlainEnd(p) then Some(([], rest, Next(no))) else None
    else if p != [] && p[0] == 0xFF then None
    else
      var row :- DecodeRow(p, n);
      var (rows, left, last) :- ReadRows(rest, Next(no), n);
      Some(([row] + rows, left, last))
  }

  function ReadTable(count: bytes, stream: bytes, no: byte): Option<(Answer, bytes, byte)> {
    var (n, extra) :- ReadInt(count);
    if extra != [] then None
    else
      var (columns, s1, no1) :- ReadColumns(stream, no, n);
      var (eof, s2) :- NextPacket(s1, no1);
      if !IsPlainEnd(eof) then None
      else
        var (rows, left, last) :- ReadRows(s2, Next(no1), n);
        Some((Table(columns, rows), left, last))
  }

  /** The answer to a command whose own number precedes `no`: what it is, the bytes after it,
      and the number after its last packet. */
  function ReadAnswer(stream: bytes, no: byte): Option<(Answer, bytes, byte)> {
    var (p, rest) :- NextPacket(stream, no);
    if p == [] then None
    else if p[0] == 0x00 then
      var a :- DecodeOk(p);
      Some((a, rest, Next(no)))
    else if p[0] == 0xFF then
      var a :- DecodeErr(p);
      Some((a, rest, Next(no)))
    else ReadTable(p, rest, Next(no))
  }

  /** Something was read only by taking some of the last bytes, `tail`, for it. */
  predicate EatsInto<T>(r: Option<(T, bytes, byte)>, tail: bytes) {
    r.Some? ==> |r.value.1| < |tail|
  }

  lemma {:induction false} ReadColumnsShrinks(stream: bytes, no: byte, n: nat)
    ensures n > 0 ==> EatsInto(ReadColumns(stream, no, n), stream)
    decreases n
  {
    hide NextPacket, IsEof, IsPlainEnd, DecodeColumn;
    if n > 1 {
      match NextPacket(stream, no)
      case None =>
      case Some((_, rest)) => ReadColumnsShrinks(rest, Next(no), n - 1);
    }
  }

  lemma {:induction false} ReadRowsShrinks(stream: bytes, no: byte, n: nat)
    ensures EatsInto(ReadRows(stream, no, n), stream)
    decreases |stream|
  {
    hide NextPacket, IsEof, IsPlainEnd, DecodeRow;
    match NextPacket(stream, no)
    case None =>
    case Some((_, rest)) => ReadRowsShrinks(rest, Next(no), n);
  }

  lemma ReadTableShrinks(count: bytes, stream: bytes, no: byte)
    ensures EatsInto(ReadTable(count, stream, no), stream)
  {
    hide NextPacket, IsEof, IsPlainEnd, ReadColumns, ReadRows, ReadInt;
    match ReadInt(count)
    case None =>
    case Some((n, _)) => ReadAfterColumns(count, n, stream, no);
  }

  /** A table takes more than its columns. */
  lemma ReadAfterColumns(count: bytes, n: nat, stream: bytes, no: byte)
    requires ReadInt(count).Some? && ReadInt(count).value.0 == n
    ensures var columns := ReadColumns(stream, no, n);
            var table := ReadTable(count, stream, no);
            && (columns.None? ==> table.None?)
            && (columns.Some? ==> EatsInto(table, columns.value.1))
    ensures EatsInto(ReadTable(count, stream, no), stream)
  {
    ReadColumnsShrinks(stream, no, n);
    var columns := ReadColumns(stream, no, n);
    if columns.Some? {
      match NextPacket(columns.value.1, columns.value.2)
      case None =>
      case Some((_, s2)) => ReadRowsShrinks(s2, Next(columns.value.2), n);
    }
    hide NextPacket, IsEof, IsPlainEnd, ReadRows, ReadInt;
  }

  lemma ReadAnswerShrinks(stream: bytes, no: byte)
    ensures EatsInto(ReadAnswer(stream, no), stream)
  {
    hide NextPacket, ReadTable, DecodeOk, DecodeErr;
    match NextPacket(stream, no)
    case None =>
    case Some((p, rest)) => ReadTableShrinks(p, rest, Next(no));
  }

  // ---------- the encoders are inverse to it: values ----------

  lemma ReadIntOfLenEnc(v: uint64, tail: bytes)
    ensures ReadInt(LenEncInt(v) + tail) == Some((v, tail))
  {
    var b := LenEncInt(v) + tail;
    Pow256Values();
    if v < 251 {
      assert b[1..] == tail;
    } else {
      var n := |LenEncInt(v)| - 1;
      assert b[1..] == LE(v, n) + tail;
      assert (LE(v, n) + tail)[..n] == LE(v, n) && (LE(v, n) + tail)[n..] == tail;
      FromLEOfLE(v, n);
    }
  }

  lemma ReadStringOfLenEnc(s: bytes, tail: bytes)
    requires |s| < TWO_64
    ensures ReadString(LenEncString(s) + tail) == Some((s, tail))
  {
    assert LenEncString(s) + tail == LenEncInt(|s|) + (s + tail);
    ReadIntOfLenEnc(|s|, s + tail);
    assert (s + tail)[..|s|] == s && (s + tail)[|s|..] == tail;
  }

  lemma {:induction false} ReadStringsOf(ss: seq<bytes>, tail: bytes)
    requires forall s <- ss :: |s| < TWO_64
    ensures ReadStrings(Strings(ss) + tail, |ss|) == Some((ss, tail))
  {
    hide ReadString, LenEncString;
    if ss == [] {
      assert Strings(ss) + tail == tail;
    } else {
      AppendTwo(LenEncString(ss[0]), Strings(ss[1..]), tail);
      ReadStringOfLenEnc(ss[0], Strings(ss[1..]) + tail);
      ReadStringsOf(ss[1..], tail);
      assert [ss[0]] + ss[1..] == ss;
    }
  }

  // ---------- payloads ----------

  lemma FixedField(v: nat, n: nat, tail: bytes)
    requires v < Pow256(n)
    ensures ReadFixed(LE(v, n) + tail, n) == Some((v, tail))
  {
    var b := LE(v, n) + tail;
    assert b[..n] == LE(v, n) && b[n..] == tail;
    FromLEOfLE(v, n);
  }

  /** An OK packet read back: affected rows, last id, status, warnings and info. */
  lemma OkRoundTrip(affected: uint64, lastId: uint64, status: uint16, warnings: uint16, info: bytes)
    requires |info| < TWO_64
    ensures DecodeOk(OkPacket(affected, lastId, status, warnings, info)) ==
            Some(Done(affected, lastId, status, warnings, info))
  {
    hide LenEncInt, LE, LenEncString, ReadInt, ReadString, ReadFixed, Pow256;
    var last := if info != [] then LenEncString(info) else [];
    var b3 := LE(warnings, 2) + last;
    var b2 := LE(status, 2) + b3;
    var b1 := LenEncInt(lastId) + b2;
    var b0 := LenEncInt(affected) + b1;
    var p := OkPacket(affected, lastId, status, warnings, info);
    assert p == [OK_MARK] + b0 by {
      AppendFive([OK_MARK], LenEncInt(affected), LenEncInt(lastId), LE(status, 2), LE(warnings, 2), last);
    }
    assert p[1..] == b0;
    Pow256Values();
    ReadIntOfLenEnc(affected, b1);
    ReadIntOfLenEnc(lastId, b2);
    FixedField(status, 2, b3);
    FixedField(warnings, 2, last);
    if info != [] {
      ReadStringOfLenEnc(info, []);
      assert LenEncString(info) + [] == LenEncString(info);
      LenEncStringNotEmpty(info);
    }
  }

  lemma LenEncStringNotEmpty(s: bytes)
    ensures LenEncString(s) != []
  {
  }

  lemma AppendFive(h: bytes, a: bytes, b: bytes, c: bytes, d: bytes, e: bytes)
    ensures h + a + b + c + d + e == h + (a + (b + (c + (d + e))))
  {
    AppendTwo(h + a + b + c, d, e);
    AppendTwo(h + a + b, c, d + e);
    AppendTwo(h + a, b, c + (d + e));
    AppendTwo(h, a, b + (c + (d + e)));
  }

  /** An ERR packet read back: the code, the state padded or cut to five bytes, the message. */
  lemma ErrRoundTrip(code: uint16, state: bytes, message: bytes)
    ensures DecodeErr(ErrPacket(code, state, message)) == Some(Error(code, PadState(state), message))
  {
    var p := ErrPacket(code, state, message);
    Pow256Values();
    FromLEOfLE(code, 2);
    assert p[1..3] == LE(code, 2);
    assert p[4..9] == PadState(state);
    assert p[9..] == message;
  }

  /** An EOF packet read back: warnings and status. */
  lemma EofRoundTrip(warnings: uint16, status: uint16)
    ensures IsEof(EofPacket(warnings, status)) && Fits(EofPacket(warnings, status))
    ensures DecodeEof(EofPacket(warnings, status)) == Some((warnings, status))
  {
    var p := EofPacket(warnings, status);
    assert p[1..3] == LE(warnings, 2) && p[3..] == LE(status, 2);
    Pow256Values();
    FromLEOfLE(warnings, 2);
    FromLEOfLE(status, 2);
  }

  function Info(c: ColumnDef): ColumnInfo {
    ColumnInfo([c.catalog, c.schema, c.table, c.orgTable, c.name, c.orgName], c.charset, c.length, c.kind, c.flags,
      c.decimals)
  }

  lemma {:induction false} StringsBound(ss: seq<bytes>, s: bytes)
    requires s in ss
    ensures |s| < |Strings(ss)|
  {
    if s != ss[0] {
      assert s in ss[1..];
      StringsBound(ss[1..], s);
    }
  }

  lemma FixedFieldsOf(c: ColumnDef)
    ensures var f := c.Fixed();
            && |f| == 12 && f[10..] == [0, 0] && f[6] == c.kind && f[9] == c.decimals
            && FromLE(f[..2]) == c.charset && FromLE(f[2..6]) == c.length && FromLE(f[7..9]) == c.flags
  {
    var f := c.Fixed();
    assert f[..2] == LE(c.charset, 2) && f[2..6] == LE(c.length, 4) && f[7..9] == LE(c.flags, 2);
    Pow256Values();
    FromLEOfLE(c.charset, 2);
    FromLEOfLE(c.length, 4);
    FromLEOfLE(c.flags, 2);
  }

  /** Every column definition that fits a packet is read back, all fields of it. */
  lemma ColumnRoundTrip(c: ColumnDef)
    requires Fits(c.Packed())
    ensures DecodeColumn(c.Packed()) == Some(Info(c))
  {
    hide Strings, LenEncInt, ReadStrings, ReadInt, FromLE, LE;
    forall s <- c.Names() ensures |s| < TWO_64 {
      StringsBound(c.Names(), s);
    }
    ReadStringsOf(c.Names(), LenEncInt(12) + c.Fixed());
    ReadIntOfLenEnc(12, c.Fixed());
    FixedFieldsOf(c);
  }

  /** A column definition that can be sent never starts like an EOF or an ERR packet: 0xFE at the
      front means a catalog of at least 2^24 bytes, which no packet holds. */
  lemma ColumnIsNotEof(c: ColumnDef)
    requires Fits(c.Packed())
    ensures c.Packed()[0] != 0xFE && c.Packed()[0] != 0xFF && !IsEof(c.Packed())
  {
    hide Strings, LenEncInt;
    StringsBound(c.Names(), c.catalog);
    FirstByte(|c.catalog|);
    CatalogFirst(c);
  }

  lemma CatalogFirst(c: ColumnDef)
    ensures c.Packed() != [] && c.Packed()[0] == LenEncInt(|c.catalog|)[0]
    ensures |Strings(c.Names())| <= |c.Packed()|
  {
    hide LenEncInt;
    assert Strings(c.Names()) == LenEncString(c.catalog) + Strings(c.Names()[1..]);
  }

  function CellOf(v: bytes): Cell {
    if v == NULL_TEXT then Null else Text(v)
  }

  function CellsOf(row: seq<bytes>): (r: seq<Cell>)
    ensures |r| == |row|
  {
    seq(|row|, i requires 0 <= i < |row| => CellOf(row[i]))
  }

  /** Every row that fits a packet is read back cell by cell, the text NULL as an SQL null. */
  lemma {:induction false} RowRoundTrip(row: seq<bytes>)
    requires |RowPacket(row)| < TWO_63
    ensures DecodeRow(RowPacket(row), |row|) == Some(CellsOf(row))
  {
    hide CellBytes, ReadString, LenEncString;
    if row != [] {
      var v, rest := row[0], RowPacket(row[1..]);
      RowRoundTrip(row[1..]);
      CellAtFront(v, rest);
      hide RowPacket;
      RowPacketStep(row);
      assert [CellOf(v)] + CellsOf(row[1..]) == CellsOf(row);
    }
  }

  /** A cell at the front: the mark of a null, or a string that does not start like one. */
  lemma CellAtFront(v: bytes, rest: bytes)
    requires |CellBytes(v)| < TWO_63
    ensures var p := CellBytes(v) + rest;
            && p != []
            && (v == NULL_TEXT ==> p[0] == NULL_MARK && p[1..] == rest)
            && (v != NULL_TEXT ==> p[0] != NULL_MARK && ReadString(p) == Some((v, rest)))
  {
    FirstByte(|v|);
    if v != NULL_TEXT {
      assert |LenEncString(v)| >= |v|;
      ReadStringOfLenEnc(v, rest);
    }
    hide LenEncInt, ReadString;
  }

  /** No row packet that can be sent looks like an EOF or an ERR packet: 0xFE at the front
      means a first cell of at least 2^24 bytes, which no packet holds. */
  lemma RowIsNotAnEnd(row: seq<bytes>)
    requires row != [] && Fits(RowPacket(row))
    ensures RowPacket(row) != [] && RowPacket(row)[0] != 0xFE && RowPacket(row)[0] != 0xFF
  {
    var v := row[0];
    FirstByte(|v|);
    assert RowPacket(row)[0] == CellBytes(v)[0];
    assert v != NULL_TEXT ==> |CellBytes(v)| >= |v|;
  }

  /** A column count never looks like an OK, ERR or null mark. */
  lemma CountIsNotAnotherKind(n: nat)
    requires n > 0
    ensures LenEncInt(n)[0] != 0x00 && LenEncInt(n)[0] != 0xFF && LenEncInt(n)[0] != 0xFB
  {
    FirstByte(n);
  }
}
