/** The packets the MySQL proxy builds (pkg/mysqlproxy/protocol.go, proxy.go). */
module Packets {
  import opened ByteStrings
  import opened LenEnc
  import opened Http
  import Text = SqlText

  const OK_MARK: byte := 0x00
  const EOF_MARK: byte := 0xFE
  const ERR_MARK: byte := 0xFF
  const NULL_MARK: byte := 0xFB
  const AUTOCOMMIT: uint16 := 0x0002
  const UTF8MB4: uint16 := 45
  const TYPE_VAR_STRING: byte := 0xFD

  // ---------- OK, ERR and EOF ----------

  function OkPacket(affected: uint64, lastId: uint64, status: uint16, warnings: uint16, info: bytes): bytes {
    [OK_MARK] + LenEncInt(affected) + LenEncInt(lastId) + LE(status, 2) + LE(warnings, 2)
    + if info != [] then LenEncString(info) else []
  }

  method BuildOKPacket(affected: uint64, lastId: uint64, status: uint16, warnings: uint16, info: bytes)
    returns (buf: bytes)
    ensures buf == OkPacket(affected, lastId, status, warnings, info)
  {
    buf := [OK_MARK];
    var n := PutLenEncInt(affected);
    buf := buf + n[..];
    n := PutLenEncInt(lastId);
    buf := buf + n[..];
    buf := buf + LE(status, 2);
    buf := buf + LE(warnings, 2);
    if info != [] {
      buf := buf + LenEncString(info);
    }
  }

  /** An SQL state is five bytes: cut off, or padded with spaces. */
  function PadState(state: bytes): (r: bytes)
    ensures |r| == 5 && forall i :: 0 <= i < 5 ==> r[i] == if i < |state| then state[i] else 0x20
  {
    if |state| < 5 then state + seq(5 - |state|, _ => 0x20) else state[..5]
  }

  function ErrPacket(code: uint16, state: bytes, message: bytes): bytes {
    [ERR_MARK] + LE(code, 2) + [0x23] + PadState(state) + message
  }

  method BuildERRPacket(code: uint16, state: bytes, message: bytes) returns (buf: bytes)
    ensures buf == ErrPacket(code, state, message)
  {
    buf := [ERR_MARK];
    buf := buf + LE(code, 2);
    buf := buf + [0x23];
    var padded := state;
    if |padded| < 5 {
      padded := padded + [0x20, 0x20, 0x20, 0x20, 0x20][..5 - |state|];
    } else {
      padded := padded[..5];
    }
    assert padded == PadState(state);
    buf := buf + padded;
    buf := buf + message;
  }

  function EofPacket(warnings: uint16, status: uint16): bytes {
    [EOF_MARK] + LE(warnings, 2) + LE(status, 2)
  }

  method BuildEOFPacket(warnings: uint16, status: uint16) returns (buf: bytes)
    ensures buf == EofPacket(warnings, status)
  {
    buf := [EOF_MARK];
    buf := buf + LE(warnings, 2);
    buf := buf + LE(status, 2);
  }

  // ---------- column definitions ----------

  datatype ColumnDef = ColumnDef(
    catalog: bytes, schema: bytes, table: bytes, orgTable: bytes, name: bytes, orgName: bytes,
    charset: uint16, length: uint32, kind: byte, flags: uint16, decimals: byte)
  {
    function Fixed(): bytes {
      LE(charset, 2) + LE(length, 4) + [kind] + LE(flags, 2) + [decimals] + [0, 0]
    }

    function Names(): seq<bytes> {
      [catalog, schema, table, orgTable, name, orgName]
    }

    function Packed(): bytes {
      Strings(Names()) + (LenEncInt(12) + Fixed())
    }

    method Encode() returns (buf: bytes)
      ensures buf == Packed()
    {
      buf := [];
      buf := buf + LenEncString(catalog);
      buf := buf + LenEncString(schema);
      buf := buf + LenEncString(table);
      buf := buf + LenEncString(orgTable);
      buf := buf + LenEncString(name);
      buf := buf + LenEncString(orgName);
      StringsOfSix(catalog, schema, table, orgTable, name, orgName);
      var n := PutLenEncInt(0x0C);
      buf := buf + n[..];
      ghost var head := buf;
      buf := buf + LE(charset, 2);
      buf := buf + LE(length, 4);
      buf := buf + [kind];
      buf := buf + LE(flags, 2);
      buf := buf + [decimals];
      buf := buf + [0, 0];
      AppendSix(head, LE(charset, 2), LE(length, 4), [kind], LE(flags, 2), [decimals], [0, 0]);
      AppendTwo(Strings(Names()), n[..], Fixed());
    }
  }

  /** Length-encoded strings one after another. */
  function Strings(ss: seq<bytes>): bytes {
    if ss == [] then [] else LenEncString(ss[0]) + Strings(ss[1..])
  }

  lemma {:induction false} StringsAppend(ss: seq<bytes>, s: bytes)
    ensures Strings(ss + [s]) == Strings(ss) + LenEncString(s)
  {
    if ss == [] {
      assert Strings([s]) == LenEncString(s) + Strings([s][1..]);
    } else {
      StringsAppend(ss[1..], s);
      assert (ss + [s])[1..] == ss[1..] + [s];
    }
  }

  lemma StringsOfSix(a: bytes, b: bytes, c: bytes, d: bytes, e: bytes, f: bytes)
    ensures [] + LenEncString(a) + LenEncString(b) + LenEncString(c) + LenEncString(d) + LenEncString(e)
            + LenEncString(f) == Strings([a, b, c, d, e, f])
  {
    hide LenEncString;
    StringsAppend([], a);
    StringsAppend([a], b);
    StringsAppend([a, b], c);
    StringsAppend([a, b, c], d);
    StringsAppend([a, b, c, d], e);
    StringsAppend([a, b, c, d, e], f);
    assert [] + [a] == [a] && [a] + [b] == [a, b] && [a, b] + [c] == [a, b, c];
    assert [a, b, c] + [d] == [a, b, c, d] && [a, b, c, d] + [e] == [a, b, c, d, e];
    assert [a, b, c, d, e] + [f] == [a, b, c, d, e, f];
  }

  lemma AppendSix(h: bytes, a: bytes, b: bytes, c: bytes, d: bytes, e: bytes, f: bytes)
    ensures h + a + b + c + d + e + f == h + (a + b + c + d + e + f)
  {
    AppendTwo(h, a + b + c + d + e, f);
    AppendTwo(h, a + b + c + d, e);
    AppendTwo(h, a + b + c, d);
    AppendTwo(h, a + b, c);
    AppendTwo(h, a, b);
  }

  function ColumnNamed(name: bytes): ColumnDef {
    ColumnDef([0x64, 0x65, 0x66], [], [], [], name, name, UTF8MB4, 1024, TYPE_VAR_STRING, 0, 0)
  }

  // ---------- rows ----------

  function CellBytes(v: bytes): bytes {
    if v == NULL_TEXT then [NULL_MARK] else LenEncString(v)
  }

  function RowPacket(values: seq<bytes>): bytes {
    if values == [] then [] else CellBytes(values[0]) + RowPacket(values[1..])
  }

  lemma {:induction false} RowPacketAppend(values: seq<bytes>, v: bytes)
    ensures RowPacket(values + [v]) == RowPacket(values) + CellBytes(v)
  {
    hide CellBytes;
    if values == [] {
      assert [v][1..] == [];
      assert values + [v] == [v] && RowPacket([]) == [];
      assert RowPacket([v]) == CellBytes(v) + RowPacket([v][1..]);
      assert CellBytes(v) + [] == CellBytes(v) && [] + CellBytes(v) == CellBytes(v);
    } else {
      RowPacketAppend(values[1..], v);
      var all := values + [v];
      assert all[1..] == values[1..] + [v] && all[0] == values[0];
      hide RowPacket;
      RowPacketStep(all);
      RowPacketStep(values);
      AppendTwo(CellBytes(values[0]), RowPacket(values[1..]), CellBytes(v));
    }
  }

  lemma RowPacketStep(values: seq<bytes>)
    requires values != []
    ensures RowPacket(values) == CellBytes(values[0]) + RowPacket(values[1..])
  {
  }

  lemma EmptyRow()
    ensures RowPacket([]) == []
  {
  }

  method BuildResultSetRow(values: seq<bytes>) returns (buf: bytes)
    ensures buf == RowPacket(values)
  {
    hide RowPacket;
    buf := [];
    EmptyRow();
    for i := 0 to |values|
      invariant buf == RowPacket(values[..i])
    {
      RowPacketAppend(values[..i], values[i]);
      assert values[..i + 1] == values[..i] + [values[i]];
      if values[i] == NULL_TEXT {
        buf := buf + [0xFB];
      } else {
        buf := buf + LenEncString(values[i]);
      }
    }
    assert values[..|values|] == values;
  }

  // ---------- the answer to a query ----------

  function OkInfo(sql: bytes, affected: int64): bytes {
    Text.MySqlTag(sql, affected)
  }

  function ColumnPackets(columns: seq<bytes>): (r: seq<bytes>)
    ensures |r| == |columns|
  {
    seq(|columns|, i requires 0 <= i < |columns| => ColumnNamed(columns[i]).Packed())
  }

  function RowPackets(rows: seq<seq<bytes>>): (r: seq<bytes>)
    ensures |r| == |rows|
  {
    seq(|rows|, i requires 0 <= i < |rows| => RowPacket(rows[i]))
  }

  function ResultSet(result: QueryResponse, sql: bytes): (r: seq<bytes>)
    ensures |r| > 0
  {
    if result.columns == [] then
      [OkPacket(ToUint64(result.rowsAffected), 0, AUTOCOMMIT, 0, OkInfo(sql, result.rowsAffected))]
    else
      [LenEncInt(|result.columns|)] + ColumnPackets(result.columns) + [EofPacket(0, AUTOCOMMIT)]
      + RowPackets(result.rows) + [EofPacket(0, AUTOCOMMIT)]
  }

  method BuildResultSet(result: QueryResponse, sql: bytes) returns (packets: seq<bytes>)
    requires |result.columns| < TWO_64
    ensures packets == ResultSet(result, sql)
  {
    hide ColumnNamed, RowPacket, OkPacket, LenEncInt, EofPacket;
    packets := [];
    if |result.columns| == 0 {
      var info := Text.MySqlCommandTag(sql, result.rowsAffected);
      var ok := BuildOKPacket(ToUint64(result.rowsAffected), 0, AUTOCOMMIT, 0, info);
      packets := packets + [ok];
      return;
    }
    var count := PutLenEncInt(|result.columns|);
    packets := packets + [count[..]];
    for i := 0 to |result.columns|
      invariant packets == [LenEncInt(|result.columns|)] + ColumnPackets(result.columns)[..i]
    {
      var def := ColumnNamed(result.columns[i]).Encode();
      packets := packets + [def];
    }
    var eof := BuildEOFPacket(0, AUTOCOMMIT);
    packets := packets + [eof];
    ghost var head := packets;
    for i := 0 to |result.rows|
      invariant packets == head + RowPackets(result.rows)[..i]
    {
      var row := BuildResultSetRow(result.rows[i]);
      packets := packets + [row];
    }
    packets := packets + [eof];
  }
}
