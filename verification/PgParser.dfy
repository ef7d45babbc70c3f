/** The byte parser of the PostgreSQL proxy (pkg/pgparser/parser.go). */
module PgParser {
  import opened ByteStrings
  import opened MessageTypes
  import opened Wire

  // ---------- splitting at NULs ----------

  /** The bytes before the first NUL. */
  function BeforeNull(b: bytes): (r: bytes)
    ensures |r| <= |b| && r == b[..|r|] && NoNull(r)
    ensures |r| < |b| ==> b[|r|] == 0
  {
    if b == [] || b[0] == 0 then [] else [b[0]] + BeforeNull(b[1..])
  }

  /** The pieces between NULs; a final piece counts only if it is not empty. */
  function Pieces(b: bytes): seq<bytes>
    decreases |b|
  {
    if b == [] then []
    else
      var first := BeforeNull(b);
      [first] + if |first| < |b| then Pieces(b[|first| + 1..]) else []
  }

  /** Pieces, each followed by a NUL. */
  function Join(parts: seq<bytes>): bytes {
    if parts == [] then [] else parts[0] + [0] + Join(parts[1..])
  }

  lemma {:induction false} BeforeNullIs(a: bytes, rest: bytes)
    requires NoNull(a) && (rest == [] || rest[0] == 0)
    ensures BeforeNull(a + rest) == a
  {
    if a == [] {
      assert a + rest == rest;
    } else {
      assert (a + rest)[1..] == a[1..] + rest;
      BeforeNullIs(a[1..], rest);
    }
  }

  lemma PiecesStep(a: bytes, rest: bytes)
    requires NoNull(a)
    ensures Pieces(a + [0] + rest) == [a] + Pieces(rest)
  {
    var b := a + [0] + rest;
    assert b == a + ([0] + rest);
    BeforeNullIs(a, [0] + rest);
    assert b[|a| + 1..] == rest;
  }

  lemma PiecesEnd(a: bytes)
    requires NoNull(a)
    ensures Pieces(a) == if a == [] then [] else [a]
  {
    assert a + [] == a;
    BeforeNullIs(a, []);
  }

  lemma SplitHere(b: bytes, start: nat, i: nat)
    requires start <= i < |b| && b[i] == 0
    ensures b[start..] == b[start..i] + [0] + b[i + 1..]
  {
  }

  /** splitNull: one pass with the start of the current piece. */
  method SplitNull(b: bytes) returns (parts: seq<bytes>)
    ensures parts == Pieces(b)
  {
    hide Pieces, BeforeNull;
    parts := [];
    var start := 0;
    assert b[0..] == b;
    for i := 0 to |b|
      invariant 0 <= start <= i && forall k :: start <= k < i ==> b[k] != 0
      invariant parts + Pieces(b[start..]) == Pieces(b)
    {
      if b[i] == 0 {
        SplitHere(b, start, i);
        PiecesStep(b[start..i], b[i + 1..]);
        assert parts + [b[start..i]] + Pieces(b[i + 1..]) == parts + Pieces(b[start..]);
        parts := parts + [b[start..i]];
        start := i + 1;
      }
    }
    assert b[start..|b|] == b[start..];
    PiecesEnd(b[start..]);
    if start < |b| {
      parts := parts + [b[start..]];
    }
  }

  /** splitNull loses nothing: the pieces are free of NULs and, each closed by a NUL, give
      back the input, except that a last NUL is supplied where the input has none. */
  lemma {:induction false} SplitLosesNothing(b: bytes)
    ensures forall p <- Pieces(b) :: NoNull(p)
    ensures Join(Pieces(b)) == if b == [] || b[|b| - 1] == 0 then b else b + [0]
    decreases |b|
  {
    hide BeforeNull, NoNull;
    if b != [] {
      var first := BeforeNull(b);
      if |first| < |b| {
        var rest := b[|first| + 1..];
        SplitLosesNothing(rest);
        PieceThenNull(b);
        hide Pieces;
        JoinStep(first, Pieces(rest));
        NullPutBack(first, rest, Join(Pieces(rest)));
      } else {
        assert first == b;
        NoNullAtEnd(b);
        JoinStep(b, []);
      }
    }
  }

  lemma NoNullAtEnd(b: bytes)
    requires b != [] && NoNull(b)
    ensures b[|b| - 1] != 0
  {
  }

  lemma PieceThenNull(b: bytes)
    requires |BeforeNull(b)| < |b|
    ensures var first := BeforeNull(b);
            var rest := b[|first| + 1..];
            b == first + [0] + rest && Pieces(b) == [first] + Pieces(rest)
  {
    hide NoNull, BeforeNull;
    SplitHere(b, 0, |BeforeNull(b)|);
    assert b[0..] == b;
  }

  lemma JoinStep(part: bytes, more: seq<bytes>)
    ensures Join([part] + more) == part + [0] + Join(more)
    ensures Join([]) == [] && [part] + [] == [part] && part + [0] + [] == part + [0]
  {
    assert ([part] + more)[1..] == more;
  }

  lemma NullPutBack(first: bytes, rest: bytes, joined: bytes)
    requires joined == if rest == [] || rest[|rest| - 1] == 0 then rest else rest + [0]
    ensures var b := first + [0] + rest;
            first + [0] + joined == if b[|b| - 1] == 0 then b else b + [0]
  {
    assert first + [0] + (rest + [0]) == first + [0] + rest + [0];
  }

  /** And it finds exactly the pieces that were put together. */
  lemma {:induction false} SplitUndoesJoin(parts: seq<bytes>)
    requires forall p <- parts :: NoNull(p)
    ensures Pieces(Join(parts)) == parts
  {
    if parts != [] {
      PiecesStep(parts[0], Join(parts[1..]));
      SplitUndoesJoin(parts[1..]);
    }
  }

  /** trimNull. */
  method TrimNull(b: bytes) returns (r: bytes)
    ensures r == BeforeNull(b)
  {
    for i := 0 to |b|
      invariant NoNull(b[..i])
    {
      if b[i] == 0 {
        assert b == b[..i] + b[i..];
        BeforeNullIs(b[..i], b[i..]);
        return b[..i];
      }
    }
    assert b[..|b|] + [] == b;
    BeforeNullIs(b, []);
    return b;
  }

  // ---------- query texts ----------

  function Extracted(kind: byte, payload: bytes): bytes {
    if kind == QUERY then BeforeNull(payload)
    else if kind == PARSE && |Pieces(payload)| >= 2 then Pieces(payload)[1]
    else []
  }

  method ExtractSQL(kind: byte, payload: bytes) returns (sql: bytes)
    ensures sql == Extracted(kind, payload)
  {
    if kind == QUERY {
      sql := TrimNull(payload);
      return;
    }
    if kind == PARSE {
      var parts := SplitNull(payload);
      if |parts| >= 2 {
        return parts[1];
      }
    }
    return [];
  }

  method ExtractStatementName(payload: bytes) returns (name: bytes)
    ensures name == if Pieces(payload) != [] then Pieces(payload)[0] else []
  {
    var parts := SplitNull(payload);
    if |parts| >= 1 {
      return parts[0];
    }
    return [];
  }

  /** On a Parse message, whatever binary data follows, the query is found, and so is the
      statement name; on a Query message the text is found. */
  lemma QueryTextRoundTrip(name: bytes, query: bytes, tail: bytes)
    requires NoNull(name) && NoNull(query)
    ensures Extracted(PARSE, name + [0] + (query + [0] + tail)) == query
    ensures Pieces(name + [0] + (query + [0] + tail))[0] == name
    ensures Extracted(QUERY, query + [0] + tail) == query
  {
    hide Pieces, BeforeNull, NoNull;
    PiecesStep(name, query + [0] + tail);
    PiecesStep(query, tail);
    assert query + [0] + tail == query + ([0] + tail);
    BeforeNullIs(query, [0] + tail);
  }

  /** Elsewhere: a Query may lack its NUL, and so may the query of a Parse, unless it is empty; a
      Parse without a NUL after the name has no text, nor has any other message. */
  lemma TextsOfMalformed(kind: byte, name: bytes, query: bytes, any: bytes)
    requires NoNull(name) && NoNull(query)
    ensures Extracted(0x51, query) == query
    ensures Extracted(0x50, name + [0] + query) == query
    ensures Extracted(0x50, name) == []
    ensures kind != 0x51 && kind != 0x50 ==> Extracted(kind, any) == []
  {
    hide Pieces, BeforeNull, NoNull;
    PiecesStep(name, query);
    PiecesEnd(query);
    PiecesEnd(name);
    assert query + [] == query;
    BeforeNullIs(query, []);
  }

  // ---------- the startup message ----------

  datatype Startup = Startup(version: nat, params: map<bytes, bytes>)

  /** The index of the next NUL, or None. */
  function NextNull(buf: bytes, start: nat): (r: Option<nat>)
    ensures r.Some? ==> start <= r.value < |buf| && buf[r.value] == 0
    decreases |buf| - start
  {
    if start >= |buf| then None else if buf[start] == 0 then Some(start) else NextNull(buf, start + 1)
  }

  method FindNull(buf: bytes, start: nat) returns (r: int)
    ensures r == match NextNull(buf, start) case None => -1 case Some(i) => i
  {
    var i := start;
    while i < |buf|
      invariant start <= i && NextNull(buf, i) == NextNull(buf, start)
    {
      if buf[i] == 0 {
        return i;
      }
      i := i + 1;
    }
    return -1;
  }

  /** The pairs from position `i` on, later ones overriding earlier ones. */
  function Params(buf: bytes, i: nat, sofar: map<bytes, bytes>): map<bytes, bytes>
    decreases |buf| - i
  {
    if i >= |buf| then sofar
    else match NextNull(buf, i)
      case None => sofar
      case Some(keyEnd) =>
        match NextNull(buf, keyEnd + 1)
        case None => sofar
        case Some(valEnd) => Params(buf, valEnd + 1, sofar[buf[i..keyEnd] := buf[keyEnd + 1..valEnd]])
  }

  function Parsed(raw: bytes): Option<Startup> {
    if |raw| < 8 then None else Some(Startup(FromBE(raw[4..8]), Params(raw[8..], 0, map[])))
  }

  lemma ParamsPair(buf: bytes, i: nat, sofar: map<bytes, bytes>, keyEnd: nat, valEnd: nat)
    requires i < |buf| && NextNull(buf, i) == Some(keyEnd) && NextNull(buf, keyEnd + 1) == Some(valEnd)
    ensures Params(buf, i, sofar) == Params(buf, valEnd + 1, sofar[buf[i..keyEnd] := buf[keyEnd + 1..valEnd]])
  {
    hide NextNull;
  }

  /** Where no further pair begins, the pairs so far are all. */
  lemma ParamsStop(buf: bytes, i: nat, sofar: map<bytes, bytes>)
    ensures i >= |buf| || NextNull(buf, i) == None ==> Params(buf, i, sofar) == sofar
    ensures NextNull(buf, i).Some? && NextNull(buf, NextNull(buf, i).value + 1) == None ==>
              Params(buf, i, sofar) == sofar
  {
    hide NextNull;
  }

  /** The cursor moves forward by at least two bytes a round, so the loop always ends. */
  method ParseStartupMessage(raw: bytes) returns (r: Option<Startup>)
    ensures r == Parsed(raw)
  {
    hide NextNull, FromBE, Params;
    if |raw| < 8 {
      return None;
    }
    var version := FromBE(raw[4..8]);
    var params := map[];
    var buf := raw[8..];
    var i := 0;
    while i < |buf|
      invariant 0 <= i <= |buf|
      invariant Params(buf, i, params) == Params(buf, 0, map[])
      decreases |buf| - i
    {
      var keyEnd := FindNull(buf, i);
      ParamsStop(buf, i, params);
      if keyEnd < 0 {
        break;
      }
      var key := buf[i..keyEnd];
      var valEnd := FindNull(buf, keyEnd + 1);
      if valEnd < 0 {
        break;
      }
      var val := buf[keyEnd + 1..valEnd];
      ParamsPair(buf, i, params, keyEnd, valEnd);
      params := params[key := val];
      i := valEnd + 1;
    }
    ParamsStop(buf, i, params);
    return Some(Startup(version, params));
  }

  // ---------- reading the startup message off the connection ----------

  /** The packet at the front of the input, its length field included; the length is signed. */
  function StartupPacket(input: bytes): (r: (Option<bytes>, bytes))
    ensures r.0.Some? ==> r.0.value + r.1 == input
  {
    if |input| < 4 then (None, [])
    else
      var length := FromBE(input[..4]);
      if length < 4 || length >= 0x8000_0000 then (None, input[4..])
      else if |input| < length then (None, [])
      else (Some(input[..length]), input[length..])
  }

  method ReadStartupRaw(conn: Conn) returns (raw: Option<bytes>)
    modifies conn`input
    ensures (raw, conn.input) == StartupPacket(old(conn.input))
  {
    var lenBuf := new byte[4];
    var ok := conn.ReadFull(lenBuf);
    if !ok {
      return None;
    }
    var totalLen := FromBE(lenBuf[..]);
    if totalLen < 4 || totalLen >= 0x8000_0000 {
      return None;
    }
    var restBuf := new byte[totalLen - 4];
    ok := conn.ReadFull(restBuf);
    if !ok {
      return None;
    }
    assert lenBuf[..] + restBuf[..] == old(conn.input)[..totalLen];
    return Some(lenBuf[..] + restBuf[..]);
  }

  // ---------- startup round trip ----------

  datatype Pair = Pair(key: bytes, value: bytes)

  predicate Clean(pairs: seq<Pair>) {
    forall i :: 0 <= i < |pairs| ==> NoNull(pairs[i].key) && NoNull(pairs[i].value)
  }

  function Listed(pairs: seq<Pair>): bytes {
    if pairs == [] then []
    else pairs[0].key + [0] + (pairs[0].value + [0] + Listed(pairs[1..]))
  }

  /** What a client sends: the total length, the version, the pairs and a final NUL. */
  function StartupMessage(version: nat, pairs: seq<Pair>): bytes {
    BE(|Listed(pairs)| + 9, 4) + BE(version, 4) + (Listed(pairs) + [0])
  }

  /** The last value given for each key. */
  function LastWins(pairs: seq<Pair>): map<bytes, bytes> {
    if pairs == [] then map[]
    else
      var p := pairs[|pairs| - 1];
      LastWins(pairs[..|pairs| - 1])[p.key := p.value]
  }

  lemma {:induction false} NextNullIs(a: bytes, s: bytes, b: bytes, k: nat)
    requires NoNull(s) && k <= |s|
    ensures NextNull(a + (s + [0] + b), |a| + k) == Some(|a| + |s|)
    decreases |s| - k
  {
    var buf := a + (s + [0] + b);
    if k < |s| {
      assert buf[|a| + k] == s[k];
      NextNullIs(a, s, b, k + 1);
    } else {
      assert buf[|a| + k] == 0;
    }
  }

  lemma NextNullAtEnd(buf: bytes)
    ensures NextNull(buf, |buf|) == None
  {
  }

  /** No pair is complete in these bytes. */
  predicate OneNullAtMost(b: bytes) {
    forall i, j :: 0 <= i < j < |b| ==> b[i] != 0 || b[j] != 0
  }

  lemma {:induction false} ParamsOfListed(a: bytes, pairs: seq<Pair>, tail: bytes, done: seq<Pair>)
    requires Clean(pairs) && OneNullAtMost(tail)
    ensures Params(a + (Listed(pairs) + tail), |a|, LastWins(done)) == LastWins(done + pairs)
    decreases |pairs|
  {
    hide Params, NoNull, LastWins, OneNullAtMost;
    var buf := a + (Listed(pairs) + tail);
    if pairs == [] {
      assert [] + tail == tail;
      ParamsEnd(a, tail, LastWins(done));
      assert done + pairs == done;
    } else {
      var p, more := pairs[0], pairs[1..];
      var rest := Listed(more) + tail;
      assert buf == a + (p.key + [0] + (p.value + [0] + rest));
      ParamsStep(a, p.key, p.value, rest, LastWins(done));
      var a2 := a + (p.key + [0] + (p.value + [0]));
      assert buf == a2 + rest;
      LastWinsStep(done, pairs);
      ParamsOfListed(a2, more, tail, done + [p]);
    }
  }

  lemma LastWinsStep(done: seq<Pair>, pairs: seq<Pair>)
    requires pairs != []
    ensures LastWins(done + [pairs[0]]) == LastWins(done)[pairs[0].key := pairs[0].value]
    ensures done + [pairs[0]] + pairs[1..] == done + pairs
  {
    assert (done + [pairs[0]])[..|done|] == done;
    assert [pairs[0]] + pairs[1..] == pairs;
  }

  /** A key without a value, or neither, ends the loop. */
  lemma ParamsEnd(a: bytes, tail: bytes, sofar: map<bytes, bytes>)
    requires OneNullAtMost(tail)
    ensures Params(a + tail, |a|, sofar) == sofar
  {
    hide NextNull;
    var buf := a + tail;
    ParamsStop(buf, |a|, sofar);
    assert forall i :: |a| <= i < |buf| ==> buf[i] == tail[i - |a|];
  }

  /** One round of the loop. */
  lemma ParamsStep(a: bytes, key: bytes, value: bytes, rest: bytes, sofar: map<bytes, bytes>)
    requires NoNull(key) && NoNull(value)
    ensures var buf := a + (key + [0] + (value + [0] + rest));
            Params(buf, |a|, sofar) == Params(buf, |a| + |key| + |value| + 2, sofar[key := value])
  {
    hide NextNull;
    var buf := a + (key + [0] + (value + [0] + rest));
    NextNullIs(a, key, value + [0] + rest, 0);
    PairSlices(a, key, value, rest);
    NextNullIs(a + (key + [0]), value, rest, 0);
  }

  lemma PairSlices(a: bytes, key: bytes, value: bytes, rest: bytes)
    ensures var buf := a + (key + [0] + (value + [0] + rest));
            var start := |a| + |key| + 1;
            && buf == a + (key + [0]) + (value + [0] + rest)
            && buf[|a|..|a| + |key|] == key && buf[start..start + |value|] == value
  {
  }

  lemma {:induction false} NextNullIsFirst(buf: bytes, start: nat)
    requires start <= |buf|
    ensures var r := NextNull(buf, start);
            forall k :: start <= k < (if r.Some? then r.value else |buf|) ==> buf[k] != 0
    decreases |buf| - start
  {
    if start < |buf| && buf[start] != 0 {
      NextNullIsFirst(buf, start + 1);
    }
  }

  /** Any bytes are complete pairs followed by an incomplete one. */
  lemma {:induction false} PairsExist(buf: bytes) returns (pairs: seq<Pair>, tail: bytes)
    ensures Clean(pairs) && OneNullAtMost(tail) && buf == Listed(pairs) + tail
    decreases |buf|
  {
    hide NextNull;
    pairs, tail := [], buf;
    NextNullIsFirst(buf, 0);
    if NextNull(buf, 0).Some? {
      var k := NextNull(buf, 0).value;
      NextNullIsFirst(buf, k + 1);
      if NextNull(buf, k + 1).Some? {
        var m := NextNull(buf, k + 1).value;
        var more;
        more, tail := PairsExist(buf[m + 1..]);
        pairs := [Pair(buf[..k], buf[k + 1..m])] + more;
        assert pairs[1..] == more;
        assert buf == buf[..k] + [0] + (buf[k + 1..m] + [0] + buf[m + 1..]);
        assert buf[..k] + [0] + (buf[k + 1..m] + [0] + (Listed(more) + tail)) == Listed(pairs) + tail;
      }
    }
  }

  lemma FromBE4(b: bytes)
    requires |b| == 4
    ensures FromBE(b) == 0x100_0000 * b[0] as int + 0x1_0000 * b[1] as int + 0x100 * b[2] as int + b[3] as int
  {
    assert b[..3][..2] == b[..2] && b[..2][..1] == b[..1];
    assert FromBE(b[..1]) == 256 * FromBE(b[..1][..0]) + b[0];
    assert FromBE(b[..2]) == 256 * FromBE(b[..1]) + b[1];
    assert FromBE(b[..3]) == 256 * FromBE(b[..2]) + b[2];
  }

  /** Every startup message of at least eight bytes is parsed, malformed ones, too: the version is
      that of bytes 4 to 7, big-endian, and the parameters are the complete pairs after them. */
  lemma AnyStartupParses(raw: bytes, pairs: seq<Pair>, tail: bytes)
    requires Clean(pairs) && OneNullAtMost(tail)
    requires |raw| >= 8 ==> raw[8..] == Listed(pairs) + tail
    ensures Parsed(raw) ==
            if |raw| < 8 then None
            else
              var version := 0x100_0000 * raw[4] as int + 0x1_0000 * raw[5] as int + 0x100 * raw[6] as int
                             + raw[7] as int;
              Some(Startup(version, LastWins(pairs)))
  {
    if |raw| >= 8 {
      FromBE4(raw[4..8]);
      hide FromBE, Params;
      ParamsOfListed([], pairs, tail, []);
      assert [] + pairs == pairs && [] + raw[8..] == raw[8..];
    }
  }

  /** A message is taken off the connection if and only if its signed length counts itself and that
      many bytes come; then it has that length, and nothing more is taken. */
  lemma StartupTakenExactlyWhen(input: bytes)
    ensures var (raw, rest) := StartupPacket(input);
            && (raw.Some? <==>
                  && |input| >= 4 && input[0] < 0x80
                  && 4 <= 0x100_0000 * input[0] as int + 0x1_0000 * input[1] as int + 0x100 * input[2] as int
                          + input[3] as int <= |input|)
            && (raw.Some? ==>
                  && raw.value + rest == input
                  && |raw.value| == 0x100_0000 * input[0] as int + 0x1_0000 * input[1] as int
                                    + 0x100 * input[2] as int + input[3] as int)
  {
    if |input| >= 4 {
      FromBE4(input[..4]);
      hide FromBE;
    }
  }

  /** Startup round trip: for every list of NUL-free pairs, empty keys and repeated keys
      included, the parser returns the version and the last value of every key. */
  lemma StartupRoundTrip(version: uint32, pairs: seq<Pair>)
    requires Clean(pairs)
    ensures Parsed(StartupMessage(version, pairs)) == Some(Startup(version, LastWins(pairs)))
  {
    var raw := StartupMessage(version, pairs);
    assert raw[4..8] == BE(version, 4);
    assert raw[8..] == [] + (Listed(pairs) + [0]);
    Pow256Values();
    FromBEOfBE(version, 4);
    ParamsOfListed([], pairs, [0], []);
    assert [] + pairs == pairs;
  }

  /** And the message is taken off the connection whole, leaving what follows it. */
  lemma StartupReadsWhole(version: uint32, pairs: seq<Pair>, tail: bytes)
    requires |Listed(pairs)| + 9 < 0x8000_0000
    ensures StartupPacket(StartupMessage(version, pairs) + tail) == (Some(StartupMessage(version, pairs)), tail)
  {
    var message := StartupMessage(version, pairs);
    var input := message + tail;
    assert input[..4] == BE(|message|, 4);
    Pow256Values();
    FromBEOfBE(|message|, 4);
  }
}
