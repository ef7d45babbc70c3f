/** The handshake response read without positions: a reader that takes each field off the front of
    what is left. The proxy's parser reads the same from every payload it does not panic on. */
module HandshakeReader {
  import opened ByteStrings
  import opened LenEnc
  import opened Handshake
  import opened MySqlClient

  // ---------- integers of any bytes ----------

  /** decodeLenEncInt on every input: it reads what a client's reader reads, through Go's int; where
      that reader refuses, at the marks 0xFB and 0xFF and at a cut-off value, it takes one byte and
      gives 255 for 0xFF and 0 for the others. */
  lemma DecodesWhatIsRead(data: bytes, pos: nat)
    requires pos <= |data|
    ensures DecodeLenEncInt(data, pos) ==
            match ReadInt(data[pos..])
            case Some((v, rest)) =>
              (if v < 0x8000_0000_0000_0000 then v else v - 0x1_0000_0000_0000_0000, |data| - |rest|)
            case None =>
              if pos == |data| then (0, pos) else (if data[pos] == 0xFF then 255 else 0, pos + 1)
    ensures ReadInt(data[pos..]).Some? ==> ReadInt(data[pos..]).value.0 < 0x1_0000_0000_0000_0000
  {
    if pos < |data| {
      var b := data[pos..];
      assert b[0] == data[pos];
      FixedReads(data, pos, 2);
      FixedReads(data, pos, 3);
      FixedReads(data, pos, 8);
    }
  }

  lemma FixedReads(data: bytes, pos: nat, n: nat)
    requires pos < |data| && n in {2, 3, 8}
    ensures var r := ReadFixed(data[pos..][1..], n);
            if pos + 1 + n > |data| then r == None
            else
              && r == Some((FromLE(data[pos + 1..pos + 1 + n]), data[pos + 1 + n..]))
              && FromLE(data[pos + 1..pos + 1 + n]) < TWO_64
  {
    var b := data[pos..][1..];
    assert b == data[pos + 1..];
    if pos + 1 + n <= |data| {
      assert b[..n] == data[pos + 1..pos + 1 + n] && b[n..] == data[pos + 1 + n..];
      FromLEBound(b[..n]);
      Pow256Values();
    }
  }

  // ---------- fields ----------

  /** A text up to its NUL, or to the end, and what follows. */
  function ReadText(b: bytes): (r: (bytes, bytes))
    ensures |r.0| + |r.1| <= |b|
  {
    if b == [] then ([], [])
    else if b[0] == 0 then ([], b[1..])
    else
      var (text, rest) := ReadText(b[1..]);
      ([b[0]] + text, rest)
  }

  /** So many bytes and what follows; nothing if there are fewer. */
  function ReadBytes(n: nat, b: bytes): (bytes, bytes) {
    if n <= |b| then (b[..n], b[n..]) else ([], b)
  }

  /** The auth data, in the form the flags announce: after an integer, after a byte, or up to a NUL,
      which is left. */
  function ReadAuth(capability: nat, b: bytes): (bytes, bytes) {
    if (capability / 0x20_0000) % 2 == 1 then
      match ReadInt(b)
      case Some((n, rest)) => ReadBytes(n, rest)
      case None => if b == [] then ([], []) else ReadBytes(if b[0] == 0xFF then 255 else 0, b[1..])
    else if (capability / 0x8000) % 2 == 1 then
      if b == [] then ([], []) else ReadBytes(b[0], b[1..])
    else
      var (text, _) := ReadText(b);
      (text, b[|text|..])
  }

  function ReadResponse(payload: bytes): Response
    requires |payload| >= 9
  {
    FourBytes(payload[..4]);
    FourBytes(payload[4..8]);
    var capability := FromLE(payload[..4]);
    var (username, b1) := ReadText(payload[if |payload| < 32 then |payload| else 32..]);
    var (auth, b2) := ReadAuth(capability, b1);
    var (database, b3) := if (capability / 0x8) % 2 == 1 then ReadText(b2) else ([], b2);
    var (plugin, _) := if (capability / 0x8_0000) % 2 == 1 then ReadText(b3) else ([], b3);
    Response(capability, FromLE(payload[4..8]), payload[8], username, auth, database, plugin)
  }

  lemma FourBytes(b: bytes)
    requires |b| == 4
    ensures FromLE(b) < 0x1_0000_0000
  {
    FromLEBound(b);
    Pow256Values();
  }

  // ---------- that they are the same ----------

  function From(data: bytes, pos: nat): bytes {
    if pos < |data| then data[pos..] else []
  }

  lemma {:induction false} TextAtNull(data: bytes, pos: nat)
    requires pos <= |data|
    ensures var end := FindNull(data, pos);
            ReadText(data[pos..]) == (data[pos..end], From(data, end + 1))
    decreases |data| - pos
  {
    if pos < |data| {
      assert data[pos..][0] == data[pos] && data[pos..][1..] == data[pos + 1..];
      if data[pos] != 0 {
        TextAtNull(data, pos + 1);
        var end := FindNull(data, pos + 1);
        assert [data[pos]] + data[pos + 1..end] == data[pos..end];
      } else {
        assert data[pos..pos] == [] && From(data, pos + 1) == data[pos + 1..];
      }
    } else {
      assert data[pos..] == [] && data[pos..|data|] == [];
    }
  }

  lemma TextsAgree(data: bytes, pos: nat)
    ensures var (text, next) := TextField(data, pos);
            ReadText(From(data, pos)) == (text, From(data, next))
  {
    hide ReadText;
    if pos < |data| {
      TextAtNull(data, pos);
    } else {
      NoText();
    }
  }

  lemma NoText()
    ensures ReadText([]) == ([], [])
  {
  }

  /** So many bytes, unless the sum of length and position overflows. */
  lemma BytesAgree(data: bytes, length: int64, pos: nat)
    requires pos <= |data| <= MAX_LEN && AuthData(data, length, pos).Some?
    ensures var (auth, next) := AuthData(data, length, pos).value;
            ReadBytes(if length < 0 then length + 0x1_0000_0000_0000_0000 else length, From(data, pos)) ==
            (auth, From(data, next))
  {
    var b := data[pos..];
    assert From(data, pos) == b;
    if 0 <= length && pos + length <= |data| {
      assert b[..length] == data[pos..pos + length] && b[length..] == data[pos + length..];
      assert From(data, pos + length) == data[pos + length..];
    } else {
      assert |b| == |data| - pos;
    }
  }

  lemma AuthsAgree(capability: nat, data: bytes, pos: nat)
    requires |data| <= MAX_LEN && pos <= MAX_LEN + 1
    requires var (length, p2) := AuthLength(capability, data, pos); AuthData(data, length, p2).Some?
    ensures var (length, p2) := AuthLength(capability, data, pos);
            var (auth, next) := AuthData(data, length, p2).value;
            ReadAuth(capability, From(data, pos)) == (auth, From(data, next))
  {
    hide ReadText, ReadInt, ReadBytes, DecodeLenEncInt, FindNull, AuthData;
    var (length, p2) := AuthLength(capability, data, pos);
    if pos >= |data| {
      NoAuth(capability, data, pos);
    } else if Has(capability, CLIENT_PLUGIN_AUTH_LENENC) {
      DecodesWhatIsRead(data, pos);
      BytesAgree(data, length, p2);
      match ReadInt(data[pos..]) {
        case Some((n, rest)) => ReadIntLeaves(data, pos);
        case None => assert data[pos..][1..] == From(data, pos + 1);
      }
    } else if Has(capability, CLIENT_SECURE_CONNECTION) {
      BytesAgree(data, length, p2);
      assert data[pos..][1..] == From(data, pos + 1);
    } else {
      TextAtNull(data, pos);
      BytesAgree(data, length, p2);
      AuthToNull(data, pos);
    }
  }

  lemma AuthToNull(data: bytes, pos: nat)
    requires pos < |data| <= MAX_LEN
    ensures var end := FindNull(data, pos);
            && AuthData(data, end - pos, pos) == Some((data[pos..end], end))
            && data[pos..][|data[pos..end]|..] == From(data, end)
  {
    hide FindNull;
    var end := FindNull(data, pos);
    assert |data[pos..end]| == end - pos;
    assert data[pos..][end - pos..] == data[end..] == From(data, end);
  }

  lemma NoAuth(capability: nat, data: bytes, pos: nat)
    requires |data| <= pos <= MAX_LEN + 1 && |data| <= MAX_LEN
    ensures ReadAuth(capability, []) == ([], [])
    ensures var (length, p2) := AuthLength(capability, data, pos);
            AuthData(data, length, p2) == Some(([], pos)) && From(data, pos) == []
  {
    NoText();
  }

  lemma ReadIntLeaves(data: bytes, pos: nat)
    requires pos < |data| && ReadInt(data[pos..]).Some?
    ensures var rest := ReadInt(data[pos..]).value.1; From(data, |data| - |rest|) == rest
  {
    hide ReadInt;
    var b := data[pos..];
    var rest := ReadInt(b).value.1;
    ReadIntSuffix(b);
    assert b[|b| - |rest|..] == data[|data| - |rest|..];
  }

  lemma ReadIntSuffix(b: bytes)
    requires ReadInt(b).Some?
    ensures var rest := ReadInt(b).value.1; rest == b[|b| - |rest|..]
  {
  }

  /** For every payload on which the parser does not panic and that is not refused, cut off, without
      NULs, or with any lengths announced: the fields are those of the reader. */
  lemma ParsesWhatIsRead(payload: bytes)
    requires |payload| <= MAX_LEN && Parse(payload).Parsed?
    ensures |payload| >= 9 && Parse(payload) == Parsed(ReadResponse(payload))
  {
    hide ReadText, ReadAuth, TextField, AuthLength, AuthData, FromLE, FindNull;
    var capability := FromLE(payload[..4]);
    assert From(payload, 32) == payload[if |payload| < 32 then |payload| else 32..];
    TextsAgree(payload, 32);
    var (_, p1) := TextField(payload, 32);
    AuthsAgree(capability, payload, p1);
    var (length, p2) := AuthLength(capability, payload, p1);
    var (_, p3) := AuthData(payload, length, p2).value;
    TextsAgree(payload, p3);
    TextsAgree(payload, if Has(capability, CLIENT_CONNECT_WITH_DB) then TextField(payload, p3).1 else p3);
  }
}
