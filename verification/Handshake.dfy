/** The client's handshake response (pkg/mysqlproxy/protocol.go). */
module Handshake {
  import opened ByteStrings
  import opened LenEnc

  const CLIENT_CONNECT_WITH_DB: nat := 0x8
  const CLIENT_SECURE_CONNECTION: nat := 0x8000
  const CLIENT_PLUGIN_AUTH: nat := 0x8_0000
  const CLIENT_PLUGIN_AUTH_LENENC: nat := 0x20_0000

  /** `capability & flag != 0` for a flag of one bit. */
  predicate Has(capability: nat, flag: nat)
    requires flag > 0
  {
    (capability / flag) % 2 == 1
  }

  datatype Response = Response(
    capability: uint32, maxPacketSize: uint32, charset: byte,
    username: bytes, auth: bytes, database: bytes, plugin: bytes)

  /** Crash stands for a Go run-time panic (a slice or an allocation out of range). */
  datatype Outcome = Parsed(resp: Response) | TooShort | Crash

  /** No Go slice is longer than the 48-bit address space. */
  const MAX_LEN: nat := 0x1_0000_0000_0000

  /** Go's int addition of two non-negative numbers: it wraps. */
  function AddInt(a: int64, b: int64): int64
    requires a >= 0 && b >= 0
  {
    var s: int := a as int + b as int;
    if s < TWO_63 then s else s - TWO_64
  }

  function FindNull(data: bytes, pos: nat): (r: nat)
    ensures r <= |data| && (pos <= |data| ==> pos <= r)
    decreases |data| - pos
  {
    if pos >= |data| then |data| else if data[pos] == 0 then pos else FindNull(data, pos + 1)
  }

  method FindNullFrom(data: bytes, pos: nat) returns (r: nat)
    ensures r == FindNull(data, pos)
  {
    var i := pos;
    while i < |data|
      invariant pos <= i && FindNull(data, i) == FindNull(data, pos)
    {
      if data[i] == 0x00 {
        return i;
      }
      i := i + 1;
    }
    return |data|;
  }

  // ---------- the parser, step by step ----------

  /** A NUL-terminated field at `pos` and the position after it; nothing at the end of data. */
  function TextField(data: bytes, pos: nat): (r: (bytes, nat))
    ensures r.1 <= if pos < |data| then |data| + 1 else pos
  {
    if pos < |data| then
      var end := FindNull(data, pos);
      (data[pos..end], end + 1)
    else ([], pos)
  }

  /** The announced length of the auth data and the position of the data. */
  function AuthLength(capability: nat, data: bytes, pos: nat): (r: (int64, nat))
    requires |data| <= MAX_LEN
    ensures r.1 <= if pos < |data| then |data| else pos
  {
    if Has(capability, CLIENT_PLUGIN_AUTH_LENENC) then DecodeLenEncInt(data, pos)
    else if Has(capability, CLIENT_SECURE_CONNECTION) then
      if pos < |data| then (data[pos], pos + 1) else (0, pos)
    else
      if pos < |data| then (FindNull(data, pos) - pos, pos) else (0, pos)
  }

  /** The auth data, or None for the panic of a length that overflows int. */
  function AuthData(data: bytes, length: int64, pos: nat): Option<(bytes, nat)>
    requires |data| <= MAX_LEN && pos <= MAX_LEN + 1
  {
    if length > 0 && AddInt(pos, length) <= |data| then
      if pos + length > |data| then None else Some((data[pos..pos + length], pos + length))
    else Some(([], pos))
  }

  /** The database and the plugin name after the auth data. */
  function Names(capability: nat, data: bytes, p3: nat): (bytes, bytes) {
    var (database, p4) := if Has(capability, CLIENT_CONNECT_WITH_DB) then TextField(data, p3) else ([], p3);
    var (plugin, _) := if Has(capability, CLIENT_PLUGIN_AUTH) then TextField(data, p4) else ([], p4);
    (database, plugin)
  }

  function Parse(payload: bytes): Outcome
    requires |payload| <= MAX_LEN
  {
    if |payload| < 4 then TooShort
    else if |payload| < 9 then Crash
    else
      FromLEBound(payload[..4]);
      FromLEBound(payload[4..8]);
      Pow256Values();
      var capability := FromLE(payload[..4]);
      var (username, p1) := TextField(payload, 32);
      var (length, p2) := AuthLength(capability, payload, p1);
      match AuthData(payload, length, p2)
      case None => Crash
      case Some((auth, p3)) =>
        var (database, plugin) := Names(capability, payload, p3);
        Parsed(Response(capability, FromLE(payload[4..8]), payload[8], username, auth, database, plugin))
  }

  /** The three lines the parser repeats for the user, the database and the plugin name. */
  method ReadText(payload: bytes, pos: nat) returns (text: bytes, next: nat)
    ensures (text, next) == TextField(payload, pos)
  {
    text, next := [], pos;
    if pos < |payload| {
      var end := FindNullFrom(payload, pos);
      text := payload[pos..end];
      next := end + 1;
    }
  }

  method ParseHandshakeResponse(payload: bytes) returns (r: Outcome)
    requires |payload| <= MAX_LEN
    ensures r == Parse(payload)
  {
    if |payload| < 4 {
      return TooShort;
    }
    if |payload| < 9 {
      return Crash;
    }
    hide Has, FromLE, FindNull, DecodeLenEncInt, Pow256, TextField;
    FromLEBound(payload[..4]);
    FromLEBound(payload[4..8]);
    Pow256Values();
    var resp := Response(0, 0, 0, [], [], [], []);
    var pos := 0;
    resp := resp.(capability := FromLE(payload[pos..pos + 4]));
    pos := pos + 4;
    resp := resp.(maxPacketSize := FromLE(payload[pos..pos + 4]));
    pos := pos + 4;
    resp := resp.(charset := payload[pos]);
    pos := pos + 1;
    pos := pos + 23;

    var username, next := ReadText(payload, pos);
    resp, pos := resp.(username := username), next;

    ghost var p1 := pos;
    var authLen: int64 := 0;
    if Has(resp.capability, CLIENT_PLUGIN_AUTH_LENENC) {
      var decoded := DecodeLenEncInt(payload, pos);
      authLen, pos := decoded.0, decoded.1;
    } else if Has(resp.capability, CLIENT_SECURE_CONNECTION) {
      if pos < |payload| {
        authLen := payload[pos];
        pos := pos + 1;
      }
    } else {
      if pos < |payload| {
        var end := FindNullFrom(payload, pos);
        authLen := end - pos;
      }
    }
    assert (authLen, pos) == AuthLength(resp.capability, payload, p1);
    hide AuthLength;

    ghost var p2 := pos;
    if authLen > 0 && AddInt(pos, authLen) <= |payload| {
      if pos + authLen > |payload| {
        return Crash;
      }
      resp := resp.(auth := payload[pos..pos + authLen]);
      pos := pos + authLen;
    }
    assert AuthData(payload, authLen, p2) == Some((resp.auth, pos));
    hide AuthData;

    if Has(resp.capability, CLIENT_CONNECT_WITH_DB) {
      var database, next := ReadText(payload, pos);
      resp, pos := resp.(database := database), next;
    }
    if Has(resp.capability, CLIENT_PLUGIN_AUTH) {
      var plugin, _ := ReadText(payload, pos);
      resp := resp.(plugin := plugin);
    }
    return Parsed(resp);
  }

  // ---------- what a client sends ----------

  /** The auth field in the form the capability flags choose. */
  function AuthField(capability: nat, auth: bytes): bytes {
    if Has(capability, CLIENT_PLUGIN_AUTH_LENENC) then LenEncString(auth)
    else if Has(capability, CLIENT_SECURE_CONNECTION) then [|auth| % 256] + auth
    else auth + [0]
  }

  predicate CarriesLength(capability: nat) {
    Has(capability, CLIENT_PLUGIN_AUTH_LENENC) || Has(capability, CLIENT_SECURE_CONNECTION)
  }

  /** A response a client can send: names without NUL, fields that are not flagged are absent,
      and an auth field its form can carry. */
  predicate Sendable(r: Response) {
    && NoNull(r.username) && NoNull(r.database) && NoNull(r.plugin)
    && (!Has(r.capability, CLIENT_CONNECT_WITH_DB) ==> r.database == [])
    && (!Has(r.capability, CLIENT_PLUGIN_AUTH) ==> r.plugin == [])
    && (!CarriesLength(r.capability) ==> NoNull(r.auth))
    && (CarriesLength(r.capability) && !Has(r.capability, CLIENT_PLUGIN_AUTH_LENENC) ==> |r.auth| < 256)
  }

  function Trailer(r: Response): bytes {
    (if Has(r.capability, CLIENT_CONNECT_WITH_DB) then r.database + [0] else [])
    + if Has(r.capability, CLIENT_PLUGIN_AUTH) then r.plugin + [0] else []
  }

  function Fixed(r: Response): (f: bytes)
    ensures |f| == 32
  {
    LE(r.capability, 4) + LE(r.maxPacketSize, 4) + [r.charset] + seq(23, _ => 0)
  }

  function Serialize(r: Response): bytes {
    Fixed(r) + (r.username + [0] + (AuthField(r.capability, r.auth) + Trailer(r)))
  }

  // ---------- round trip ----------

  lemma {:induction false} FindNullSkips(a: bytes, s: bytes, b: bytes, k: nat)
    requires NoNull(s) && k <= |s|
    ensures FindNull(a + (s + [0] + b), |a| + k) == |a| + |s|
    decreases |s| - k
  {
    var data := a + (s + [0] + b);
    if k < |s| {
      assert data[|a| + k] == s[k];
      FindNullSkips(a, s, b, k + 1);
    } else {
      assert data[|a| + k] == 0;
    }
  }

  lemma TextFieldIs(a: bytes, s: bytes, b: bytes)
    requires NoNull(s)
    ensures TextField(a + (s + [0] + b), |a|) == (s, |a| + |s| + 1)
  {
    FindNullSkips(a, s, b, 0);
    assert (a + (s + [0] + b))[|a|..|a| + |s|] == s;
  }

  lemma FixedIs(r: Response, b: bytes)
    ensures var data := Fixed(r) + b;
            FromLE(data[..4]) == r.capability && FromLE(data[4..8]) == r.maxPacketSize && data[8] == r.charset
  {
    var data := Fixed(r) + b;
    assert data[..4] == LE(r.capability, 4) && data[4..8] == LE(r.maxPacketSize, 4);
    Pow256Values();
    FromLEOfLE(r.capability, 4);
    FromLEOfLE(r.maxPacketSize, 4);
  }

  /** The auth field is read back, and the next position is the one after it, when the form
      carries a length; with the NUL-terminated form the next position is the NUL itself. */
  lemma AuthIs(capability: nat, a: bytes, auth: bytes, b: bytes)
    requires !CarriesLength(capability) ==> NoNull(auth)
    requires CarriesLength(capability) && !Has(capability, CLIENT_PLUGIN_AUTH_LENENC) ==> |auth| < 256
    requires |a + (AuthField(capability, auth) + b)| <= MAX_LEN
    ensures var data := a + (AuthField(capability, auth) + b);
            var (length, p) := AuthLength(capability, data, |a|);
            var end := |a| + |AuthField(capability, auth)|;
            AuthData(data, length, p) == Some((auth, if CarriesLength(capability) then end else end - 1))
  {
    hide Has, AuthData, DecodeLenEncInt, LenEncString, FindNull, NoNull;
    if Has(capability, CLIENT_PLUGIN_AUTH_LENENC) {
      AuthWithLength(a, auth, b);
    } else if Has(capability, CLIENT_SECURE_CONNECTION) {
      AuthWithByte(a, auth, b);
    } else {
      AuthWithNull(a, auth, b);
    }
  }

  lemma AuthWithNull(a: bytes, auth: bytes, b: bytes)
    requires NoNull(auth) && |a + (auth + [0] + b)| <= MAX_LEN
    ensures var data := a + (auth + [0] + b);
            FindNull(data, |a|) == |a| + |auth| && AuthData(data, |auth|, |a|) == Some((auth, |a| + |auth|))
  {
    var data := a + (auth + [0] + b);
    FindNullSkips(a, auth, b, 0);
    assert data[|a|..|a| + |auth|] == auth;
  }

  lemma AuthWithLength(a: bytes, auth: bytes, b: bytes)
    requires |a + (LenEncString(auth) + b)| <= MAX_LEN
    ensures var data := a + (LenEncString(auth) + b);
            var (length, p) := DecodeLenEncInt(data, |a|);
            AuthData(data, length, p) == Some((auth, |a| + |LenEncString(auth)|))
  {
    hide LenEncInt, DecodeLenEncInt;
    var data := a + (LenEncString(auth) + b);
    var n := LenEncInt(|auth|);
    assert data == a + n + (auth + b);
    DecodeUndoesEncode(a, |auth|, auth + b);
    assert data[|a| + |n|..|a| + |n| + |auth|] == auth;
  }

  lemma AuthWithByte(a: bytes, auth: bytes, b: bytes)
    requires |auth| < 256 && |a + ([|auth|] + auth + b)| <= MAX_LEN
    ensures var data := a + ([|auth|] + auth + b);
            data[|a|] == |auth| && AuthData(data, |auth|, |a| + 1) == Some((auth, |a| + 1 + |auth|))
  {
    var data := a + ([|auth|] + auth + b);
    assert data == a + [|auth|] + auth + b;
    assert data[|a| + 1..|a| + 1 + |auth|] == auth;
  }

  lemma NamesAre(r: Response, a: bytes, b: bytes)
    requires Sendable(r)
    ensures Names(r.capability, a + (Trailer(r) + b), |a|) == (r.database, r.plugin)
  {
    hide Has, TextField;
    var hasDb, hasPlugin := Has(r.capability, CLIENT_CONNECT_WITH_DB), Has(r.capability, CLIENT_PLUGIN_AUTH);
    var data := a + (Trailer(r) + b);
    if hasDb {
      var rest := (if hasPlugin then r.plugin + [0] else []) + b;
      assert Trailer(r) + b == r.database + [0] + rest;
      TextFieldIs(a, r.database, rest);
      if hasPlugin {
        var a' := a + (r.database + [0]);
        assert data == a' + (r.plugin + [0] + b);
        TextFieldIs(a', r.plugin, b);
      }
    } else if hasPlugin {
      assert Trailer(r) + b == r.plugin + [0] + b;
      TextFieldIs(a, r.plugin, b);
    }
  }

  /** Reading from the NUL that ends the auth data instead: the database comes out empty and
      the plugin name is the database text. */
  lemma NamesShifted(r: Response, a: bytes, b: bytes)
    requires Sendable(r)
    ensures var hasDb, hasPlugin := Has(r.capability, CLIENT_CONNECT_WITH_DB), Has(r.capability, CLIENT_PLUGIN_AUTH);
            Names(r.capability, a + ([0] + (Trailer(r) + b)), |a|) ==
            ([], if hasDb && hasPlugin then r.database else [])
  {
    hide Has, TextField;
    var hasDb, hasPlugin := Has(r.capability, CLIENT_CONNECT_WITH_DB), Has(r.capability, CLIENT_PLUGIN_AUTH);
    var data := a + ([0] + (Trailer(r) + b));
    assert [0] + (Trailer(r) + b) == [] + [0] + (Trailer(r) + b);
    TextFieldIs(a, [], Trailer(r) + b);
    if hasDb && hasPlugin {
      assert data == (a + [0]) + (r.database + [0] + (r.plugin + [0] + b));
      TextFieldIs(a + [0], r.database, r.plugin + [0] + b);
    }
  }

  /** What becomes of a response whose auth field is NUL-terminated. */
  function Misread(r: Response): Response {
    var both := Has(r.capability, CLIENT_CONNECT_WITH_DB) && Has(r.capability, CLIENT_PLUGIN_AUTH);
    r.(database := [], plugin := if both then r.database else [])
  }

  lemma ParseIs(r: Response, b: bytes)
    requires Sendable(r) && |Serialize(r) + b| <= MAX_LEN
    ensures Parse(Serialize(r) + b) == Parsed(if CarriesLength(r.capability) then r else Misread(r))
  {
    hide Has, TextField, AuthLength, AuthData, Trailer, Fixed, AuthField, FromLE;
    var data := Serialize(r) + b;
    var field := AuthField(r.capability, r.auth);
    var f, u := Fixed(r), r.username + [0];
    var after := field + Trailer(r) + b;
    assert data == f + (r.username + [0] + after);
    FixedIs(r, r.username + [0] + after);
    TextFieldIs(f, r.username, after);
    var a1 := f + u;
    assert data == a1 + (field + (Trailer(r) + b));
    AuthIs(r.capability, a1, r.auth, Trailer(r) + b);
    if CarriesLength(r.capability) {
      assert data == (a1 + field) + (Trailer(r) + b);
      NamesAre(r, a1 + field, b);
    } else {
      AuthFieldEnds(r.capability, r.auth);
      assert data == (a1 + r.auth) + ([0] + (Trailer(r) + b));
      NamesShifted(r, a1 + r.auth, b);
    }
  }

  lemma AuthFieldEnds(capability: nat, auth: bytes)
    requires !CarriesLength(capability)
    ensures AuthField(capability, auth) == auth + [0]
  {
  }

  /** Handshake response round trip, for every combination of capability flags and any bytes
      after the response: the parser recovers every field if the auth field carries its
      length; if it is NUL-terminated, it does so exactly when the fields after it are empty. */
  lemma HandshakeRoundTrip(r: Response, b: bytes)
    requires Sendable(r) && |Serialize(r) + b| <= MAX_LEN
    ensures Parse(Serialize(r) + b) == Parsed(r) <==>
            CarriesLength(r.capability) || (r.database == [] && r.plugin == [])
  {
    hide Has, Serialize, Parse;
    ParseIs(r, b);
  }

  /** A concrete response the parser misreads: without either length flag, the database "d"
      is lost and shows up as the plugin name. */
  lemma NullTerminatedAuthMisread()
    ensures var r := Response(0x8_0008, 0, 45, [0x75], [0x61], [0x64], [0x70]);
            Sendable(r) && Parse(Serialize(r)) == Parsed(r.(database := [], plugin := [0x64]))
  {
    hide Parse;
    var r := Response(0x8_0008, 0, 45, [0x75], [0x61], [0x64], [0x70]);
    assert Has(r.capability, CLIENT_CONNECT_WITH_DB) && Has(r.capability, CLIENT_PLUGIN_AUTH);
    ParseIs(r, []);
    assert Serialize(r) + [] == Serialize(r);
  }

  // ---------- totality ----------

  /** An announced auth length so close to 2^63 that adding the position to it overflows. */
  predicate AuthLengthOverflows(payload: bytes)
    requires |payload| >= 9
  {
    var (_, p) := TextField(payload, 32);
    && Has(FromLE(payload[..4]), CLIENT_PLUGIN_AUTH_LENENC)
    && p + 9 <= |payload| && payload[p] == 0xFE
    && TWO_63 <= FromLE(payload[p + 1..p + 9]) + p + 9 < TWO_63 + p + 9
  }

  /** It refuses exactly the payloads of fewer than four bytes. */
  lemma TooShortExactly(payload: bytes)
    requires |payload| <= MAX_LEN
    ensures Parse(payload) == TooShort <==> |payload| < 4
  {
    hide FindNull, FromLE, Has;
  }

  /** ParseHandshakeResponse returns normally on every payload except those of four to eight
      bytes and those whose announced auth length overflows. */
  lemma ParsesWithoutPanicExactly(payload: bytes)
    requires |payload| <= MAX_LEN
    ensures Parse(payload) == Crash <==>
            4 <= |payload| < 9 || (|payload| >= 9 && AuthLengthOverflows(payload))
  {
    if |payload| >= 9 {
      hide Has, FindNull, FromLE, TextField;
      var capability := FromLE(payload[..4]);
      var (_, p1) := TextField(payload, 32);
      var (length, p2) := AuthLength(capability, payload, p1);
      if Has(capability, CLIENT_PLUGIN_AUTH_LENENC) && p1 + 9 <= |payload| && payload[p1] == 0xFE {
        var v := FromLE(payload[p1 + 1..p1 + 9]);
        FromLEBound(payload[p1 + 1..p1 + 9]);
        Pow256Values();
        assert length == ToInt64(v) && p2 == p1 + 9;
        assert AuthData(payload, length, p2) == None <==> AuthLengthOverflows(payload);
      } else {
        assert length < TWO_24 || length <= |payload|;
        assert AuthData(payload, length, p2).Some?;
      }
    }
  }
}
