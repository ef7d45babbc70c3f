/** The MySQL proxy's connection handler (pkg/mysqlproxy/proxy.go). */
module MySqlProxy {
  import opened ByteStrings
  import opened Wire
  import opened Packets
  import opened Http
  import Handshake

  const COM_QUIT: byte := 0x01
  const COM_INIT_DB: byte := 0x02
  const COM_QUERY: byte := 0x03
  const COM_PING: byte := 0x0E

  /** ComStmtPrepare, ComStmtExecute, ComStmtClose, ComStmtReset, ComStmtFetch. */
  predicate IsStatementCommand(cmd: byte) {
    cmd == 0x16 || cmd == 0x17 || cmd == 0x19 || cmd == 0x1A || cmd == 0x1C
  }

  // ---------- answers ----------

  const STATE_GENERAL: bytes := Ascii("HY000")
  const GONE_AWAY: bytes := Ascii("MySQL server has gone away")
  const STATE_SYNTAX: bytes := Ascii("42000")
  const STATE_LINK: bytes := Ascii("08S01")
  const STATE_DENIED: bytes := Ascii("28000")
  const ACCESS_DENIED: bytes := Ascii("Access denied")
  const STATE_REFUSED: bytes := Ascii("08004")
  const TOO_MANY: bytes := Ascii("Too many connections")

  function HexDigit(n: nat): byte
    requires n < 16
  {
    if n < 10 then 0x30 + n else 0x57 + n
  }

  function UnknownCommand(cmd: byte): bytes {
    Ascii("Unknown command: 0x") + [HexDigit(cmd / 16), HexDigit(cmd % 16)]
  }

  function PlainOk(): bytes {
    OkPacket(0, 0, AUTOCOMMIT, 0, [])
  }

  function GoneAway(): bytes {
    ErrPacket(2006, STATE_GENERAL, GONE_AWAY)
  }

  function NotSupported(): bytes {
    ErrPacket(1295, STATE_GENERAL, NotSupportedText())
  }

  function NotSupportedText(): bytes {
    Ascii("This command is not supported ") + Ascii("in the prepared statement protocol")
  }

  /** The packets that answer a non-empty command other than Quit, given the outcome of its
      query request (which only COM_QUERY makes). */
  function AnswerPackets(command: bytes, reply: HttpReply): seq<bytes>
    requires command != []
  {
    var cmd, data := command[0], command[1..];
    if cmd == COM_QUERY then
      match reply
      case HttpFailed(_) => [GoneAway()]
      case BadJson => []
      case Replied(result) =>
        if result.error != [] then [ErrPacket(1064, STATE_SYNTAX, result.error)]
        else ResultSet(result, data)
    else if cmd == COM_PING || cmd == COM_INIT_DB then [PlainOk()]
    else if IsStatementCommand(cmd) then [NotSupported()]
    else [ErrPacket(1047, STATE_LINK, UnknownCommand(cmd))]
  }

  // ---------- the connection ----------

  /** Everything the handler changes. */
  datatype State = State(input: bytes, link: Link, replies: seq<HttpReply>, calls: seq<HttpCall>)

  function Now(conn: Conn, http: HttpClient): State
    reads conn, http
  {
    State(conn.input, conn.link, http.replies, http.calls)
  }

  /** One non-empty command other than Quit, whose answer is numbered from `no`. */
  function Answer(s: State, id: SessionId, command: bytes, no: byte): State
    requires command != []
  {
    var sent := SendAll(s.link, AnswerPackets(command, Head(s.replies)), no);
    if command[0] == COM_QUERY then
      s.(link := sent, replies := Rest(s.replies), calls := s.calls + [Query(id, COM_QUERY, command[1..], [])])
    else s.(link := sent)
  }

  /** The command loop, up to the point where it is left. */
  function Commands(s: State, id: SessionId): State
    decreases |s.input|
  {
    match ParsePacket(s.input)
    case Failed => s.(input := [])
    case Got(p, rest) =>
      var s1 := s.(input := rest);
      if p.payload == [] then Commands(s1, id)
      else if p.payload[0] == COM_QUIT then s1
      else Commands(Answer(s1, id, p.payload, Next(p.no)), id)
  }

  datatype Ending =
    | GreetingLost            // the greeting could not be written
    | NoResponse              // the handshake response could not be read
    | Denied                  // the handshake response is too short
    | Panicked                // the handshake response makes the parser panic
    | Refused                 // no session
    | AuthLost(id: SessionId) // a session, but the OK packet could not be written
    | Closed(id: SessionId)   // the command loop was entered and left

  function Connection(s: State, greeting: bytes, session: Option<SessionId>): (State, Ending) {
    var (k0, ok0) := SendPacket(s.link, greeting, 0);
    if !ok0 then (s.(link := k0), GreetingLost)
    else
      var s0 := s.(link := k0, input := AfterRead(ParsePacket(s.input)));
      match ParsePacket(s.input)
      case Failed => (s0, NoResponse)
      case Got(p, _) =>
        match Handshake.Parse(p.payload)
        case TooShort =>
          (s0.(link := SendPacket(k0, ErrPacket(1045, STATE_DENIED, ACCESS_DENIED), Next(p.no)).0), Denied)
        case Crash => (s0, Panicked)
        case Parsed(_) =>
          var s1 := s0.(calls := s.calls + [Open(p.payload)]);
          match session
          case None =>
            (s1.(link := SendPacket(k0, ErrPacket(1040, STATE_REFUSED, TOO_MANY), Next(p.no)).0),
             Refused)
          case Some(id) =>
            var (k1, ok1) := SendPacket(k0, PlainOk(), Next(p.no));
            var s2 := s1.(link := k1);
            if !ok1 then (s2, AuthLost(id))
            else
              var s3 := Commands(s2, id);
              (s3.(calls := s3.calls + [Close(id)]), Closed(id))
  }

  /** The for loop over the packets of a result set. Its `break` leaves only that loop. */
  method WriteAll(conn: Conn, payloads: seq<bytes>, no: byte)
    modifies conn`link
    ensures conn.link == SendAll(old(conn.link), payloads, no)
  {
    var n := no;
    for i := 0 to |payloads|
      invariant SendAll(conn.link, payloads[i..], n) == SendAll(old(conn.link), payloads, no)
    {
      var ok := WritePacket(conn, payloads[i], n);
      assert payloads[i..][1..] == payloads[i + 1..];
      if !ok {
        return;
      }
      n := Next(n);
    }
  }

  /** A single packet, whose failure is only logged. */
  method WriteOne(conn: Conn, payload: bytes, no: byte)
    modifies conn`link
    ensures conn.link == SendAll(old(conn.link), [payload], no)
  {
    var _ := WritePacket(conn, payload, no);
    assert [payload][1..] == [];
  }

  /** The switch over the command byte. */
  method AnswerCommand(conn: Conn, http: HttpClient, id: SessionId, payload: bytes, no: byte)
    requires payload != [] && payload[0] != COM_QUIT
    requires Countable(http.replies)
    modifies conn`link, http`calls, http`replies
    ensures Now(conn, http) == Answer(old(Now(conn, http)), id, payload, no)
  {
    hide SendAll, OkPacket, ErrPacket, ResultSet, UnknownCommand;
    var cmd, data := payload[0], payload[1..];
    if cmd == COM_QUERY {
      var sql := data;
      var reply := http.QueryRequest(id, cmd, sql, []);
      match reply
      case HttpFailed(_) =>
        var p := BuildERRPacket(2006, STATE_GENERAL, GONE_AWAY);
        WriteOne(conn, p, no);
      case BadJson =>
        NothingSent(conn.link, no);
      case Replied(result) =>
        if result.error != [] {
          var p := BuildERRPacket(1064, STATE_SYNTAX, result.error);
          WriteOne(conn, p, no);
        } else {
          var packets := BuildResultSet(result, sql);
          WriteAll(conn, packets, no);
        }
    } else if cmd == COM_PING || cmd == COM_INIT_DB {
      var p := BuildOKPacket(0, 0, AUTOCOMMIT, 0, []);
      WriteOne(conn, p, no);
    } else if IsStatementCommand(cmd) {
      var p := BuildERRPacket(1295, STATE_GENERAL, NotSupportedText());
      WriteOne(conn, p, no);
    } else {
      var p := BuildERRPacket(1047, STATE_LINK, UnknownCommand(cmd));
      WriteOne(conn, p, no);
    }
  }

  lemma NothingSent(k: Link, no: byte)
    ensures SendAll(k, [], no) == k
  {
  }

  /** The command loop: it ends when nothing more can be read or on Quit. */
  method CommandLoop(conn: Conn, http: HttpClient, id: SessionId)
    requires Countable(http.replies)
    modifies conn, http`calls, http`replies
    ensures Now(conn, http) == Commands(old(Now(conn, http)), id)
  {
    hide Answer, ParsePacket;
    while true
      invariant Countable(http.replies)
      invariant Commands(Now(conn, http), id) == Commands(old(Now(conn, http)), id)
      decreases |conn.input|
    {
      ghost var before := Now(conn, http);
      var payload, s, ok := ReadPacket(conn);
      if !ok {
        break;
      }
      var no := Next(s);
      if |payload| == 0 {
        continue;
      }
      if payload[0] == COM_QUIT {
        assert Now(conn, http) == Commands(before, id);
        return;
      }
      AnswerCommand(conn, http, id, payload, no);
      assert Now(conn, http) == Answer(before.(input := conn.input), id, payload, no);
      AnswerKeepsCountable(before.(input := conn.input), id, payload, no);
    }
  }

  lemma AnswerKeepsCountable(s: State, id: SessionId, payload: bytes, no: byte)
    requires payload != [] && Countable(s.replies)
    ensures Countable(Answer(s, id, payload, no).replies) && Answer(s, id, payload, no).input == s.input
  {
  }

  /** handleConnection. The greeting is the encoded HandshakeV10. */
  method HandleConnection(conn: Conn, http: HttpClient, greeting: bytes) returns (ending: Ending)
    requires Countable(http.replies)
    modifies conn, http`calls, http`replies
    ensures (Now(conn, http), ending) == Connection(old(Now(conn, http)), greeting, http.session)
  {
    hide Commands, SendPacket, OkPacket, ErrPacket, Handshake.Parse;
    var seqNo: byte := 0;
    var ok := WritePacket(conn, greeting, seqNo);
    if !ok {
      return GreetingLost;
    }
    var payload, s, read := ReadPacket(conn);
    if !read {
      return NoResponse;
    }
    seqNo := Next(s);
    var resp := Handshake.ParseHandshakeResponse(payload);
    if resp.Crash? {
      return Panicked;
    }
    if resp.TooShort? {
      var denied := BuildERRPacket(1045, STATE_DENIED, ACCESS_DENIED);
      var _ := WritePacket(conn, denied, seqNo);
      return Denied;
    }
    var session := http.SessionRequest(payload);
    if session.None? {
      var refused := BuildERRPacket(1040, STATE_REFUSED, TOO_MANY);
      var _ := WritePacket(conn, refused, seqNo);
      return Refused;
    }
    var id := session.value;
    var auth := BuildOKPacket(0, 0, AUTOCOMMIT, 0, []);
    ok := WritePacket(conn, auth, seqNo);
    if !ok {
      return AuthLost(id);
    }
    CommandLoop(conn, http, id);
    http.CloseSession(id);
    return Closed(id);
  }
}
