/** The PostgreSQL proxy's connection handler (pkg/pgproxy/proxy.go). */
module PgProxy {
  import opened ByteStrings
  import opened Http
  import opened MessageTypes
  import Wire
  import Text = SqlText
  import Parser = PgParser

  // ---------- messages ----------

  /** What Receive and Encode make of the next message of the client: a message, one that
      cannot be encoded, or one that encodes to nothing. */
  datatype Incoming = Message(kind: byte, payload: bytes) | Unencodable | Silent

  datatype BackendMessage =
    | AuthenticationOk
    | ParameterStatus(name: bytes, value: bytes)
    | BackendKeyData
    | ParseComplete
    | BindComplete
    | NoData
    | RowDescription(fields: seq<bytes>)
    | DataRow(values: seq<Option<bytes>>)
    | CommandComplete(tag: bytes)
    | ErrorResponse(code: bytes, text: bytes)
    | ReadyForQuery

  /** pgproto3's Backend: messages are collected by Send and go out with Flush. `flushes` is
      the number of flushes that still succeed (None: all do). */
  class Backend {
    var incoming: seq<Incoming>
    var pending: seq<BackendMessage>
    var delivered: seq<BackendMessage>
    var flushes: Option<nat>

    constructor (incoming: seq<Incoming>, flushes: Option<nat>)
      ensures this.incoming == incoming && this.flushes == flushes && pending == delivered == []
    {
      this.incoming, this.flushes := incoming, flushes;
      pending, delivered := [], [];
    }

    method Receive() returns (r: Option<Incoming>)
      modifies this`incoming
      ensures r == if old(incoming) == [] then None else Some(old(incoming)[0])
      ensures incoming == if old(incoming) == [] then [] else old(incoming)[1..]
    {
      if incoming == [] {
        return None;
      }
      r := Some(incoming[0]);
      incoming := incoming[1..];
    }

    method Send(m: BackendMessage)
      modifies this`pending
      ensures pending == old(pending) + [m]
    {
      pending := pending + [m];
    }

    method Flush() returns (ok: bool)
      modifies this`pending, this`delivered, this`flushes
      ensures ok == (old(flushes) != Some(0))
      ensures delivered == (if ok then old(delivered) + old(pending) else old(delivered))
      ensures flushes == Spend(old(flushes)) && pending == []
    {
      ok := flushes != Some(0);
      if ok {
        delivered := delivered + pending;
      }
      if flushes.Some? && flushes.value > 0 {
        flushes := Some(flushes.value - 1);
      }
      pending := [];
    }
  }

  function Spend(flushes: Option<nat>): Option<nat> {
    match flushes
    case None => None
    case Some(n) => if n > 0 then Some(n - 1) else Some(0)
  }

  // ---------- answers ----------

  const ERROR_CODE: bytes := Ascii("08000")

  function ErrorBatch(text: bytes): seq<BackendMessage> {
    [ErrorResponse(ERROR_CODE, text), ReadyForQuery]
  }

  function CellOf(v: bytes): Option<bytes> {
    if v == NULL_TEXT then None else Some(v)
  }

  function CellsOf(row: seq<bytes>): (r: seq<Option<bytes>>)
    ensures |r| == |row|
  {
    seq(|row|, i requires 0 <= i < |row| => CellOf(row[i]))
  }

  function DataRows(rows: seq<seq<bytes>>): (r: seq<BackendMessage>)
    ensures |r| == |rows|
  {
    seq(|rows|, i requires 0 <= i < |rows| => DataRow(CellsOf(rows[i])))
  }

  function Description(columns: seq<bytes>): seq<BackendMessage> {
    if columns == [] then [] else [RowDescription(columns)]
  }

  function ResultMessages(sql: bytes, result: QueryResponse): seq<BackendMessage> {
    Description(result.columns) + DataRows(result.rows)
    + [CommandComplete(Text.PgTag(sql, |result.rows|, result.rowsAffected))]
  }

  /** The messages that answer a forwarded message, before ReadyForQuery. */
  function AnswerMessages(kind: byte, sql: bytes, result: QueryResponse): seq<BackendMessage> {
    if kind == PARSE then [ParseComplete]
    else if kind == BIND then [BindComplete]
    else if kind == DESCRIBE then if result.columns == [] then [NoData] else [RowDescription(result.columns)]
    else if kind == SYNC then []
    else ResultMessages(sql, result)
  }

  method SendError(backend: Backend, text: bytes)
    requires backend.pending == []
    modifies backend`pending, backend`delivered, backend`flushes
    ensures backend.pending == [] && backend.flushes == Spend(old(backend.flushes))
    ensures backend.delivered ==
            old(backend.delivered) + if old(backend.flushes) != Some(0) then ErrorBatch(text) else []
  {
    backend.Send(ErrorResponse(ERROR_CODE, text));
    backend.Send(ReadyForQuery);
    assert backend.pending == ErrorBatch(text);
    var _ := backend.Flush();
  }

  /** A RowDescription, field by field. */
  method SendDescription(backend: Backend, columns: seq<bytes>)
    modifies backend`pending
    ensures backend.pending == old(backend.pending) + [RowDescription(columns)]
  {
    var fields: seq<bytes> := [];
    for i := 0 to |columns|
      invariant fields == columns[..i]
    {
      fields := fields + [columns[i]];
    }
    assert columns[..|columns|] == columns;
    backend.Send(RowDescription(fields));
  }

  /** The rows, then the tag: the part Execute and all other messages share. */
  method SendResult(backend: Backend, sql: bytes, result: QueryResponse)
    modifies backend`pending
    ensures backend.pending == old(backend.pending) + ResultMessages(sql, result)
  {
    hide Text.PgTag, CellOf;
    if |result.columns| > 0 {
      SendDescription(backend, result.columns);
    }
    ghost var head := backend.pending;
    assert head == old(backend.pending) + Description(result.columns);
    for r := 0 to |result.rows|
      invariant backend.pending == head + DataRows(result.rows)[..r]
    {
      var row := result.rows[r];
      var values: seq<Option<bytes>> := [];
      for c := 0 to |row|
        invariant values == CellsOf(row)[..c]
        invariant backend.pending == head + DataRows(result.rows)[..r]
      {
        var cell := ReadCell(row[c]);
        values := values + [cell];
      }
      assert values == CellsOf(row);
      backend.Send(DataRow(values));
    }
    var tag := Text.PgCommandTag(sql, |result.rows|, result.rowsAffected);
    backend.Send(CommandComplete(tag));
    assert DataRows(result.rows)[..|result.rows|] == DataRows(result.rows);
  }

  method ReadCell(v: bytes) returns (cell: Option<bytes>)
    ensures cell == CellOf(v)
  {
    if v == NULL_TEXT {
      cell := None;
    } else {
      cell := Some(v);
    }
  }

  /** The switch over the message type. */
  method SendAnswer(backend: Backend, kind: byte, sql: bytes, result: QueryResponse)
    modifies backend`pending
    ensures backend.pending == old(backend.pending) + AnswerMessages(kind, sql, result)
  {
    if kind == PARSE {
      backend.Send(ParseComplete);
    } else if kind == BIND {
      backend.Send(BindComplete);
    } else if kind == DESCRIBE {
      if |result.columns| > 0 {
        SendDescription(backend, result.columns);
      } else {
        backend.Send(NoData);
      }
    } else if kind == SYNC {
    } else {
      SendResult(backend, sql, result);
    }
  }

  // ---------- the message loop ----------

  /** A message that was forwarded, the SQL text sent with it, and what came of it. */
  datatype Exchange = Exchange(kind: byte, sql: bytes, raw: bytes, outcome: HttpReply)

  /** Everything the loop changes. */
  datatype State = State(
    incoming: seq<Incoming>, delivered: seq<BackendMessage>, flushes: Option<nat>,
    replies: seq<HttpReply>, calls: seq<HttpCall>)

  function Now(backend: Backend, http: HttpClient): State
    reads backend, http
  {
    State(backend.incoming, backend.delivered, backend.flushes, http.replies, http.calls)
  }

  /** The batch that answers a message, or None when no answer is given. */
  function Batch(x: Exchange): Option<seq<BackendMessage>> {
    match x.outcome
    case HttpFailed(text) => Some(ErrorBatch(Ascii("Query failed: ") + text))
    case BadJson => None
    case Replied(result) =>
      if result.error != [] then Some(ErrorBatch(result.error))
      else Some(AnswerMessages(x.kind, x.sql, result) + [ReadyForQuery])
  }

  function Deliver(s: State, batch: Option<seq<BackendMessage>>): State {
    match batch
    case None => s
    case Some(b) =>
      s.(delivered := if s.flushes == Some(0) then s.delivered else s.delivered + b, flushes := Spend(s.flushes))
  }

  /** Whether the loop goes on after a message, given the flushes left before it. */
  predicate GoesOn(x: Exchange, flushes: Option<nat>) {
    x.outcome.Replied? && (x.outcome.response.error != [] || flushes != Some(0))
  }

  function ExchangeOf(s: State, kind: byte, payload: bytes): Exchange {
    Exchange(kind, Parser.Extracted(kind, payload), payload, Head(s.replies))
  }

  /** Forward one message and deliver its answer. */
  function Forward(s: State, id: SessionId, kind: byte, payload: bytes): State {
    var x := ExchangeOf(s, kind, payload);
    var asked := s.(replies := Rest(s.replies), calls := s.calls + [Query(id, kind, x.sql, payload)]);
    Deliver(asked, Batch(x))
  }

  function Messages(s: State, id: SessionId): State
    decreases |s.incoming|
  {
    if s.incoming == [] then s
    else
      var s1 := s.(incoming := s.incoming[1..]);
      match s.incoming[0]
      case Unencodable => s1
      case Silent => Messages(s1, id)
      case Message(kind, payload) =>
        if kind == TERMINATE then s1
        else
          var s2 := Forward(s1, id, kind, payload);
          if GoesOn(ExchangeOf(s1, kind, payload), s1.flushes) then Messages(s2, id) else s2
  }

  /** One turn of the loop for a message that is not Terminate. */
  method ForwardMessage(backend: Backend, http: HttpClient, id: SessionId, kind: byte, payload: bytes)
    returns (goOn: bool)
    requires backend.pending == []
    modifies backend`pending, backend`delivered, backend`flushes, http`calls, http`replies
    ensures backend.pending == []
    ensures Now(backend, http) == Forward(old(Now(backend, http)), id, kind, payload)
    ensures goOn == GoesOn(ExchangeOf(old(Now(backend, http)), kind, payload), old(backend.flushes))
  {
    hide AnswerMessages, ErrorBatch, Parser.Extracted, Text.PgTag;
    var sql := Parser.ExtractSQL(kind, payload);
    var reply := http.QueryRequest(id, kind, sql, payload);
    match reply
    case HttpFailed(text) =>
      SendError(backend, Ascii("Query failed: ") + text);
      goOn := false;
    case BadJson =>
      goOn := false;
    case Replied(result) =>
      if result.error != [] {
        SendError(backend, result.error);
        return true;
      }
      SendAnswer(backend, kind, sql, result);
      backend.Send(ReadyForQuery);
      assert backend.pending == AnswerMessages(kind, sql, result) + [ReadyForQuery];
      goOn := backend.Flush();
  }

  method MessageLoop(backend: Backend, http: HttpClient, id: SessionId)
    requires backend.pending == []
    modifies backend, http`calls, http`replies
    ensures backend.pending == []
    ensures Now(backend, http) == Messages(old(Now(backend, http)), id)
  {
    hide Forward, GoesOn, ExchangeOf;
    while true
      invariant backend.pending == []
      invariant Messages(Now(backend, http), id) == Messages(old(Now(backend, http)), id)
      decreases |backend.incoming|
    {
      ghost var before := Now(backend, http);
      var received := backend.Receive();
      if received.None? {
        break;
      }
      match received.value
      case Unencodable =>
        return;
      case Silent =>
        continue;
      case Message(kind, payload) =>
        if kind == TERMINATE {
          return;
        }
        ghost var s1 := Now(backend, http);
        assert s1 == before.(incoming := before.incoming[1..]);
        var goOn := ForwardMessage(backend, http, id, kind, payload);
        if !goOn {
          return;
        }
        assert Messages(before, id) == Messages(Now(backend, http), id);
        ForwardKeepsIncoming(s1, id, kind, payload);
    }
  }

  lemma ForwardKeepsIncoming(s: State, id: SessionId, kind: byte, payload: bytes)
    ensures Forward(s, id, kind, payload).incoming == s.incoming
  {
  }

  // ---------- the connection ----------

  const SERVER_VERSION: bytes := Ascii("server_version")
  const SERVER_ENCODING: bytes := Ascii("server_encoding")
  const CLIENT_ENCODING: bytes := Ascii("client_encoding")
  const DATE_STYLE: bytes := Ascii("DateStyle")
  const CONFORMING_STRINGS: bytes := Ascii("standard_conforming_strings")
  const VERSION_14: bytes := Ascii("14.0")
  const UTF8: bytes := Ascii("UTF8")
  const ISO_MDY: bytes := Ascii("ISO, MDY")
  const ON: bytes := Ascii("on")

  function Parameters(): seq<BackendMessage> {
    [ParameterStatus(SERVER_VERSION, VERSION_14), ParameterStatus(SERVER_ENCODING, UTF8),
     ParameterStatus(CLIENT_ENCODING, UTF8), ParameterStatus(DATE_STYLE, ISO_MDY),
     ParameterStatus(CONFORMING_STRINGS, ON)]
  }

  function Greeting(): seq<BackendMessage> {
    [AuthenticationOk] + Parameters() + [BackendKeyData, ReadyForQuery]
  }

  datatype Ending =
    | NoStartup               // the startup message could not be read
    | Refused                 // no session
    | AuthLost(id: SessionId) // a session, but the greeting could not be flushed
    | Closed(id: SessionId)   // the message loop was entered and left

  function Connection(s: State, startup: Option<bytes>, session: Option<SessionId>): (State, Ending) {
    match startup
    case None => (s, NoStartup)
    case Some(raw) =>
      var s1 := s.(calls := s.calls + [Open(raw)]);
      match session
      case None => (s1, Refused)
      case Some(id) =>
        var s2 := Deliver(s1, Some(Greeting()));
        if s.flushes == Some(0) then (s2, AuthLost(id))
        else
          var s3 := Messages(s2, id);
          (s3.(calls := s3.calls + [Close(id)]), Closed(id))
  }

  method SendGreeting(backend: Backend)
    modifies backend`pending
    ensures backend.pending == old(backend.pending) + Greeting()
  {
    hide Ascii;
    backend.Send(AuthenticationOk);
    SendParameters(backend);
    backend.Send(BackendKeyData);
    backend.Send(ReadyForQuery);
    assert Greeting() == [AuthenticationOk] + Parameters() + [BackendKeyData] + [ReadyForQuery];
  }

  method SendParameters(backend: Backend)
    modifies backend`pending
    ensures backend.pending == old(backend.pending) + Parameters()
  {
    hide Ascii;
    backend.Send(ParameterStatus(SERVER_VERSION, VERSION_14));
    backend.Send(ParameterStatus(SERVER_ENCODING, UTF8));
    backend.Send(ParameterStatus(CLIENT_ENCODING, UTF8));
    backend.Send(ParameterStatus(DATE_STYLE, ISO_MDY));
    backend.Send(ParameterStatus(CONFORMING_STRINGS, ON));
  }

  method HandleConnection(conn: Wire.Conn, backend: Backend, http: HttpClient) returns (ending: Ending)
    requires backend.pending == []
    modifies conn`input, backend, http`calls, http`replies
    ensures (Now(backend, http), ending) ==
            Connection(old(Now(backend, http)), Parser.StartupPacket(old(conn.input)).0, http.session)
  {
    hide Messages, Parser.StartupPacket, Parser.Parsed, Greeting;
    var raw := Parser.ReadStartupRaw(conn);
    if raw.None? {
      return NoStartup;
    }
    var _ := Parser.ParseStartupMessage(raw.value);
    var session := http.SessionRequest(raw.value);
    if session.None? {
      return Refused;
    }
    var id := session.value;
    SendGreeting(backend);
    assert [] + Greeting() == Greeting();
    var ok := backend.Flush();
    if !ok {
      return AuthLost(id);
    }
    MessageLoop(backend, http, id);
    http.CloseSession(id);
    return Closed(id);
  }
}
