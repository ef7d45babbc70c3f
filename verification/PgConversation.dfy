/** Whole PostgreSQL connections: the grammar of the answers, what the server is asked, and
    when a session is closed. */
module PgConversation {
  import opened ByteStrings
  import opened Http
  import opened MessageTypes
  import opened PgProxy
  import Text = SqlText
  import Parser = PgParser

  // ---------- a client ----------

  /** What a client learns from the batch that answers one message. */
  datatype Answer =
    | Failure(code: bytes, text: bytes)
    | Acknowledged                                   // Parse, Bind, Sync
    | Described(columns: Option<seq<bytes>>)
    | Result(columns: Option<seq<bytes>>, rows: seq<seq<Option<bytes>>>, tag: bytes)

  /** Data rows up to the tag and the ReadyForQuery that must follow it. */
  function ReadRows(ms: seq<BackendMessage>): Option<(seq<seq<Option<bytes>>>, bytes, seq<BackendMessage>)> {
    if ms == [] then None
    else match ms[0]
      case DataRow(values) =>
        var (rows, tag, left) :- ReadRows(ms[1..]);
        Some(([values] + rows, tag, left))
      case CommandComplete(tag) =>
        if |ms| >= 2 && ms[1] == ReadyForQuery then Some(([], tag, ms[2..])) else None
      case _ => None
  }

  /** The batch that answers a message of the given type, and the messages after it. Written
      from the message flow of the protocol: an error, the acknowledgement of the message
      type, or a result, each closed by ReadyForQuery. */
  function ReadBatch(kind: byte, ms: seq<BackendMessage>): Option<(Answer, seq<BackendMessage>)> {
    if ms == [] then None
    else if ms[0].ErrorResponse? then Closing(Failure(ms[0].code, ms[0].text), ms[1..])
    else if kind == PARSE then if ms[0] == ParseComplete then Closing(Acknowledged, ms[1..]) else None
    else if kind == BIND then if ms[0] == BindComplete then Closing(Acknowledged, ms[1..]) else None
    else if kind == SYNC then Closing(Acknowledged, ms)
    else if kind == DESCRIBE then
      match ms[0]
      case NoData => Closing(Described(None), ms[1..])
      case RowDescription(fields) => Closing(Described(Some(fields)), ms[1..])
      case _ => None
    else if ms[0].RowDescription? then
      var (rows, tag, left) :- ReadRows(ms[1..]);
      Some((Result(Some(ms[0].fields), rows, tag), left))
    else
      var (rows, tag, left) :- ReadRows(ms);
      Some((Result(None, rows, tag), left))
  }

  function Closing(a: Answer, ms: seq<BackendMessage>): Option<(Answer, seq<BackendMessage>)> {
    if ms != [] && ms[0] == ReadyForQuery then Some((a, ms[1..])) else None
  }

  /** One batch per message, and nothing else. */
  function ReadSession(kinds: seq<byte>, ms: seq<BackendMessage>): Option<seq<Answer>>
    decreases |kinds|
  {
    if kinds == [] then if ms == [] then Some([]) else None
    else
      var (a, rest) :- ReadBatch(kinds[0], ms);
      var more :- ReadSession(kinds[1..], rest);
      Some([a] + more)
  }

  // ---------- what the client is meant to read ----------

  predicate Answered(x: Exchange) {
    !x.outcome.BadJson?
  }

  function Columns(columns: seq<bytes>): Option<seq<bytes>> {
    if columns == [] then None else Some(columns)
  }

  function Meant(x: Exchange): Answer
    requires Answered(x)
  {
    match x.outcome
    case HttpFailed(text) => Failure(Ascii("08000"), Ascii("Query failed: ") + text)
    case Replied(result) =>
      if result.error != [] then Failure(Ascii("08000"), result.error)
      else if x.kind == PARSE || x.kind == BIND || x.kind == SYNC then Acknowledged
      else if x.kind == DESCRIBE then Described(Columns(result.columns))
      else Result(Columns(result.columns), CellTable(result.rows),
        Text.PgTag(x.sql, |result.rows|, result.rowsAffected))
  }

  function CellTable(rows: seq<seq<bytes>>): (r: seq<seq<Option<bytes>>>)
    ensures |r| == |rows|
  {
    seq(|rows|, i requires 0 <= i < |rows| => CellsOf(rows[i]))
  }

  lemma {:induction false} ReadRowsOf(rows: seq<seq<bytes>>, tag: bytes, tail: seq<BackendMessage>)
    ensures ReadRows(DataRows(rows) + [CommandComplete(tag), ReadyForQuery] + tail) ==
            Some((CellTable(rows), tag, tail))
  {
    var ms := DataRows(rows) + [CommandComplete(tag), ReadyForQuery] + tail;
    if rows == [] {
      assert ms[2..] == tail;
    } else {
      assert ms[0] == DataRow(CellsOf(rows[0]));
      assert ms[1..] == DataRows(rows[1..]) + [CommandComplete(tag), ReadyForQuery] + tail;
      ReadRowsOf(rows[1..], tail := tail, tag := tag);
      assert CellTable(rows) == [CellsOf(rows[0])] + CellTable(rows[1..]);
    }
  }

  lemma ResultBatch(kind: byte, sql: bytes, result: QueryResponse, tail: seq<BackendMessage>)
    requires kind != PARSE && kind != BIND && kind != SYNC && kind != DESCRIBE
    ensures ReadBatch(kind, ResultMessages(sql, result) + [ReadyForQuery] + tail) ==
            Some((Result(Columns(result.columns), CellTable(result.rows),
                         Text.PgTag(sql, |result.rows|, result.rowsAffected)), tail))
  {
    hide Text.PgTag, ReadRows, CellsOf;
    var tag := Text.PgTag(sql, |result.rows|, result.rowsAffected);
    var body := DataRows(result.rows) + [CommandComplete(tag), ReadyForQuery] + tail;
    var ms := ResultMessages(sql, result) + [ReadyForQuery] + tail;
    assert ms == Description(result.columns) + body;
    ReadRowsOf(result.rows, tag, tail);
    if result.columns != [] {
      assert ms[0] == RowDescription(result.columns) && ms[1..] == body;
    } else {
      assert ms == body;
      assert body[0] == (if result.rows == [] then CommandComplete(tag) else DataRow(CellsOf(result.rows[0])));
    }
  }

  /** Every answered message gets one batch, which reads as the meant answer and ends with
      the one ReadyForQuery. */
  lemma BatchRoundTrip(x: Exchange, tail: seq<BackendMessage>)
    requires Answered(x)
    ensures Batch(x).Some? && ReadBatch(x.kind, Batch(x).value + tail) == Some((Meant(x), tail))
  {
    hide Text.PgTag, ResultMessages, CellTable;
    var ms := Batch(x).value + tail;
    match x.outcome
    case HttpFailed(text) =>
      assert ms[1..] == [ReadyForQuery] + tail && ms[1..][1..] == tail;
    case Replied(result) =>
      if result.error != [] {
        assert ms[1..] == [ReadyForQuery] + tail && ms[1..][1..] == tail;
      } else if x.kind == PARSE || x.kind == BIND || x.kind == DESCRIBE {
        assert ms[1..] == [ReadyForQuery] + tail && ms[1..][1..] == tail;
      } else if x.kind == SYNC {
        assert ms == [ReadyForQuery] + tail && ms[1..] == tail;
      } else {
        ResultBatch(x.kind, x.sql, result, tail);
      }
  }

  function CountReady(ms: seq<BackendMessage>): nat {
    if ms == [] then 0 else (if ms[0] == ReadyForQuery then 1 else 0) + CountReady(ms[1..])
  }

  lemma {:induction false} CountReadyConcat(a: seq<BackendMessage>, b: seq<BackendMessage>)
    ensures CountReady(a + b) == CountReady(a) + CountReady(b)
  {
    if a == [] {
      assert a + b == b;
    } else {
      assert (a + b)[1..] == a[1..] + b;
      CountReadyConcat(a[1..], b);
    }
  }

  lemma {:induction false} NoneReady(ms: seq<BackendMessage>)
    requires forall i :: 0 <= i < |ms| ==> ms[i] != ReadyForQuery
    ensures CountReady(ms) == 0
  {
    if ms != [] {
      NoneReady(ms[1..]);
    }
  }

  lemma OneReadyPerBatch(x: Exchange)
    requires Answered(x)
    ensures CountReady(Batch(x).value) == 1
    ensures Batch(x).value[|Batch(x).value| - 1] == ReadyForQuery
  {
    hide Text.PgTag, CellsOf;
    var b := Batch(x).value;
    var front := b[..|b| - 1];
    assert b == front + [ReadyForQuery];
    CountReadyConcat(front, [ReadyForQuery]);
    NoneReady(front);
    assert CountReady([ReadyForQuery]) == 1 + CountReady([ReadyForQuery][1..]);
  }

  // ---------- the exchanges of a connection ----------

  /** The messages that are forwarded, with their outcomes, up to the end of the loop. */
  function Exchanges(incoming: seq<Incoming>, replies: seq<HttpReply>, flushes: Option<nat>): seq<Exchange>
    decreases |incoming|
  {
    if incoming == [] then []
    else match incoming[0]
      case Unencodable => []
      case Silent => Exchanges(incoming[1..], replies, flushes)
      case Message(kind, payload) =>
        if kind == TERMINATE then []
        else
          var x := Exchange(kind, Parser.Extracted(kind, payload), payload, Head(replies));
          if !GoesOn(x, flushes) then [x]
          else [x] + Exchanges(incoming[1..], Rest(replies), if Answered(x) then Spend(flushes) else flushes)
  }

  function QueryCalls(id: SessionId, xs: seq<Exchange>): (r: seq<HttpCall>)
    ensures |r| == |xs| && forall i :: 0 <= i < |r| ==> r[i].Query? && r[i].id == id
  {
    seq(|xs|, i requires 0 <= i < |xs| => Query(id, xs[i].kind, xs[i].sql, xs[i].raw))
  }

  /** The batches delivered for some exchanges. */
  function Delivered(xs: seq<Exchange>, flushes: Option<nat>): seq<BackendMessage> {
    if xs == [] then []
    else
      (if Batch(xs[0]).Some? && flushes != Some(0) then Batch(xs[0]).value else [])
      + Delivered(xs[1..], if Answered(xs[0]) then Spend(flushes) else flushes)
  }

  /** What the message loop does, for every client, every server and every point at which the
      connection breaks: each message before the end is forwarded under the one id, in order,
      and the batches go out in the same order. */
  lemma {:induction false} MessageLoopIs(s: State, id: SessionId)
    ensures var xs := Exchanges(s.incoming, s.replies, s.flushes);
            var end := Messages(s, id);
            && end.calls == s.calls + QueryCalls(id, xs)
            && end.delivered == s.delivered + Delivered(xs, s.flushes)
    decreases |s.incoming|
  {
    hide Batch, Parser.Extracted;
    if s.incoming != [] {
      var s1 := s.(incoming := s.incoming[1..]);
      match s.incoming[0]
      case Unencodable =>
      case Silent =>
        MessageLoopIs(s1, id);
      case Message(kind, payload) =>
        if kind != TERMINATE {
          var x := ExchangeOf(s1, kind, payload);
          var s2 := Forward(s1, id, kind, payload);
          BatchIsGiven(x);
          var more := if GoesOn(x, s.flushes) then Exchanges(s2.incoming, s2.replies, s2.flushes) else [];
          if GoesOn(x, s.flushes) {
            MessageLoopIs(s2, id);
          }
          StepIs(s1, id, kind, payload, more);
        }
    }
  }

  lemma BatchIsGiven(x: Exchange)
    ensures Batch(x).Some? <==> Answered(x)
  {
  }

  lemma StepIs(s: State, id: SessionId, kind: byte, payload: bytes, more: seq<Exchange>)
    ensures var x := ExchangeOf(s, kind, payload);
            var s2 := Forward(s, id, kind, payload);
            && s2.calls + QueryCalls(id, more) == s.calls + QueryCalls(id, [x] + more)
            && s2.delivered + Delivered(more, s2.flushes) == s.delivered + Delivered([x] + more, s.flushes)
  {
    hide Batch, Parser.Extracted, QueryCalls, Delivered;
    var x := ExchangeOf(s, kind, payload);
    var s2 := Forward(s, id, kind, payload);
    BatchIsGiven(x);
    DeliveredStep(x, more, s.flushes);
    QueryCallsStep(id, x, more);
    AppendTwo(s.calls, [Query(id, kind, x.sql, payload)], QueryCalls(id, more));
    var batch := if Batch(x).Some? && s.flushes != Some(0) then Batch(x).value else [];
    AppendTwo(s.delivered, batch, Delivered(more, s2.flushes));
    assert s.delivered + [] == s.delivered;
  }

  lemma DeliveredStep(x: Exchange, more: seq<Exchange>, flushes: Option<nat>)
    ensures Delivered([x] + more, flushes) ==
            (if Batch(x).Some? && flushes != Some(0) then Batch(x).value else [])
            + Delivered(more, if Answered(x) then Spend(flushes) else flushes)
  {
    hide Batch;
    assert ([x] + more)[1..] == more;
  }

  lemma QueryCallsStep(id: SessionId, x: Exchange, more: seq<Exchange>)
    ensures QueryCalls(id, [x] + more) == [Query(id, x.kind, x.sql, x.raw)] + QueryCalls(id, more)
  {
  }

  // ---------- the grammar of a whole connection ----------

  function AnsweredOnes(xs: seq<Exchange>): (r: seq<Exchange>)
    ensures forall i :: 0 <= i < |r| ==> Answered(r[i])
  {
    if xs == [] then []
    else if Answered(xs[0]) then [xs[0]] + AnsweredOnes(xs[1..])
    else AnsweredOnes(xs[1..])
  }

  function Kinds(xs: seq<Exchange>): (r: seq<byte>)
    ensures |r| == |xs|
  {
    seq(|xs|, i requires 0 <= i < |xs| => xs[i].kind)
  }

  function AllMeant(xs: seq<Exchange>): (r: seq<Answer>)
    requires forall i :: 0 <= i < |xs| ==> Answered(xs[i])
    ensures |r| == |xs|
  {
    seq(|xs|, i requires 0 <= i < |xs| => Meant(xs[i]))
  }

  lemma EmptySession()
    ensures ReadSession([], []) == Some([])
  {
  }

  lemma ReadSessionStep(kind: byte, kinds: seq<byte>, ms: seq<BackendMessage>, a: Answer,
                        rest: seq<BackendMessage>, more: seq<Answer>)
    requires ReadBatch(kind, ms) == Some((a, rest)) && ReadSession(kinds, rest) == Some(more)
    ensures ReadSession([kind] + kinds, ms) == Some([a] + more)
  {
    hide ReadBatch;
    assert ([kind] + kinds)[1..] == kinds;
  }

  lemma {:induction false} DeliveredReads(xs: seq<Exchange>)
    ensures var answered := AnsweredOnes(xs);
            && ReadSession(Kinds(answered), Delivered(xs, None)) == Some(AllMeant(answered))
            && CountReady(Delivered(xs, None)) == |answered|
  {
    hide Batch, Meant, ReadBatch, CountReady, ReadSession;
    if xs == [] {
      EmptySession();
      NoneReady([]);
    } else {
      var x, more := xs[0], xs[1..];
      BatchIsGiven(x);
      DeliveredReads(more);
      var answered := AnsweredOnes(more);
      if Answered(x) {
        BatchRoundTrip(x, Delivered(more, None));
        OneReadyPerBatch(x);
        CountReadyConcat(Batch(x).value, Delivered(more, None));
        ReadSessionStep(x.kind, Kinds(answered), Batch(x).value + Delivered(more, None), Meant(x),
                        Delivered(more, None), AllMeant(answered));
        assert Kinds([x] + answered) == [x.kind] + Kinds(answered);
        assert AllMeant([x] + answered) == [Meant(x)] + AllMeant(answered);
      } else {
        assert [] + Delivered(more, None) == Delivered(more, None);
      }
    }
  }

  /** The grammar of a connection that does not break: what is delivered in the message loop
      is one batch per answered message, in order, each with the meant content and each ended
      by exactly one ReadyForQuery, and nothing else. */
  lemma ConversationGrammar(s: State, id: SessionId)
    requires s.flushes == None && s.delivered == []
    ensures var answered := AnsweredOnes(Exchanges(s.incoming, s.replies, None));
            var delivered := Messages(s, id).delivered;
            && ReadSession(Kinds(answered), delivered) == Some(AllMeant(answered))
            && CountReady(delivered) == |answered|
  {
    MessageLoopIs(s, id);
    var xs := Exchanges(s.incoming, s.replies, None);
    DeliveredReads(xs);
    assert [] + Delivered(xs, None) == Delivered(xs, None);
  }

  /** Only the last exchange can go unanswered: the loop ends there. */
  lemma {:induction false} AllButTheLastAnswered(incoming: seq<Incoming>, replies: seq<HttpReply>,
                                                 flushes: Option<nat>, k: nat)
    requires k + 1 < |Exchanges(incoming, replies, flushes)|
    ensures Answered(Exchanges(incoming, replies, flushes)[k])
    decreases |incoming|
  {
    hide Parser.Extracted;
    if incoming[0].Silent? {
      AllButTheLastAnswered(incoming[1..], replies, flushes, k);
    } else if k > 0 {
      var x := Exchange(incoming[0].kind, Parser.Extracted(incoming[0].kind, incoming[0].payload),
        incoming[0].payload, Head(replies));
      AllButTheLastAnswered(incoming[1..], Rest(replies), if Answered(x) then Spend(flushes) else flushes, k - 1);
    }
  }

  /** The tag of a result counts its rows: for a statement that starts with SELECT, SHOW,
      EXPLAIN or DESCRIBE, the number the client reads in the tag is the number of data rows. */
  lemma TagCountsDataRows(x: Exchange)
    requires Answered(x) && Meant(x).Result? && Text.CountsRows(Text.CommandWord(x.sql))
    ensures Text.TagCount(Meant(x).tag) == Some(|Meant(x).rows|)
  {
    hide Text.CommandWord, Text.CountsRows, Text.TagCount, Text.PgTag;
    var result := x.outcome.response;
    TagIgnoresAffected(x.sql, |result.rows|, result.rowsAffected);
    Text.TagNumbers(x.sql, |result.rows|, 0);
  }

  lemma TagIgnoresAffected(sql: bytes, numRows: nat, affected: int)
    requires Text.CountsRows(Text.CommandWord(sql))
    ensures Text.PgTag(sql, numRows, affected) == Text.PgTag(sql, numRows, 0)
  {
    hide Text.CommandWord, Text.CountsRows, Text.CountsAffected, Text.Words, Text.Tag, Text.IsDdl, Text.Widen, Decimal;
    Text.CountedWords(Text.CommandWord(sql));
  }

  /** For Execute the tag is made from an empty text: it never names a command, and carries a
      number only when rows were affected. */
  lemma ExecuteTagHasNoCommand(payload: bytes, numRows: nat, affected: int)
    ensures var tag := Text.PgTag(Parser.Extracted(EXECUTE, payload), numRows, affected);
            tag == if affected > 0 then [0x20] + Decimal(affected) else []
  {
    hide Decimal;
    assert Text.CommandWord([]) == [] && Text.Widen([]) == [];
    assert [] + [0x20] == [0x20];
  }

  // ---------- session lifecycle ----------

  lemma CallsOfConnection(s: State, startup: Option<bytes>, session: Option<SessionId>)
    requires s.calls == []
    ensures var (end, ending) := Connection(s, startup, session);
            match ending
            case Closed(id) =>
              && session == Some(id) && startup.Some?
              && end.calls == [Open(startup.value)]
                              + QueryCalls(id, Exchanges(s.incoming, s.replies, Spend(s.flushes))) + [Close(id)]
            case AuthLost(id) => session == Some(id) && startup.Some? && end.calls == [Open(startup.value)]
            case Refused => session == None && startup.Some? && end.calls == [Open(startup.value)]
            case NoStartup => end.calls == []
  {
    hide Messages, Greeting, Exchanges;
    if startup.Some? && session.Some? {
      var s1 := s.(calls := s.calls + [Open(startup.value)]);
      MessageLoopIs(Deliver(s1, Some(Greeting())), session.value);
    }
  }

  /** Session lifecycle of the PG proxy: a run that enters the message loop makes exactly one
      CloseSession call, for the id it was given, as its last call, and names no other id. */
  lemma SessionLifecycle(s: State, startup: Option<bytes>, session: Option<SessionId>)
    requires s.calls == []
    ensures var (end, ending) := Connection(s, startup, session);
            ending.Closed? ==>
              && session == Some(ending.id)
              && (forall i :: 0 <= i < |end.calls| ==>
                    && (end.calls[i].Close? <==> i == |end.calls| - 1)
                    && (end.calls[i].Open? <==> i == 0)
                    && (!end.calls[i].Open? ==> end.calls[i].id == ending.id))
  {
    hide Connection, Exchanges;
    CallsOfConnection(s, startup, session);
  }

  /** A session that was given out is closed exactly when the greeting could be flushed. */
  lemma SessionIsClosedExactlyWhen(s: State, raw: bytes, id: SessionId)
    requires s.calls == []
    ensures Close(id) in Connection(s, Some(raw), Some(id)).0.calls <==> s.flushes != Some(0)
  {
    hide Messages, Greeting, Exchanges;
    var (end, ending) := Connection(s, Some(raw), Some(id));
    CallsOfConnection(s, Some(raw), Some(id));
    if ending.Closed? {
      assert end.calls[|end.calls| - 1] == Close(id);
    }
  }
}
