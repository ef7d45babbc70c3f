/** The HTTP server as the proxies see it (pkg/httpclient/client.go), with encryption and
    JSON taken as faithful. */
module Http {
  import opened ByteStrings

  /** The text both pools put in place of an SQL null. */
  const NULL_TEXT: bytes := [0x4E, 0x55, 0x4C, 0x4C]

  /** The reply of the HTTP server, as both proxies and the handler know it. */
  datatype QueryResponse = QueryResponse(
    columns: seq<bytes>, rows: seq<seq<bytes>>, rowsAffected: int64, error: bytes)

  /** The text of a UUID. */
  type SessionId = s: bytes | |s| == 36 witness seq(36, _ => 0x30)

  datatype HttpCall =
    | Open(params: bytes)
    | Query(id: SessionId, kind: byte, sql: bytes, raw: bytes)
    | Close(id: SessionId)

  /** The outcome of a query request: the call fails, the body is not the expected JSON, or a reply. */
  datatype HttpReply = HttpFailed(text: bytes) | BadJson | Replied(response: QueryResponse)

  /** The HTTP client, with the outcomes of its calls to come and a record of the calls made.
      A query beyond the outcomes fails. */
  class HttpClient {
    var session: Option<SessionId>
    var replies: seq<HttpReply>
    var calls: seq<HttpCall>

    constructor (session: Option<SessionId>, replies: seq<HttpReply>)
      ensures this.session == session && this.replies == replies && calls == []
    {
      this.session, this.replies, calls := session, replies, [];
    }

    method SessionRequest(params: bytes) returns (id: Option<SessionId>)
      modifies this`calls
      ensures id == session && calls == old(calls) + [Open(params)]
    {
      id := session;
      calls := calls + [Open(params)];
    }

    method QueryRequest(id: SessionId, kind: byte, sql: bytes, raw: bytes) returns (reply: HttpReply)
      modifies this`calls, this`replies
      ensures reply == Head(old(replies)) && replies == Rest(old(replies))
      ensures calls == old(calls) + [Query(id, kind, sql, raw)]
    {
      reply := Head(replies);
      replies := Rest(replies);
      calls := calls + [Query(id, kind, sql, raw)];
    }

    method CloseSession(id: SessionId)
      modifies this`calls
      ensures calls == old(calls) + [Close(id)]
    {
      calls := calls + [Close(id)];
    }
  }

  function Head(replies: seq<HttpReply>): HttpReply {
    if replies == [] then HttpFailed([]) else replies[0]
  }

  function Rest(replies: seq<HttpReply>): seq<HttpReply> {
    if replies == [] then [] else replies[1..]
  }

  predicate Countable(replies: seq<HttpReply>) {
    forall r <- replies :: r.Replied? ==> |r.response.columns| < TWO_64
  }
}
