/** The state behind the HTTP server, and the atomic steps its methods are made of: each step
    is one lock region of the handler or one call of a pool manager (pkg/handler/handler.go). */
module HandlerState {
  import opened ByteStrings
  import opened Http
  import opened MessageTypes
  import opened Pools
  import Text = SqlText

  datatype Which = PG | MY

  datatype Protocol = PgSQL | MySQL | Unsupported

  /** Where the pool is in reading a result. */
  datatype ReadStep = GetColumns | ScanRow | NextRow

  /** What the database makes of a statement: it refuses it, it breaks off while the pool reads
      the result (a command, whose result is not read, then just fails), or it is done. */
  datatype DbOutcome =
    | DbFailed(text: bytes)
    | DbBrokeOff(step: ReadStep, text: bytes)
    | DbDone(columns: seq<bytes>, rows: seq<seq<Option<bytes>>>, affected: int64)

  /** A connection of one of the databases. */
  datatype Connection = On(w: Which, lease: Lease)

  /** One statement run on a connection, for a session, and the response made of it. */
  datatype Statement = Statement(w: Which, lease: Lease, id: SessionId, sql: bytes, response: QueryResponse)

  /** `ran` is the record of the databases: everything any connection was given to run. */
  datatype HState = HState(
    pg: PoolState, my: PoolState, hasMy: bool,
    mapped: map<SessionId, Which>, stmts: map<SessionId, bytes>, ran: seq<Statement>)
  {
    function Pool(w: Which): PoolState {
      if w.PG? then pg else my
    }

    function WithPool(w: Which, p: PoolState): HState {
      if w.PG? then this.(pg := p) else this.(my := p)
    }

    // ---------- CreateSession ----------

    function PoolFor(protocol: Protocol): Option<Which> {
      match protocol
      case PgSQL => Some(PG)
      case MySQL => if hasMy then Some(MY) else None
      case Unsupported => None
    }

    function AcquireStep(w: Which, id: SessionId, reachable: bool): (HState, Acquired) {
      var (p, r) := Pool(w).Acquire(id, reachable);
      (WithPool(w, p), r)
    }

    function RecordStep(w: Which, id: SessionId): HState {
      this.(mapped := mapped[id := w])
    }

    // ---------- HandleQuery ----------

    function CacheStep(id: SessionId, sql: bytes): HState {
      this.(stmts := stmts[id := sql])
    }

    /** The cached statement; an absent one and an empty one are treated alike. */
    function Cached(id: SessionId): bytes {
      if id in stmts then stmts[id] else []
    }

    /** getSessionPool: the mapped pool, else the PG pool. */
    function LookupStep(id: SessionId): Which {
      if id in mapped then mapped[id] else PG
    }

    /** The connection is given the statement, unless it was given back in the meantime. */
    function RunStep(w: Which, lease: Lease, id: SessionId, sql: bytes, db: DbOutcome): (HState, QueryResponse) {
      if lease in Pool(w).backing.returned then (this, ConnectionGone())
      else
        var response := Respond(sql, db);
        (this.(ran := ran + [Statement(w, lease, id, sql, response)]), response)
    }

    // ---------- CloseSession ----------

    function ReleaseStep(w: Which, id: SessionId): HState {
      WithPool(w, Pool(w).Release(id))
    }

    function ForgetStep(id: SessionId): HState {
      this.(stmts := stmts - {id}, mapped := mapped - {id})
    }
  }

  // ---------- responses ----------

  const TRUNCATE: bytes := Ascii("TRUNCATE")
  const SET: bytes := Ascii("SET")
  const BEGIN: bytes := Ascii("BEGIN")
  const COMMIT: bytes := Ascii("COMMIT")
  const ROLLBACK: bytes := Ascii("ROLLBACK")
  const GRANT: bytes := Ascii("GRANT")
  const REVOKE: bytes := Ascii("REVOKE")
  const VACUUM: bytes := Ascii("VACUUM")

  lemma CommandLetters()
    ensures TRUNCATE[0] == 0x54 && SET[0] == 0x53 && SET[1] == 0x45 && SET[2] == 0x54 && BEGIN[0] == 0x42
    ensures COMMIT[0] == 0x43 && ROLLBACK[0] == 0x52 && GRANT[0] == 0x47 && REVOKE[0] == 0x52 && VACUUM[0] == 0x56
  {
  }

  /** The command words executeSQL runs as commands; all others are queries. */
  predicate IsCommand(word: bytes) {
    || word == Text.INSERT || word == Text.UPDATE || word == Text.DELETE
    || word == Text.CREATE || word == Text.ALTER || word == Text.DROP || word == TRUNCATE
    || word == SET || word == BEGIN || word == COMMIT || word == ROLLBACK
    || word == GRANT || word == REVOKE || word == Text.COPY || word == VACUUM
  }

  /** A query shows columns and rows and no count; a command shows only the count. */
  function Respond(sql: bytes, db: DbOutcome): QueryResponse {
    var command := IsCommand(Text.CommandWord(sql));
    match db
    case DbFailed(text) => Failure(Ascii(if command then "exec failed: " else "query failed: ") + text)
    case DbBrokeOff(step, text) => Failure((if command then Ascii("exec failed: ") else Reading(step)) + text)
    case DbDone(columns, rows, affected) =>
      if command then QueryResponse([], [], affected, []) else QueryResponse(columns, RowsText(rows), 0, [])
  }

  /** How the pools name the steps of reading a result. */
  function Reading(step: ReadStep): bytes {
    match step
    case GetColumns => Ascii("get columns: ")
    case ScanRow => Ascii("scan row: ")
    case NextRow => Ascii("rows iteration: ")
  }

  function Failure(text: bytes): QueryResponse {
    QueryResponse([], [], 0, text)
  }

  function Nothing(): QueryResponse {
    QueryResponse([], [], 0, [])
  }

  function NotFound(id: SessionId): QueryResponse {
    Failure(Ascii("session ") + id + Ascii(" not found"))
  }

  function ConnectionGone(): QueryResponse {
    Failure(Ascii("query failed: connection is released"))
  }

  const NO_STATEMENT: bytes := Ascii("no parsed statement found for session")

  // ---------- the methods, run without interruption ----------

  /** What CreateSession comes to: a session, an error, or it has not returned. */
  datatype Creation = Made(id: SessionId) | Denied | StillWaiting

  function CreateSession(h: HState, protocol: Protocol, id: SessionId, reachable: bool): (HState, Creation) {
    match h.PoolFor(protocol)
    case None => (h, Denied)
    case Some(w) =>
      var (h1, r) := h.AcquireStep(w, id, reachable);
      match r
      case Got => (h1.RecordStep(w, id), Made(id))
      case Failed => (h1, Denied)
      case Waits => (h1, StillWaiting)
  }

  /** executeSQL on the connection of a session. */
  function Execute(h: HState, id: SessionId, sql: bytes, db: DbOutcome): (HState, QueryResponse) {
    var w := h.LookupStep(id);
    match h.Pool(w).Find(id)
    case None => (h, NotFound(id))
    case Some(lease) => h.RunStep(w, lease, id, sql, db)
  }

  function HandleQuery(h: HState, id: SessionId, kind: byte, sql: bytes, db: DbOutcome): (HState, HttpReply) {
    if kind == PARSE then (h.CacheStep(id, sql), Replied(Nothing()))
    else if kind == BIND then
      (h, Replied(if h.Cached(id) == [] then Failure(NO_STATEMENT) else Nothing()))
    else if kind == DESCRIBE || kind == SYNC then (h, Replied(Nothing()))
    else if kind == EXECUTE && h.Cached(id) == [] then (h, HttpFailed(NO_STATEMENT))
    else
      var (h1, response) := Execute(h, id, if kind == EXECUTE then h.Cached(id) else sql, db);
      (h1, Replied(response))
  }

  function CloseSession(h: HState, id: SessionId): HState {
    var h1 := if id in h.mapped then h.ReleaseStep(h.mapped[id], id)
              else h.ReleaseStep(PG, id).ReleaseStep(MY, id);
    h1.ForgetStep(id)
  }
}
