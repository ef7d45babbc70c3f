/** The framework-independent handler (pkg/handler/handler.go). */
module Handlers {
  import opened ByteStrings
  import opened Http
  import opened MessageTypes
  import opened Pools
  import H = HandlerState
  import Text = SqlText

  class Handler {
    const pgPool: PoolManager
    const mysqlPool: PoolManager?
    var stmts: map<SessionId, bytes>
    var sessionPools: map<SessionId, H.Which>
    /** What the databases were given to run. */
    var ran: seq<H.Statement>

    predicate Valid() {
      pgPool != mysqlPool
    }

    function State(): H.HState
      reads this, pgPool, mysqlPool
    {
      H.HState(pgPool.State(), if mysqlPool == null then Empty(None) else mysqlPool.State(), mysqlPool != null,
               sessionPools, stmts, ran)
    }

    constructor (pgPool: PoolManager, mysqlPool: PoolManager?)
      requires pgPool != mysqlPool
      ensures Valid() && this.pgPool == pgPool && this.mysqlPool == mysqlPool
      ensures sessionPools == map[] && stmts == map[] && ran == []
    {
      this.pgPool, this.mysqlPool := pgPool, mysqlPool;
      stmts, sessionPools, ran := map[], map[], [];
    }

    /** `id` is the new UUID. */
    method CreateSession(protocol: H.Protocol, id: SessionId, reachable: bool) returns (r: H.Creation)
      requires Valid()
      modifies this`sessionPools, pgPool, mysqlPool
      ensures (State(), r) == H.CreateSession(old(State()), protocol, id, reachable)
    {
      var pool: PoolManager?, w := null, H.PG;
      match protocol {
        case PgSQL => pool, w := pgPool, H.PG;
        case MySQL => pool, w := mysqlPool, H.MY;
        case Unsupported =>
      }
      if pool == null {
        return H.Denied;
      }
      var acquired := pool.AcquireSession(id, reachable);
      match acquired {
        case Got =>
          sessionPools := sessionPools[id := w];
          return H.Made(id);
        case Failed =>
          return H.Denied;
        case Waits =>
          return H.StillWaiting;
      }
    }

    method HandleQuery(id: SessionId, kind: byte, sql: bytes, db: H.DbOutcome) returns (r: HttpReply)
      requires Valid()
      modifies this`stmts, this`ran
      ensures (State(), r) == H.HandleQuery(old(State()), id, kind, sql, db)
    {
      hide H.Respond;
      var statement := sql;
      if kind == PARSE {
        stmts := stmts[id := sql];
        return Replied(H.Nothing());
      }
      if kind == BIND {
        if id !in stmts || stmts[id] == [] {
          return Replied(H.Failure(H.NO_STATEMENT));
        }
        return Replied(H.Nothing());
      }
      if kind == DESCRIBE {
        return Replied(H.Nothing());
      }
      if kind == SYNC {
        return Replied(H.Nothing());
      }
      if kind == EXECUTE {
        if id !in stmts || stmts[id] == [] {
          return HttpFailed(H.NO_STATEMENT);
        }
        statement := stmts[id];
      }
      var response := ExecuteSQL(id, statement, db);
      return Replied(response);
    }

    /** getSessionPool and the session lookup of ExecSQL and ExecCommand. */
    method ExecuteSQL(id: SessionId, sql: bytes, db: H.DbOutcome) returns (response: QueryResponse)
      requires Valid()
      modifies this`ran
      ensures (State(), response) == H.Execute(old(State()), id, sql, db)
    {
      hide H.IsCommand, Text.CommandWord, RowsText;
      var cmdType := Text.SqlCommandType(sql);
      var w := if id in sessionPools then sessionPools[id] else H.PG;
      var pool: PoolManager? := if w == H.PG then pgPool else mysqlPool;
      if pool == null {
        return H.NotFound(id);
      }
      var conn := pool.GetSessionConn(id);
      if conn.None? {
        return H.NotFound(id);
      }
      if conn.value in pool.pool.returned {
        return H.ConnectionGone();
      }
      match db {
        case DbFailed(text) =>
          response := H.Failure(Ascii(if H.IsCommand(cmdType) then "exec failed: " else "query failed: ") + text);
        case DbBrokeOff(step, text) =>
          response := H.Failure((if H.IsCommand(cmdType) then Ascii("exec failed: ") else H.Reading(step)) + text);
        case DbDone(columns, rows, affected) =>
          if H.IsCommand(cmdType) {
            response := QueryResponse([], [], affected, []);
          } else {
            var texts := PoolManager.RowsToText(rows);
            response := QueryResponse(columns, texts, 0, []);
          }
      }
      ran := ran + [H.Statement(w, conn.value, id, sql, response)];
    }

    method CloseSession(id: SessionId)
      requires Valid()
      modifies this`stmts, this`sessionPools, pgPool, mysqlPool
      ensures State() == H.CloseSession(old(State()), id)
    {
      if id in sessionPools {
        if sessionPools[id] == H.PG {
          pgPool.ReleaseSession(id);
        } else if mysqlPool != null {
          mysqlPool.ReleaseSession(id);
        }
      } else {
        pgPool.ReleaseSession(id);
        if mysqlPool != null {
          mysqlPool.ReleaseSession(id);
        }
      }
      stmts := stmts - {id};
      sessionPools := sessionPools - {id};
    }
  }
}
