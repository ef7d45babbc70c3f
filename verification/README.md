# Verification model of the SQL tunnelling proxies

The program lets database clients reach PostgreSQL and MySQL through HTTP. A proxy on the
client's side speaks the database's own wire protocol, turns every connection into a session
of an HTTP server and every command into an HTTP query; the server keeps one dedicated
database connection per session. This project models that path in Dafny and proves what it
promises: that bytes survive it, and that sessions do not leak into each other.

From the bottom up:

| file | what it models |
|---|---|
| `ByteStrings`, `MessageTypes` | bytes, little- and big-endian integers, decimal text, message types |
| `Wire` | sockets that break after any number of bytes, packet framing, `ReadPacket`, `WritePacket` |
| `LenEnc`, `Packets` | the hand-written MySQL encoders: integers, strings, OK/ERR/EOF, columns, rows, result sets |
| `Handshake`, `HandshakeReader` | `ParseHandshakeResponse`, with its panics and its third auth branch, and a reader without positions that agrees with it on every payload |
| `MySqlClient`, `MySqlAnswers` | an independent client-side decoder, written from the protocol, and its inversion of the encoders |
| `MySqlProxy`, `MySqlConversation`, `MySqlLogin` | a whole MySQL connection: greeting and login, command loop, sequence numbers, HTTP calls, lifecycle |
| `PgParser` | the byte parser of the PostgreSQL side: NUL-separated fields, startup message |
| `PgProxy`, `PgConversation`, `PgForwarding` | a whole PostgreSQL connection, an independent reader of its start-up and its answer batches, and which messages are forwarded |
| `SqlText`, `PgTags` | the three statement scanners and the command tags, and what a client reads in a tag word by word |
| `Http` | requests and replies between proxy and server |
| `Pools` | the two pool managers |
| `HandlerState`, `Handler` | the handler's state, the atomic steps of its methods, and the methods themselves |
| `Interleaving`, `Ownership` | any number of calls, each cut at its lock regions and pool calls, in any order, with the pool locks held across the wait for a connection; what every order keeps |
| `Progress`, `Returns`, `Deadlock`, `ClientProgress`, `Capacity` | which calls return, the deadlock of a full pool, when a client gets on, and how many clients it takes to jam a pool |
| `Portals` | the statement an Execute runs, against the one its portal names |
| `Isolation` | requests handled one at a time: a session is a fold over its own messages |
| `Clients`, `PrivateConnections` | any number of proxy connections calling the interleaved handler; refinement to one private server per client |
| `EndToEnd` | from the bytes a client sends to the answers it reads, through all of the above |
| `Replies` | what the clients of both proxies are told of a statement, from what the database made of it |
| `FailingInputs` | an input at which each limited promise fails |

Methods with loops and state (`Conn`, `PoolManager`, `Handler`, the encoders, parsers and
connection loops) follow the source step by step and are proved equal to functions; the
lemmas are about those functions. The two sides of every encoding are written separately.

The main results:

- **End to end** (`EndToEnd.MySqlEndToEnd`, `EndToEnd.PgEndToEnd`). Take any number of
  connections of both kinds and any interleaving of the handler's steps. When a connection has
  left, exactly one connection was ever taken for it, of the database of its protocol; that
  connection ran exactly what its messages say and nothing else, and was given back; and the
  client has read one complete answer per command, made of the responses of those very
  statements.
- **Refinement** (`Clients.MoveRefines`, `PrivateConnections.EveryClientIsPrivate`). Every step
  of the real system is, for each client's private server, nothing, the serving of its next
  request, or its closing; and it is nothing for all clients but one.
- **Ownership** (`Ownership.SessionOwnership`, `Ownership.ClosedOrUnknownRunsNothing`).
- **Progress and deadlock** (`Returns.EveryCallReturnsExactlyWhen`, `Deadlock.DeadlockAtCapacity`,
  `ClientProgress.GetsOnExactlyWhen`). AcquireSession keeps the pool's lock while it waits for a
  connection, and every release and every lookup needs that lock. So once all connections are
  in use, one more client stops the pool: nothing is served, nothing is released, and the wait
  cannot end except by the end of its context. As long as no context ends, every call returns if
  and only if every acquire that takes a lock finds the map below the capacity. And this can be
  told before the start (`Capacity.JamReachableExactlyWhen`): a pool can jam if and only if more
  clients speak its protocol than it has connections.
- **The right answers** (`Replies.MySqlIsTold`, `Replies.PgIsTold`, `Replies.EveryAnswerIsTold`). The
  client of either proxy reads an error if and only if the database refused the statement or broke
  off, with the database's own text; otherwise the count of a command or the columns and rows of a
  query. Which statements are commands, and every text, code and number told, is written out.
- **Every message is forwarded** (`PgForwarding.AllForwardedExactlyWhen`). The messages of a
  PostgreSQL client before its Terminate all reach the server, in order, if and only if none but the
  last meets a failed request, an undecodable reply, or a failed flush of a batch without an error
  text. An error answered by the database does not end the loop.
- **Whole connections** (`MySqlLogin.WholeConnection`, `PgForwarding.WholeConnection`): all that a
  client reads on a link that does not break, from the greeting to the last answer.
- **Unambiguous answers** (`MySqlConversation.AnsweredExactly`,
  `MySqlAnswers.AnswerArrivesExactlyWhenItFits`): the client gets the meant answer if and only
  if the reply could be decoded and all its packets fit.

Where a promise fails, the exact condition is proved:

- A result with columns arrives unchanged if and only if its statement runs as a query (the rows
  of `INSERT ... RETURNING` are dropped) and no cell is the text `NULL`
  (`EndToEnd.MySqlTableArrivesExactly`, `EndToEnd.PgTableArrivesExactly`).
- A MySQL client is told the affected rows if and only if the statement runs as a command, or there
  were none and no columns; not for a command word in lower case (`EndToEnd.MySqlCountArrivesExactly`).
- A PostgreSQL client reads the affected rows in the tag if and only if there are some and the
  statement runs as a command other than `CREATE`, `ALTER` and `DROP`, or there are none and it is
  one of the six whose tag always has a count, or the tag happens to have that number anyway: of
  rows, or a word of the statement (`EndToEnd.PgCountArrivesExactly`, over every statement). So not
  for `CREATE TABLE ... AS`, not for `MOVE` and `FETCH`, not for a command word in lower case, and
  no zero for `BEGIN`. After an Execute: if and only if there are some and the statement it ran is
  a command (`EndToEnd.PgExecuteCountArrivesExactly`).
- An Execute runs the statement its portal names if and only if that and the last Parse before it
  have the same text (`Portals.ExecuteRunsItsPortalExactlyWhen`).
- A handshake response is recovered if and only if its auth field carries its length or no
  field follows it (`Handshake.HandshakeRoundTrip`; `NullTerminatedAuthMisread` is an example).
- The handshake parser panics exactly on payloads of four to eight bytes and on announced auth
  lengths that overflow (`Handshake.ParsesWithoutPanicExactly`). Nothing recovers from such a
  panic, so it ends the whole proxy process: all its other connections break off with it, and
  none of their sessions is closed. The model ends the one connection (`MySqlProxy.Panicked`).
- A length-encoded integer is decoded to itself exactly below 2^63
  (`LenEnc.DecodeUndoesEncode`).
- A session that was given out is closed exactly when the end of the handshake could be written
  (`SessionIsClosedExactlyWhen` for both proxies); otherwise it is never closed, and holds its
  database connection for good (`EndToEnd.LostHoldsForGood`).
- On every payload that does not make it panic, malformed ones, too, the handshake parser gives the
  fields a reader without positions finds (`HandshakeReader.ParsesWhatIsRead`); any startup message
  of eight bytes or more yields its complete pairs (`PgParser.AnyStartupParses`).
- The two command scanners agree exactly on ASCII command words (`SqlText.ScannersAgree`).
- An over-long packet cuts a result set short, and what was sent is no answer at all: a client can
  only take bytes of a later answer for it (`MySqlAnswers.CutOffIsNoAnswer`); an undecodable reply
  is not answered.

Where the code differs from the protocol descriptions the model follows the code: the info of
an OK packet is length-encoded; `COM_STMT_CLOSE` is answered with an error; ReadyForQuery
follows every forwarded message; the tag of Execute is made from an empty text.

## Model

| member | source | states |
|---|---|---|
| EndToEnd.MySqlEndToEnd | pkg/mysqlproxy/proxy.go:124-229 | For any connections in any interleaving: a MySQL connection that left had exactly one connection of the MySQL pool, which ran exactly its COM_QUERY texts in order and nothing else and was given back, and its client reads one meant answer per command made of those statements' responses |
| EndToEnd.PgEndToEnd | pkg/pgproxy/proxy.go:125-291 | The same for a PostgreSQL connection, on one connection of the PostgreSQL pool: its requests are, by type and payload, a front of the messages its client sent before Terminate, and all of them iff none but the last met a failed request, an undecodable reply or a failed flush without an error text; its statements are what they say (Execute: the latest Parse), every reply is due to its request, and the client reads one batch per message |
| EndToEnd.EveryClientIsServed | pkg/handler/handler.go:117-220 | In every reachable state each client has sent only what its loop asks for, and each of its replies is that of the very statement its own request ran, all on its one connection of the database of its protocol |
| EndToEnd.MySqlRunsItsQueries | pkg/mysqlproxy/proxy.go:147-161 | At any moment the statements of a MySQL connection are a prefix of its COM_QUERY texts and its k-th reply is the response of the k-th |
| EndToEnd.PgIsServed | pkg/pgproxy/proxy.go:136-174 | For a PostgreSQL connection that left: one reply was got for each forwarded message, each is the one due to it, and what ran for the session is what these messages say (which are forwarded is in PgForwarding.ExchangesForward) |
| EndToEnd.PgReads | pkg/pgproxy/proxy.go:188-285 | The batches delivered for decodable replies read back as the meant answers |
| EndToEnd.LoopReads | pkg/mysqlproxy/proxy.go:124-223 | The bytes the command loop writes for given replies read back as the meant answers, from any client input |
| EndToEnd.MySqlTableArrivesExactly | pkg/mysqlproxy/protocol.go:516-570 | A MySQL client is shown the database's own columns, each under its own name, and cells, nulls included, iff the statement runs as a query and no value is the text NULL |
| EndToEnd.PgTableArrivesExactly | pkg/pgproxy/proxy.go:264-274 | A PostgreSQL client gets the database's own columns and cells iff the statement runs as a query and no value is the text NULL |
| EndToEnd.MySqlCountArrivesExactly | pkg/handler/handler.go:223-260 | A MySQL client is told the affected rows iff the statement runs as a command, or there were none and no columns |
| EndToEnd.MySqlInfoCounts | pkg/mysqlproxy/proxy.go:237-241 | For a command, the numbers a client reads in the info of its OK packet are the affected rows |
| EndToEnd.PgCountArrivesExactly | pkg/pgproxy/proxy.go:305-323 | For every statement and result, the number a PostgreSQL client reads in the tag is the affected count iff rows were affected by a command other than CREATE, ALTER and DROP, or none by one of the six statements whose tag always counts, or the tag has that number of itself |
| EndToEnd.PgExecuteCountArrivesExactly | pkg/pgproxy/proxy.go:245-246 | After an Execute the number in the tag is the affected count iff it is not zero and the statement run is a command |
| EndToEnd.LostHoldsForGood | pkg/pgproxy/proxy.go:119-122 | A client given a session but lost before its loop stays so and holds its one database connection, whatever happens |
| PrivateConnections.EveryClientIsPrivate | pkg/handler/handler.go:72-290 | Over every run, what was run for a client and answered to it is the history of a server with that one client and one connection; exactly one connection was taken for it, of the database of its protocol, and ran that and nothing else |
| PrivateConnections.ExplainedStep | pkg/handler/handler.go:117-290 | Each happening extends the private history by at most one served request |
| PrivateConnections.PrivateIs | pkg/handler/handler.go:132-206 | A private server caches the last Parse, runs for Execute the last non-empty Parse before it, for the other four nothing, else the own text, and gives the reply due to each request |
| PrivateConnections.FoldIsPrivate | pkg/handler/handler.go:132-206 | Served one at a time, a live session runs the very texts of a private server |
| ClientProgress.GetsOnExactlyWhen | pkg/pgpool/pool.go:49-84 | In every reachable state a client can get on, in some course of events without the end of a context, iff no acquire is inside the full pool its next step needs |
| ClientProgress.NeverStuck | pkg/mysqlproxy/proxy.go:107-229 | Unless its next step is at a jammed pool, a client gets on within two happenings: its own move, or a turn of its call after one of the call that holds the lock |
| ClientProgress.TakesItsMove | pkg/mysqlproxy/proxy.go:107-229 | A client whose call has returned can take the result, and one between calls can ask or leave |
| Clients.MoveRefines | pkg/handler/handler.go:72-290 | Every happening keeps the system invariant and is for every private connection nothing, one request served or its closing, and nothing for all but one client |
| Clients.AskStep | pkg/handler/handler.go:132-206 | One step of an interleaved query is no step of its client's private connection or the whole serving of the request |
| Clients.OtherStep | pkg/handler/handler.go:117-290 | A step of one client's call leaves every other client's phase, session and view as they are |
| Clients.StepIsLocal | pkg/handler/handler.go:134-137 | A step of a call changes nothing (cache, statements, known, released, home pool) of any other session |
| Clients.LiveRuns | pkg/pgpool/pool.go:67-84 | A live session's call about to run has a connection that was not given back |
| Clients.NextIsSettled | pkg/pgproxy/proxy.go:125-190 | The next request of a loop depends only on the replies it has had |
| Ownership.SessionOwnership | pkg/handler/handler.go:79-97 | After any events: an id is held by at most one pool; a mapped unreleased id by exactly its mapped pool; a held id is mapped or being recorded; no connection is shared or given back twice |
| Ownership.ConnectionIsPrivate | pkg/handler/handler.go:237-260 | After any events: what ran on a session's connection is exactly what was run for the session |
| Ownership.ClosedOrUnknownRunsNothing | pkg/handler/handler.go:318-327 | A query for a closed or never-created id, interleaved with anything, runs nothing and ends in not-found or no-statement; nothing runs for that id again |
| Returns.EveryCallReturnsExactlyWhen | pkg/mysqlpool/pool.go:61-87 | From any reachable state, under any schedule with enough rounds and no end of a context, all calls return iff no acquire was inside a full pool and every acquire that took a lock found the map below the capacity |
| Progress.PoolStepExactlyWhen | pkg/pgpool/pool.go:49-84 | A call that needs a pool's lock can take its step iff no acquire is inside that pool while it is full |
| Progress.FullPoolStops | pkg/pgpool/pool.go:49-84 | While an acquire waits at capacity, whatever else happens, the pool does not change and no call that needs it moves |
| Progress.JamExactlyWhen | pkg/pgpool/pool.go:50-62 | A run without the end of a context is free of such a wait iff every acquire that took a lock found room |
| Progress.SomeCallMoves | pkg/mysqlpool/pool.go:61-87 | Otherwise there is no deadlock: if a call is unfinished, it or the holder of the lock it waits for moves on its next turn |
| Returns.FreeTurnsBringReturn | pkg/handler/handler.go:117-290 | With new calls arriving, at most four turns that find the lock free bring a call to its return |
| Deadlock.DeadlockAtCapacity | pkg/pgpool/pool.go:49-75 | For both pools and every capacity: that many live sessions and one client more are reached from the start, and from then on no statement runs on the pool, nothing is released and no call that needs the pool goes on |
| Capacity.JamReachableExactlyWhen | pkg/mysqlpool/pool.go:61-76 | From the start, a pool can jam without the end of a context iff more clients speak its protocol than it has connections |
| Capacity.NeverJams | pkg/pgpool/pool.go:49-64 | With as many connections as clients of the protocol a pool never jams, whatever happens |
| Capacity.EnoughConnectionsSuffice | pkg/pgpool/pool.go:49-84 | With as many connections as clients, every client can get on in every reachable state |
| Capacity.JamCounts | pkg/pgpool/pool.go:49-64 | The sessions a pool holds and the one that waits are those of different clients of its protocol |
| Portals.ExecuteRunsItsPortalExactlyWhen | pkg/handler/handler.go:132-198 | An Execute runs the statement its portal names iff the Parse it was bound to and the last Parse have the same text |
| Portals.NoParseSinceIsEnough | pkg/handler/handler.go:132-198 | It does if no Parse has come since the one its portal is bound to |
| Portals.ExecuteRunsTheWrongStatement | pkg/handler/handler.go:189-198 | Parse s1, Parse s2, Bind s1, Execute runs the text of s2 |
| Deadlock.TwentyFirstClientStopsThePool | config.json:6 | The same at the configured capacity of 20 |
| Deadlock.JamRunsNothing | pkg/pgpool/pool.go:78-84 | While a pool is jammed its database is given no statement once those already running are done |
| Interleaving.ApplyKeepsInv | pkg/handler/handler.go:72-290 | Every step of every call keeps the invariant of sessions, pools, connections and calls in flight |
| Interleaving.RunKeepsInv | pkg/handler/handler.go:72-290 | Hence every run does |
| Interleaving.AcquireKeeps | pkg/pgpool/pool.go:49-64 | Taking a connection for a new id keeps it and ties the connection to that id |
| Interleaving.ReleaseKeeps | pkg/handler/handler.go:267-281 | A release keeps it, also a second one, and one by a close that found no mapping |
| Interleaving.StepKeepsOthers | pkg/handler/handler.go:267-290 | A step of one call leaves true all that another call in flight relies on |
| Isolation.SessionFold | pkg/handler/handler.go:132-206 | One at a time, in any mix with other sessions: a session's cache, liveness and statements are a fold of its own messages |
| Isolation.OthersDoNotMatter | pkg/handler/handler.go:132-290 | Deleting all other sessions' messages changes nothing for a session |
| Isolation.WholeSession | pkg/handler/handler.go:72-290 | From an empty server, for a session created after any requests of others |
| Isolation.QueryAlone | pkg/handler/handler.go:117-206 | HandleQuery is the machine running that call uninterrupted: same state, same reply |
| Isolation.CloseAlone | pkg/handler/handler.go:267-290 | CloseSession is the machine running that call uninterrupted |
| Isolation.CreateAlone | pkg/handler/handler.go:72-98 | CreateSession is the machine running that call uninterrupted |
| Isolation.CloseServes | pkg/handler/handler.go:267-287 | A close ends its own session and leaves any other as it is |
| Isolation.CreatedIsLive | pkg/handler/handler.go:79-97 | After a successful CreateSession the session is live and has run nothing |
| Handlers.Handler.CreateSession | pkg/handler/handler.go:72-98 | The method's new state and result are those of the steps acquire and record, or nothing changed: an error, or it has not returned |
| Handlers.Handler.HandleQuery | pkg/handler/handler.go:117-220 | The method's new state and reply are those of the step function, which Replies.QueryIsTold, UnknownIsTold and IdleIsTold read |
| Handlers.Handler.ExecuteSQL | pkg/handler/handler.go:223-260 | The statement runs on the connection of the mapped pool (else PG), as query or as command, or the session is not found; the response is the one Replies.MySqlIsTold and PgIsTold read |
| Handlers.Handler.CloseSession | pkg/handler/handler.go:267-290 | The mapped pool, or both, release the session and its entries go |
| Replies.MySqlIsTold | pkg/handler/handler.go:202-260 | What a MySQL client reads for COM_QUERY, by the first word of the statement and what the database made of it: error 1064 42000 iff the database refused or broke off, with its own text after exec failed, query failed or the step of reading; else the affected rows, status 2 and the info text of a command, or the columns by name and the rows of a query, a null and the text NULL as null |
| Replies.PgIsTold | pkg/handler/handler.go:202-260 | So does a PostgreSQL client after every message that runs a statement: an error with code 08000 and that text iff so, else no columns and no rows for a command, the columns and rows of a query, and the tag of the text that came with the message |
| Replies.EveryAnswerIsTold | pkg/handler/handler.go:117-260 | Over every run and for every client: of each statement run for it there is an outcome of the database that the answer made of it tells, to either client |
| Replies.CommandWordsAre | pkg/handler/handler.go:224-232 | The statements run as commands are those starting with one of fifteen words, written out |
| Replies.CommandShowsItsCount | pkg/handler/handler.go:247-260 | After any such command but CREATE, ALTER and DROP that affected rows, the tag ends in their number |
| Replies.QueryIsTold | pkg/handler/handler.go:184-220 | A live session's query, or its Execute after a Parse, is run on its own connection to its own database, answered with what that made of it, and changes nothing else |
| Replies.UnknownIsTold | pkg/pgpool/pool.go:115-119 | A session without a connection is told that it is not found, by its id, and runs nothing |
| Replies.IdleIsTold | pkg/handler/handler.go:132-198 | Of the requests that run nothing a PostgreSQL client reads an acknowledgement, no description, or the complaint that no statement was parsed, exactly for a Bind or Execute before any non-empty Parse |
| Replies.ClosedHoldsNothing | pkg/handler/handler.go:267-287 | After a close the session has no connection in its mapped pool, or in either if it had no mapping; its connections are given back and nothing else changes |
| Pools.PoolConservation | pkg/pgpool/pool.go:49-112 | Over any sequence of Acquire, Release and Close: every connection taken is held by exactly one session or was given back once, within the capacity; after Close nothing is held, for good |
| Pools.LeadsKeepsValid | pkg/mysqlpool/pool.go:61-113 | One call keeps that, and never takes back a return |
| Pools.AcquireKeepsValid | pkg/pgpool/pool.go:49-64 | Acquire keeps the accounts of connections: none lost, none shared, the capacity respected |
| Pools.ReleaseKeepsValid | pkg/mysqlpool/pool.go:79-87 | Release keeps them, gives a connection back at most once, and leaves the session without one |
| Pools.PoolManager.AcquireSession | pkg/pgpool/pool.go:49-64 | Idempotent for a session that has a connection; else takes one, fails unchanged, or has not returned: it waits at capacity, with the lock |
| Pools.PoolManager.ReleaseSession | pkg/mysqlpool/pool.go:79-87 | Gives back the session's connection, if it has one |
| Pools.PoolManager.GetSessionConn | pkg/pgpool/pool.go:78-84 | The connection held for the session, or none |
| Pools.PoolManager.Close | pkg/pgpool/pool.go:103-112 | Gives back every connection, in the order of the map, and closes the pool |
| Pools.PoolManager.RowsToText | pkg/mysqlpool/pool.go:138-164 | Every row keeps its width and order; a null becomes the text NULL |
| Wire.FramingRoundTrip | pkg/mysqlproxy/protocol.go:124-166 | Any packets of at most 2^24-1 bytes with any sequence bytes are read back as they were, nothing left |
| Wire.ReadAllInverts | pkg/mysqlproxy/protocol.go:124-141 | Any input is the frames of the packets read from it followed by what was not read: the wire splits one way only |
| Wire.SendPacketIs | pkg/mysqlproxy/protocol.go:144-166 | WritePacket refuses what does not fit without a byte sent, else sends the frame as far as the socket carries it |
| Wire.SendAllIs | pkg/mysqlproxy/proxy.go:183-189 | A run of packets puts on any socket the numbered frames before the first that does not fit, as far as it carries them |
| Wire.ReadPacket | pkg/mysqlproxy/protocol.go:124-141 | Takes exactly one frame off the connection, or fails having consumed the input |
| Wire.WritePacket | pkg/mysqlproxy/protocol.go:144-166 | What the write puts on the connection and whether it succeeds, also for over-long payloads and broken sockets |
| Wire.NumberedAt | pkg/mysqlproxy/proxy.go:183-189 | The k-th packet of an answer carries the start number plus k, modulo 256 |
| Wire.Conn.ReadFull | pkg/mysqlproxy/protocol.go:126-139 | Fills the buffer from the input, or fails at its end |
| ByteStrings.PutLE | pkg/mysqlproxy/protocol.go:528-549 | Writes the little-endian bytes in place and nothing else |
| ByteStrings.DecimalReads | pkg/pgproxy/proxy.go:309-313 | A count is printed in decimal, without leading zeros, a negative one after a minus sign |
| LenEnc.DecodeUndoesEncode | pkg/mysqlproxy/protocol.go:366-392 | Anywhere in any bytes, decoding stops right after the encoding and yields the value iff it is below 2^63 |
| LenEnc.DecodeLenEncInt | pkg/mysqlproxy/protocol.go:366-392 | On every input, truncated ones included, the cursor moves forward and stays in bounds, and only the eight-byte form yields 2^24 or more or a negative number |
| LenEnc.PrefixCode | pkg/mysqlproxy/protocol.go:528-550 | No encoding is a prefix of another |
| LenEnc.StringPrefixCode | pkg/mysqlproxy/protocol.go:553-556 | Nor of length-encoded strings |
| LenEnc.FirstByte | pkg/mysqlproxy/protocol.go:528-550 | An encoding never starts with 0xFB or 0xFF, with 0 only for 0, and with 0xFE exactly from 2^24 on |
| LenEnc.PutLenEncInt | pkg/mysqlproxy/protocol.go:528-550 | The array written has 1, 3, 4 or 9 bytes at the stated bounds and holds the encoding |
| Packets.BuildOKPacket | pkg/mysqlproxy/protocol.go:395-414 | The fields of an OK packet in order, info only when not empty |
| Packets.BuildERRPacket | pkg/mysqlproxy/protocol.go:417-440 | The fields of an ERR packet, the state padded or cut to five bytes |
| Packets.BuildEOFPacket | pkg/mysqlproxy/protocol.go:443-456 | The fields of an EOF packet |
| Packets.ColumnDef.Encode | pkg/mysqlproxy/protocol.go:474-513 | Six strings, then the twelve fixed bytes |
| Packets.BuildResultSetRow | pkg/mysqlproxy/protocol.go:560-570 | The cells in order, the text NULL as 0xFB |
| Packets.BuildResultSet | pkg/mysqlproxy/proxy.go:233-266 | One OK without columns; else count, definitions, EOF, rows, EOF (what a client reads of them: MySqlAnswers.TableRoundTrip, ColumnNameArrives) |
| MySqlClient.OkRoundTrip | pkg/mysqlproxy/protocol.go:395-414 | The client decoder recovers affected rows, last id, status, warnings and info |
| MySqlClient.ErrRoundTrip | pkg/mysqlproxy/protocol.go:417-440 | It recovers code, padded state and message |
| MySqlClient.ColumnRoundTrip | pkg/mysqlproxy/protocol.go:474-525 | It recovers all fields of a column definition that fits |
| MySqlClient.EofRoundTrip | pkg/mysqlproxy/protocol.go:443-456 | The client recovers the warnings and the status of an EOF packet; only one without warnings and with autocommit ends a table |
| MySqlClient.RowRoundTrip | pkg/mysqlproxy/protocol.go:560-570 | It recovers every cell of a row |
| MySqlClient.ColumnIsNotEof | pkg/mysqlproxy/protocol.go:474-525 | A column definition that can be sent never starts with 0xFE or 0xFF, and is never taken for an EOF |
| MySqlClient.RowIsNotAnEnd | pkg/mysqlproxy/protocol.go:560-570 | A row that can be sent is never taken for an EOF or ERR |
| MySqlClient.CountIsNotAnotherKind | pkg/mysqlproxy/proxy.go:243-246 | A column count is never taken for an OK, ERR or null mark |
| MySqlAnswers.TableRoundTrip | pkg/mysqlproxy/proxy.go:233-266 | A result set, from any number on and followed by anything, reads back as its columns, by name, and all cells, ending right after it |
| MySqlAnswers.ColumnNameArrives | pkg/mysqlproxy/protocol.go:516-525 | The definition sent for a column name, if it fits, is read as catalog def, that name as name and original name, no schema or table, charset 45, length 1024, type 0xFD, no flags and no decimals |
| MySqlAnswers.DoneRoundTrip | pkg/mysqlproxy/proxy.go:237-241 | A result without columns always fits and reads back as affected rows and tag |
| MySqlAnswers.CutOffIsNoAnswer | pkg/mysqlproxy/proxy.go:183-189 | If a packet is refused, a client reads no answer without taking bytes that come after for it, and none if nothing comes after |
| MySqlAnswers.AnswerArrivesExactlyWhenItFits | pkg/mysqlproxy/proxy.go:181-189 | Whatever comes after, the client recovers a reply and stops right after it iff all its packets fit |
| MySqlConversation.AnswerRoundTrip | pkg/mysqlproxy/proxy.go:146-222 | One decoder recovers OK, error or table from the answer to any command, and stops right after it |
| MySqlConversation.AnsweredExactly | pkg/mysqlproxy/proxy.go:146-222 | Whatever comes after, the client reads the meant answer and stops right after it iff the reply decodes and all packets fit |
| MySqlConversation.QueryErrorsAre | pkg/mysqlproxy/proxy.go:161-179 | A query meets error 2006 HY000 MySQL server has gone away when its request fails, and error 1064 42000 with the reply's own text when that has one |
| MySqlConversation.StatementErrorIs | pkg/mysqlproxy/proxy.go:212-215 | The five prepared-statement commands meet error 1295 HY000 with its text |
| MySqlConversation.UnknownErrorIs | pkg/mysqlproxy/proxy.go:217-221 | Any other command meets error 1047 08S01, whose text shows the command's byte in two hexadecimal digits |
| MySqlConversation.CommandLoopIs | pkg/mysqlproxy/proxy.go:124-223 | For any input and any breaking point: the queries asked are the client's own texts in order under the one id, and the answers go out in order as far as the socket carries them |
| MySqlConversation.WholeConversation | pkg/mysqlproxy/proxy.go:124-223 | On a healthy socket the client reads exactly one complete answer per non-empty command before Quit, numbered from the command's number plus one |
| MySqlConversation.ConversationRoundTrip | pkg/mysqlproxy/proxy.go:146-222 | The answers to any served commands, written in a row, are read one by one with the expected numbers, and nothing is left |
| MySqlConversation.BreakingLinkDeliversPrefix | pkg/mysqlproxy/proxy.go:183-189 | A socket that breaks after n bytes delivers the first n bytes of the same stream, and the server sees the same calls |
| MySqlConversation.CallsOfConnection | pkg/mysqlproxy/proxy.go:76-229 | The exact HTTP calls of a connection for each way it can end |
| MySqlConversation.SessionLifecycle | pkg/mysqlproxy/proxy.go:108-229 | A run that leaves the command loop closes the id it was given once, as its last call, and names no other |
| MySqlConversation.SessionIsClosedExactlyWhen | pkg/mysqlproxy/proxy.go:118-121 | A session is asked for iff the greeting is written and a response comes back and parses; it is closed iff the OK packet is written, too |
| MySqlProxy.AnswerCommand | pkg/mysqlproxy/proxy.go:146-222 | What one command writes and which call it makes, for every command byte and reply |
| MySqlProxy.CommandLoop | pkg/mysqlproxy/proxy.go:124-223 | The loop consumes, writes and calls as the specification does; a break in the switch does not leave it |
| MySqlProxy.HandleConnection | pkg/mysqlproxy/proxy.go:76-229 | What the connection writes, asks and how it ends is the specification that MySqlLogin.WholeConnection, MySqlConversation.CallsOfConnection and CommandLoopIs read |
| MySqlLogin.WholeConnection | pkg/mysqlproxy/proxy.go:76-229 | All a client reads on a healthy link: the greeting as packet 0; then, numbered one after its own response, OK with status 2, error 1045 28000 Access denied, error 1040 08004 Too many connections, or nothing, by how the connection ends; after the OK one meant answer per command, and nothing after the last |
| MySqlLogin.HowItEndsHealthy | pkg/mysqlproxy/proxy.go:85-122 | On a healthy link: denied iff the response has fewer than four bytes, refused iff it parses and there is no session, served iff it parses and there is one |
| Handshake.TooShortExactly | pkg/mysqlproxy/protocol.go:285-289 | The parser refuses exactly the payloads of fewer than four bytes |
| HandshakeReader.ParsesWhatIsRead | pkg/mysqlproxy/protocol.go:285-352 | On every payload that neither is refused nor makes it panic, cut-off fields and excessive lengths included, the parser's fields are those of a reader that takes each off the front of what is left |
| HandshakeReader.DecodesWhatIsRead | pkg/mysqlproxy/protocol.go:366-392 | On every input and position the decoder gives what a client's reader reads, through int64; where that refuses, it takes one byte and gives 255 for 0xFF, 0 for 0xFB and for a value cut off |
| Handshake.HandshakeRoundTrip | pkg/mysqlproxy/protocol.go:285-352 | For all flags and any trailing bytes every field is recovered iff the auth field carries its length or no field follows it |
| Handshake.NullTerminatedAuthMisread | pkg/mysqlproxy/protocol.go:324-349 | A response whose database is lost and read as the plugin name |
| FailingInputs.InsertReturningLosesItsRows | pkg/handler/handler.go:226-233 | The rows of an INSERT ... RETURNING do not arrive |
| FailingInputs.NullTextIsShownAsNull | pkg/pgpool/pool.go:146-150 | The text NULL and an SQL null give the same reply and are shown alike |
| FailingInputs.LowerCaseInsertReportsZero | pkg/handler/handler.go:331-347 | insert in lower case reports no affected rows |
| FailingInputs.LowerCaseInsertHasNoCount | pkg/pgproxy/proxy.go:317-321 | Nor does the PostgreSQL tag of it say 1 |
| FailingInputs.CreateTableAsReportsNothing | pkg/pgproxy/proxy.go:314-316 | The five rows of a CREATE TABLE ... AS reach the proxy, and its tag has no number |
| FailingInputs.BeginHasNoCount | pkg/pgproxy/proxy.go:317-321 | The tag of BEGIN does not say 0 |
| FailingInputs.MoveReportsZero | pkg/pgproxy/proxy.go:312-313 | The tag of a MOVE of five rows does not say 5 |
| FailingInputs.LengthOfTwoTo63IsNegative | pkg/mysqlproxy/protocol.go:384-388 | 2^63 is decoded as -2^63 |
| FailingInputs.FourByteHandshakePanics | pkg/mysqlproxy/protocol.go:286-298 | Four bytes make the parser panic |
| FailingInputs.HugeAuthLengthPanics | pkg/mysqlproxy/protocol.go:317-336 | So does an announced auth length of 2^63 - 1 |
| FailingInputs.OverlongRowIsNoAnswer | pkg/mysqlproxy/proxy.go:183-189 | After a row with a cell of 2^24 bytes the client can read no answer |
| FailingInputs.MySqlSessionIsNeverClosed | pkg/mysqlproxy/proxy.go:118-121 | A client lost between greeting and OK packet leaves its session open |
| FailingInputs.PgSessionIsNeverClosed | pkg/pgproxy/proxy.go:119-122 | So does one lost before the greeting is flushed |
| SqlText.ScannersDisagree | pkg/pgproxy/proxy.go:326-339 | The one-byte word 0xC9 is doubled by the accumulating scanner |
| Handshake.ParsesWithoutPanicExactly | pkg/mysqlproxy/protocol.go:285-352 | The parser panics exactly on 4 to 8 bytes and on overflowing auth lengths |
| Handshake.ParseHandshakeResponse | pkg/mysqlproxy/protocol.go:285-352 | The cursor method returns, refuses or panics as the specification |
| Handshake.FindNullFrom | pkg/mysqlproxy/protocol.go:355-362 | The next NUL, or the end |
| PgParser.SplitLosesNothing | pkg/pgparser/parser.go:214-227 | The pieces are NUL-free and join back to the input, up to a final NUL |
| PgParser.SplitUndoesJoin | pkg/pgparser/parser.go:214-227 | Joined NUL-free pieces are split into the same pieces |
| PgParser.SplitNull | pkg/pgparser/parser.go:214-227 | The method's pieces are those the lemmas speak of |
| PgParser.QueryTextRoundTrip | pkg/pgparser/parser.go:119-140 | Name and query of a Parse are recovered before any binary tail, and the text of a Query |
| PgParser.TextsOfMalformed | pkg/pgparser/parser.go:119-131 | A Query, or the query of a Parse, without its NUL is found whole; a Parse without a NUL after the name has no text, nor has any other message |
| PgParser.StartupRoundTrip | pkg/pgparser/parser.go:48-86 | Version and last-wins map of any NUL-free pairs, empty and repeated keys included |
| PgParser.AnyStartupParses | pkg/pgparser/parser.go:48-86 | Any message of eight bytes or more: the version is that of bytes 4 to 7, big-endian, and the parameters are the complete pairs after them, the last value of a key winning |
| PgParser.PairsExist | pkg/pgparser/parser.go:64-83 | Any bytes are complete pairs followed by an incomplete one |
| PgParser.StartupTakenExactlyWhen | pkg/pgparser/parser.go:90-115 | A message is taken off the connection iff its signed length is at least four and that many bytes come; it has that length, and nothing more is taken |
| PgParser.StartupReadsWhole | pkg/pgparser/parser.go:90-115 | The message is taken off the connection whole, and nothing after it |
| PgParser.ParseStartupMessage | pkg/pgparser/parser.go:48-86 | On every input the cursor stays in bounds, the loop ends, and the pairs are those of the specification |
| PgParser.ReadStartupRaw | pkg/pgparser/parser.go:90-115 | Reads one length-prefixed message or fails |
| PgParser.ExtractSQL | pkg/pgparser/parser.go:119-131 | The text of Query and Parse messages, nothing for others |
| PgParser.ExtractStatementName | pkg/pgparser/parser.go:134-140 | The first piece, or nothing |
| PgParser.FindNull | pkg/pgparser/parser.go:196-203 | The next NUL, or -1 |
| PgParser.TrimNull | pkg/pgparser/parser.go:205-212 | The bytes before the first NUL |
| PgConversation.BatchRoundTrip | pkg/pgproxy/proxy.go:188-285 | Each decodable reply is answered by one batch that reads as the meant answer, followed by anything |
| PgConversation.OneReadyPerBatch | pkg/pgproxy/proxy.go:280-301 | A batch has exactly one ReadyForQuery, at its end |
| PgConversation.MessageLoopIs | pkg/pgproxy/proxy.go:125-286 | For any messages and any breaking point: the calls are the exchanges' in order under the one id, the batches go out in the same order (which messages are exchanged: PgForwarding.ExchangesForward) |
| PgForwarding.ExchangesForward | pkg/pgproxy/proxy.go:125-190 | What is forwarded is the front of the messages before Terminate, each with its own reply and the text extracted from it; none but the last meets a failed request, an undecodable reply or a failed flush without an error text, and if messages are left the last one did |
| PgForwarding.AllForwardedExactlyWhen | pkg/pgproxy/proxy.go:125-190 | All those messages are forwarded iff none but the last meets one of the three; a reply with an error text does not end the loop |
| PgForwarding.AllRepliedAllForwarded | pkg/pgproxy/proxy.go:188-191 | With decodable replies, error texts or not, on a link that does not break, all are |
| PgForwarding.FirstBatchesGetThrough | pkg/pgproxy/proxy.go:280-285 | A connection that breaks after n flushes delivers the batches of the first n messages |
| PgForwarding.StartupReads | pkg/pgproxy/proxy.go:110-118 | Before its first message the client reads AuthenticationOk, the five parameters with these names and values, the cancel key, and one ReadyForQuery |
| PgForwarding.WholeConnection | pkg/pgproxy/proxy.go:78-291 | All a client reads on a link that does not break: nothing without a session; else the start-up, then one batch per answered message with the meant content, and nothing else |
| PgConversation.DeliveredReads | pkg/pgproxy/proxy.go:188-285 | The batches of any exchanges, in a row, are read one by one, with one ReadyForQuery each |
| PgConversation.ConversationGrammar | pkg/pgproxy/proxy.go:125-286 | Delivered in the loop is one batch per answered exchange, with the meant content and one ReadyForQuery, and nothing else (which messages are exchanged: PgForwarding.AllForwardedExactlyWhen) |
| PgConversation.AllButTheLastAnswered | pkg/pgproxy/proxy.go:174-186 | Only the last exchange of a connection can go unanswered |
| PgConversation.TagCountsDataRows | pkg/pgproxy/proxy.go:245-277 | For SELECT, SHOW, EXPLAIN and DESCRIBE the number in the tag is the number of DataRows |
| PgConversation.ExecuteTagHasNoCommand | pkg/pgproxy/proxy.go:245-246 | The tag of an Execute never names a command |
| PgConversation.CallsOfConnection | pkg/pgproxy/proxy.go:78-291 | The exact HTTP calls of a connection for each way it can end |
| PgConversation.SessionLifecycle | pkg/pgproxy/proxy.go:102-291 | A run that leaves the message loop closes the id it was given once, as its last call, and names no other |
| PgConversation.SessionIsClosedExactlyWhen | pkg/pgproxy/proxy.go:119-122 | A session given out is closed iff the greeting could be flushed |
| PgProxy.SendResult | pkg/pgproxy/proxy.go:218-246 | Appends description, rows and tag to the pending messages |
| PgProxy.ForwardMessage | pkg/pgproxy/proxy.go:136-285 | One turn of the loop: call, batch, and whether the loop goes on, which PgForwarding.AllForwardedExactlyWhen states without this step |
| PgProxy.MessageLoop | pkg/pgproxy/proxy.go:125-286 | The loop's calls, deliveries and end are those that MessageLoopIs and PgForwarding.ExchangesForward read |
| PgProxy.HandleConnection | pkg/pgproxy/proxy.go:78-291 | The whole connection and how it ends |
| SqlText.CommandWordIs | pkg/handler/handler.go:331-347 | However a statement is cut into white space, a word and a stopper, that word is found |
| SqlText.CommandWordExists | pkg/handler/handler.go:331-347 | Every statement can be cut that way |
| SqlText.SqlCommandType | pkg/handler/handler.go:331-347 | The two-index scanner returns the command word |
| SqlText.PgSqlCommandType | pkg/pgproxy/proxy.go:326-339 | The accumulating scanner returns it with each byte widened to UTF-8 |
| SqlText.ScannersAgree | pkg/pgproxy/proxy.go:326-339 | The two agree iff the word is ASCII |
| SqlText.DdlHasFirstWord | pkg/pgproxy/proxy.go:314-316 | Whenever createTag is called its word list is not empty and its first word starts with the detected command |
| SqlText.CreateTag | pkg/pgproxy/proxy.go:342-366 | The collecting loop finds the first three words |
| SqlText.CreateTagMeaning | pkg/pgproxy/proxy.go:342-366 | The tag is the DDL word and the next word, whatever separates them |
| SqlText.PgCommandTag | pkg/pgproxy/proxy.go:305-323 | The method's tag is the one that PgTags.TagIs and DefiningTagIs read word by word, for every statement |
| SqlText.TagNumbers | pkg/pgproxy/proxy.go:305-323 | The number after the last space of the tag, for every statement: the rows for SELECT, SHOW, EXPLAIN and DESCRIBE; the affected count for INSERT, UPDATE, DELETE, MOVE, FETCH and COPY, and for any other but CREATE, ALTER and DROP if it is not zero; else only a word of the statement that is a number (the words: PgTags.TagIs) |
| PgTags.TagIs | pkg/pgproxy/proxy.go:305-339 | However a statement is cut into blanks, a first word other than CREATE, ALTER and DROP, and a rest: split at spaces, the tag is INSERT, 0 and the count; the word and the rows for SELECT, SHOW, EXPLAIN and DESCRIBE; the word and the count for UPDATE, DELETE, MOVE, FETCH and COPY; for others the word, and the count if positive; read as UTF-8 the word is the statement's own |
| PgTags.DefiningTagIs | pkg/pgproxy/proxy.go:314-366 | For a statement whose command word is CREATE, ALTER or DROP: that word and the next one, if the first ends at a blank or a semicolon and there is a next; otherwise all up to the first of these |
| PgTags.SplitExists | pkg/pgproxy/proxy.go:342-366 | Every such statement can be split into first and second word that way |
| PgTags.WidenIsUtf8 | pkg/pgproxy/proxy.go:335 | The accumulating scanners' text is UTF-8: each byte of the statement is read as the code point of that number |
| PgTags.CutWord | pkg/handler/handler.go:331-347 | With the separators written out: however a statement is cut, its first word is the command word |
| SqlText.SameWord | pkg/pgproxy/proxy.go:326-339 | Widening bytes to UTF-8 makes no other word one of the known commands, and hides none |
| SqlText.MySqlTagNumbers | pkg/mysqlproxy/proxy.go:270-284 | A client reading the numbers in the info finds the affected rows wherever it speaks of rows: three for INSERT (two zeros), four for UPDATE and DELETE (a zero last), one for others, none when there is nothing to report |
| SqlText.MySqlCommandTag | pkg/mysqlproxy/proxy.go:270-284 | The method's text conveys those numbers, for every statement and every count from 0 |
| SqlText.MySqlTagIsShort | pkg/mysqlproxy/proxy.go:270-284 | It always fits an OK packet |

## Left out

- AES-GCM, SHA-256, nonces and JSON: requests and replies arrive as they were sent, or a reply is undecodable as a whole; texts are byte strings, so the loss JSON inflicts on invalid UTF-8 is not captured.
- HTTP transport: in the proxy models every call may fail; in the system of `Clients` calls do not fail or time out, so a query abandoned by its proxy but still running on the server is not covered there. The status text the HTTP client puts around a handler's error is not modelled.
- Http.HttpClient.CloseSession: the outcome of the DELETE is not modelled; the source ignores it.
- Decryption, JSON and UUID errors in the handler: those branches return before any state is touched.
- Clients.MoveRefines: assumes fresh session ids, as UUIDs are; `Interleaving.Speakable` says callers name ids they were given or ids that never exist.
- Interleaving.Step: a pool's lock is modelled where it is held across a wait, in AcquireSession; the other lock regions are one step each. Which waiting call gets a lock next is left to the schedule.
- Pools.PoolManager.AcquireSession: a call that waits is an outcome (`Waits`) of the method; how the wait goes on is the machine's (`Connecting`). In `Isolation`, where requests are served one at a time, such a call changes nothing.
- Interleaving.Work: whether a context ends or a database is out of reach is an input of each step (`reachable`); the 30 seconds of the HTTP client are not.
- Pools.Lease: every taking of a connection is a new lease, though the library hands the same connection out again; what is said of a lease holds from its taking to its giving back. State a session leaves on the physical connection (open transactions, settings) is not modelled.
- Interleaving.RunSql: a statement and the reading of its rows are one step; that a connection used after it was given back panics in the library is modelled as an error reply.
- Handlers.Handler.CreateSession: `sessionPools` stores which of the two pools, not a reference to it.
- Concurrent requests of one client: each proxy connection makes its calls one after another, as the source does.
- HandshakeV10.Encode: a straight-line encoder; the greeting is a parameter of the connection.
- Capacity.JamReachableExactlyWhen: for capacities below 2^31, as the source's are; the ids are distinct texts of 36 bytes, of which there are only so many.
- Portals.ExecuteRunsItsPortalExactlyWhen: a portal stays bound until the next Bind to its name; that the end of a transaction and Close remove portals and statements is not modelled.
- EndToEnd.PgCountArrivesExactly: for affected counts from 0; a database reports no other.
- Handshake.HandshakeRoundTrip: for payloads up to 2^48 bytes, since the sum of a position and an announced length wraps at 2^63; ReadPacket delivers at most 2^24-1.
- Sockets: a connection delivers what it is given up to some number of bytes and then fails; partly flushed PostgreSQL batches are not modelled, a flush succeeds whole or not at all.
- pgproto3, pgxpool and database/sql: a list of messages, and a pool with a capacity and numbered leases; database values arrive already printed.
- Payloads of 2^24-1 bytes and more split over several packets: the source does not implement it.
- Bit-wise or of disjoint byte fields is written as a sum (`ByteStrings.OrOfShiftedBytes` shows that they are equal).
- Listeners, wait groups, quit channels, signals, logging, configuration, health statistics, the Gin and Fiber adapters, `pkg/httphandler`, the pool adapters and parseMySQLDSN: thin or without state of their own.
- PgProxy.BackendMessage: of a field of RowDescription only the name, of an error only code and text; the types of columns, the cancel key's values, the severity and the transaction status are constants of the source and not modelled.
- The Encode and DecodeMessage pair of the PostgreSQL parser: unused by the proxies' loops and easy.
