# redis-badger command layer, modelled in Dafny

redis-badger is a small Redis-compatible key-value server. It speaks the RESP
protocol through the `tidwall/resp` library and keeps its data in the embedded
`dgraph-io/badger` database. Its own logic is the command layer in `main.go`:
the `GET`, `SET` and `PING` handlers of `BadgerDB` and the table that registers
them under `"set"`, `"get"` and `"ping"`. Each handler checks the arity of the
request (`args[0]` is the command name), writes one reply, and returns `true`
so that the connection stays open. GET and SET touch the store; PING does not.

The two libraries are replaced by small stand-ins:

- `Resp` (resp.dfy): request tokens are byte strings. A reply is
  `Error(msg) | Null | Bytes(b) | Simple(s)`, one constructor per `conn.Write*`
  call. `Text` is Go's byte-for-byte conversion of a slice to a string.
- `Badger` (badger.dfy): the database is a `map` from keys to values. `View`
  is the read-only transaction GET runs and `Update` the read-write one SET
  runs. Whether a transaction reports an error is an input (`fails`). A failed
  update is discarded. `emptyReadsNil` is also an input. It says whether the
  library gives back a stored empty value as a nil slice, which GET's
  `val == nil` test then reports as `Null`.

The command layer itself is in `Kvs` (kvs.dfy). `Ping` is a pure function.
`GetResponse`, `SetStore` and `SetResponse` state what GET and SET do.
`Dispatch` is the command table. The class `BadgerDB` holds the shared store in
its field `db`. Its method `Get` has no write frame, so it cannot change the
store. Its method `Set` modifies `db`. Both methods are proved against the
functions.

`Session` (session.dfy) is a reference model of one connection, used to state
properties across requests. Requests go through the command table one after
another and are answered in order. The connection would stop at a handler that
returns `false`, but none does. On that model the project proves:

- every request of a pipeline is answered;
- a pipeline can be split into two halves;
- each key ends with the value of its last successful SET;
- a GET at the end of a pipeline reads that value;
- the four-request pipeline `SET A 1, GET A, SET A 2, GET A` answers
  ack, `1`, ack, `2`.

A storage error on SET is only logged, and the key is still acknowledged
(main.go:86-90); `Kvs.SetResponse` states exactly that. A failed lookup on GET
is answered with `Null`, the same as a missing key: an error from `txn.Get`
leaves `val` nil (main.go:48-50, 65-66), and an error from `item.Value()` is
taken to come with a nil slice (see "## Left out").

## Model

| member | source | states |
|---|---|---|
| Resp.Text | main.go:99 | converting bytes to a string keeps the length and every byte's code |
| Badger.View | main.go:47-59 | the read transaction yields the stored value exactly when there is no error, the key is present, and the value is not an empty one the library returns as nil; the value it yields is the stored one |
| Badger.Update | main.go:81-84 | a failed write leaves the store unchanged; a successful one maps the key to the value, adds only that key, and changes no other key |
| Kvs.Ping | main.go:95-104 | always keeps the connection open; an arity error exactly when the count is neither 1 nor 2, with the 'ping' message; "PONG" for one token; for two tokens a simple string of length 5 + the message's, "PONG " followed by the message |
| Kvs.GetResponse | main.go:40-72 | always keeps the connection open; an arity error with the 'get' message exactly when the count is not 2, whatever the store holds; bytes exactly when the lookup succeeds on a present key whose value is not read back as nil, and those bytes are the stored value; null for a missing key or a failed lookup |
| Kvs.SetStore | main.go:74-89 | a wrong arity or a failed write leaves the store unchanged; otherwise the key maps to the value; no other key changes in any case |
| Kvs.SetResponse | main.go:74-93 | always keeps the connection open; an arity error with the 'set' message exactly when the count is not 3; otherwise the key itself, whatever the write reported |
| Kvs.Dispatch | main.go:129-131 | the table routes exactly "set", "get" and "ping" to their handlers, and has nothing for any other name |
| Kvs.BadgerDB.constructor | main.go:20-34 | the opened handle holds what the store already held |
| Kvs.BadgerDB.Get | main.go:40-72 | running the handler through the read transaction gives the reply of GetResponse on the current store, and changes nothing |
| Kvs.BadgerDB.Set | main.go:74-93 | running the handler sets the store to SetStore of the old store and gives the reply of SetResponse |
| Kvs.SetThenGet | main.go:44-90 | after a successful SET of k to v, GET k replies v, or null when v is empty and the library reads an empty value back as nil |
| Kvs.SetIdempotent | main.go:81-84 | repeating a successful SET, whether the repeat fails or not, leaves the store as the first SET left it |
| Kvs.PingEchoInjective | main.go:98-99 | two one-argument PINGs with the same reply carried the same message |
| Kvs.PingBareDiffersFromEcho | main.go:96-99 | a bare PING never gets the same reply as a PING with a message |
| Session.Step | main.go:129-131 | one request keeps the connection open; it gets the library's own answer exactly when no handler is registered for its name; a request routed to set, get or ping gets exactly that handler's reply; only a successful SET changes the store, and only at its key, to its value |
| Session.Run | main.go:127-141 | on one connection every request of a pipeline is answered, with one answer per request, and the connection stays open |
| Session.RunAppend | main.go:127-141 | serving a pipeline a + b gives the same store and answers as serving a and then b |
| Session.StoreAfterRun | main.go:78-84 | after a pipeline, every key holds the value of its last successful SET, or, if there was none, its earlier value, or is still absent |
| Session.ReadOnlyRun | main.go:40-104 | a pipeline with no successful SET leaves the store exactly as it was |
| Session.GetAfterRun | main.go:44-90 | a GET at the end of any pipeline answers with the key's last successful SET value, or its earlier value, or null if there is none or it is an empty value read back as nil |
| Session.PipelineExample | main.go:129-131 | SET A 1, GET A, SET A 2, GET A sent back to back are answered A, 1, A, 2 in that order |

## Left out

- Badger internals: the LSM tree, the value log, the separate metadata and value directories, real transactions and their conflicts, and `SyncWrites = false` (main.go:21-24). The database is only a map. Whether a transaction fails is an input.
- Badger.Update: a failed update is modelled as not applied at all. Whether badger can report an error after a commit has reached the store cannot be seen from this repository.
- Badger.View: an error from `item.Value()` (main.go:53-56) is taken to come with a nil slice, so every failed lookup is answered `Null`. If the library returned a non-nil slice together with that error, main.go:68 would answer with those bytes, and the model does not cover that case.
- Badger.View: whether badger returns an empty stored value as a nil slice is not visible here, so it is the parameter `emptyReadsNil`. The round-trip lemmas cover both answers.
- RESP framing, parsing and reply encoding (`resp.NewServer`, `ListenAndServe`, the byte-level encoding of `conn.Write*`). Replies are only a datatype.
- Session.Step: when no handler is registered, or the request is empty, the reply is the library's own (`NoHandler`). Its text is not modelled. The model assumes such a request does not close the connection.
- Kvs.Dispatch: matches the name exactly as sent. Any case folding of names in the resp library is not part of this model.
- Null bulk strings among the arguments are not told apart from empty ones. Every token is a byte string.
- Concurrency: the goroutine-per-connection serving and the shared database handle. One connection is modelled, and requests run one at a time.
- Process plumbing: flag parsing (including the swapped `value`/`meta` flag names, main.go:106-108), `os.MkdirAll`, signal handling and shutdown through `os.Exit` (main.go:118-138), `BadgerDB.Close`, `log.Fatal` when the store cannot be opened, and the logging of swallowed errors.
