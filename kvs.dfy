/**
 * The command layer of the server: the GET, SET and PING handlers and the
 * table that routes command names to them. A handler receives the request's
 * tokens (`args[0]` is the command name), writes one reply, and returns
 * whether the connection stays open.
 */
module Kvs {
  import opened Wrappers
  import opened Resp
  import opened Badger

  const GetArityMessage: string := "ERR wrong number of arguments for 'get' command"
  const SetArityMessage: string := "ERR wrong number of arguments for 'set' command"
  const PingArityMessage: string := "ERR wrong number of arguments for 'ping' command"

  /** The reply a handler writes and the boolean it returns. */
  datatype Response = Response(reply: Reply, keepOpen: bool)

  /**
   * PING: a fixed "PONG" for a bare request, "PONG " followed by the message
   * for one argument, an arity error otherwise. It never looks at the store.
   */
  function Ping(args: seq<ByteString>): (r: Response)
    ensures r.keepOpen
    ensures r.reply.Error? <==> |args| != 1 && |args| != 2
    ensures r.reply.Error? ==> r.reply.msg == PingArityMessage
    ensures |args| == 1 ==> r.reply == Simple("PONG")
    ensures |args| == 2 ==> r.reply.Simple? && |r.reply.s| == 5 + |args[1]|
    ensures |args| == 2 ==> r.reply.s[..5] == "PONG " && r.reply.s[5..] == Text(args[1])
  {
    if |args| == 1 then Response(Simple("PONG"), true)
    else if |args| == 2 then Response(Simple("PONG " + Text(args[1])), true)
    else Response(Error(PingArityMessage), true)
  }

  /** What GET answers, stated on the store without the transaction that reads it. */
  function GetResponse(store: Store, args: seq<ByteString>, viewFails: bool, emptyReadsNil: bool): (r: Response)
    ensures r.keepOpen
    ensures |args| != 2 <==> r.reply.Error?
    ensures |args| != 2 ==> r.reply == Error(GetArityMessage)
    ensures r.reply.Bytes? <==>
      |args| == 2 && !viewFails && args[1] in store && !(emptyReadsNil && store[args[1]] == [])
    ensures r.reply.Bytes? ==> r.reply.b == store[args[1]]
    ensures |args| == 2 && args[1] !in store ==> r.reply == Null
    ensures |args| == 2 && viewFails ==> r.reply == Null
    ensures |args| == 2 && !r.reply.Bytes? ==> r.reply == Null
  {
    if |args| != 2 then Response(Error(GetArityMessage), true)
    else if viewFails || args[1] !in store then Response(Null, true)
    else if emptyReadsNil && store[args[1]] == [] then Response(Null, true)
    else Response(Bytes(store[args[1]]), true)
  }

  /**
   * The store after SET: a request of the wrong arity leaves it untouched;
   * otherwise the key takes the value unless the transaction failed, and no
   * other key changes.
   */
  function SetStore(store: Store, args: seq<ByteString>, updateFails: bool): (after: Store)
    ensures |args| != 3 || updateFails ==> after == store
    ensures |args| == 3 && !updateFails ==> args[1] in after && after[args[1]] == args[2]
    ensures |args| == 3 ==> forall k :: k != args[1] ==> Lookup(after, k) == Lookup(store, k)
  {
    if |args| != 3 then store else Update(store, args[1], args[2], updateFails)
  }

  /**
   * The reply to SET: an arity error, or the key itself as acknowledgement.
   * It does not depend on whether the write succeeded, since a storage error
   * is only logged.
   */
  function SetResponse(args: seq<ByteString>): (r: Response)
    ensures r.keepOpen
    ensures |args| != 3 <==> r.reply.Error?
    ensures |args| != 3 ==> r.reply.msg == SetArityMessage
    ensures |args| == 3 ==> r.reply == Bytes(args[1])
  {
    if |args| != 3 then Response(Error(SetArityMessage), true)
    else Response(Bytes(args[1]), true)
  }

  /** The handlers the server registers. */
  datatype Command = SetCommand | GetCommand | PingCommand

  /** The command table: exactly "set", "get" and "ping" have a handler. */
  function Dispatch(name: string): (c: Option<Command>)
    ensures c == Some(SetCommand) <==> name == "set"
    ensures c == Some(GetCommand) <==> name == "get"
    ensures c == Some(PingCommand) <==> name == "ping"
    ensures c.None? <==> name !in {"set", "get", "ping"}
  {
    if name == "set" then Some(SetCommand)
    else if name == "get" then Some(GetCommand)
    else if name == "ping" then Some(PingCommand)
    else None
  }

  /** The server's handle on the store; `db` is the database the handlers share. */
  class BadgerDB {
    var db: Store
    /** How the library returns an empty stored value (see `Badger.View`). */
    const emptyReadsNil: bool

    /** Opening the store; what it holds already is whatever is on disk. */
    constructor (onDisk: Store, emptyReadsNil: bool)
      ensures db == onDisk && this.emptyReadsNil == emptyReadsNil
    {
      db := onDisk;
      this.emptyReadsNil := emptyReadsNil;
    }

    /**
     * GET through a read-only transaction. The method has no write frame, so
     * the store is unchanged on every path.
     */
    method Get(args: seq<ByteString>, viewFails: bool) returns (r: Response)
      ensures r == GetResponse(db, args, viewFails, emptyReadsNil)
    {
      if |args| != 2 {
        r := Response(Error(GetArityMessage), true);
      } else {
        var key := args[1];
        var val := View(db, key, viewFails, emptyReadsNil);
        if val.None? {
          r := Response(Null, true);
        } else {
          r := Response(Bytes(val.value), true);
        }
      }
    }

    /** SET through a read-write transaction; the acknowledgement is written even if it failed. */
    method Set(args: seq<ByteString>, updateFails: bool) returns (r: Response)
      modifies this
      ensures db == SetStore(old(db), args, updateFails)
      ensures r == SetResponse(args)
    {
      if |args| != 3 {
        r := Response(Error(SetArityMessage), true);
      } else {
        var key := args[1];
        var val := args[2];
        db := Update(db, key, val, updateFails);
        r := Response(Bytes(key), true);
      }
    }
  }

  /** A successful SET of a value, then GET of the same key, hands the value back. */
  lemma SetThenGet(store: Store, setArgs: seq<ByteString>, getArgs: seq<ByteString>, emptyReadsNil: bool)
    requires |setArgs| == 3 && |getArgs| == 2 && getArgs[1] == setArgs[1]
    ensures GetResponse(SetStore(store, setArgs, false), getArgs, false, emptyReadsNil).reply ==
      if emptyReadsNil && setArgs[2] == [] then Null else Bytes(setArgs[2])
  {
  }

  /** Repeating a SET leaves the store as the first one left it, whatever the repeat reports. */
  lemma SetIdempotent(store: Store, args: seq<ByteString>, repeatFails: bool)
    ensures SetStore(SetStore(store, args, false), args, repeatFails) == SetStore(store, args, false)
  {
  }

  /** Two one-argument PINGs with different messages get different replies. */
  lemma PingEchoInjective(a: seq<ByteString>, b: seq<ByteString>)
    requires |a| == 2 && |b| == 2
    requires Ping(a) == Ping(b)
    ensures a[1] == b[1]
  {
  }

  /** A bare PING and a PING with a message can never be confused. */
  lemma PingBareDiffersFromEcho(a: seq<ByteString>, b: seq<ByteString>)
    requires |a| == 1 && |b| == 2
    ensures Ping(a).reply != Ping(b).reply
  {
  }
}
