/**
 * One client connection: requests are decoded one after another, routed by
 * the command table to a handler, and answered in the order they arrived
 * (pipelining). The connection stops when a handler returns false. This is a
 * reference model of what the registered handlers do to the shared store
 * over a whole sequence of requests.
 */
module Session {
  import opened Wrappers
  import opened Resp
  import opened Badger
  import opened Kvs

  /** One decoded request, and whether the storage transaction it runs reports an error. */
  datatype Request = Request(args: seq<ByteString>, storageFails: bool)

  /**
   * The answer written for a request: a handler's reply, or whatever the
   * library itself writes when no handler is registered for the name.
   */
  datatype Answer = Handled(reply: Reply) | NoHandler

  datatype StepResult = StepResult(store: Store, answer: Answer, keepOpen: bool)

  datatype SessionResult = SessionResult(store: Store, answers: seq<Answer>, open: bool)

  /** The handler the table routes a request to. */
  function Route(args: seq<ByteString>): Option<Command>
  {
    if |args| == 0 then None else Dispatch(Text(args[0]))
  }

  /** `req` is a SET of `key` that reaches the store. */
  predicate Writes(req: Request, key: Key)
  {
    Route(req.args) == Some(SetCommand) && |req.args| == 3 && req.args[1] == key && !req.storageFails
  }

  /** Serving one request: only a SET that reaches the store changes it, and only at its key. */
  function Step(store: Store, req: Request, emptyReadsNil: bool): (r: StepResult)
    ensures r.keepOpen
    ensures r.answer.NoHandler? <==> Route(req.args).None?
    ensures Route(req.args) == Some(SetCommand) ==> r.answer == Handled(SetResponse(req.args).reply)
    ensures Route(req.args) == Some(GetCommand) ==>
      r.answer == Handled(GetResponse(store, req.args, req.storageFails, emptyReadsNil).reply)
    ensures Route(req.args) == Some(PingCommand) ==> r.answer == Handled(Ping(req.args).reply)
    ensures forall k :: Writes(req, k) ==> Lookup(r.store, k) == Some(req.args[2])
    ensures forall k :: !Writes(req, k) ==> Lookup(r.store, k) == Lookup(store, k)
  {
    match Route(req.args)
    case None => StepResult(store, NoHandler, true)
    case Some(SetCommand) =>
      var resp := SetResponse(req.args);
      StepResult(SetStore(store, req.args, req.storageFails), Handled(resp.reply), resp.keepOpen)
    case Some(GetCommand) =>
      var resp := GetResponse(store, req.args, req.storageFails, emptyReadsNil);
      StepResult(store, Handled(resp.reply), resp.keepOpen)
    case Some(PingCommand) =>
      var resp := Ping(req.args);
      StepResult(store, Handled(resp.reply), resp.keepOpen)
  }

  /**
   * Serving a pipeline of requests on one connection. Since no handler ever
   * closes the connection, every request is answered, in order.
   */
  function Run(store: Store, reqs: seq<Request>, emptyReadsNil: bool): (r: SessionResult)
    ensures r.open
    ensures |r.answers| == |reqs|
    decreases |reqs|
  {
    if reqs == [] then SessionResult(store, [], true)
    else
      var first := Step(store, reqs[0], emptyReadsNil);
      if !first.keepOpen then SessionResult(first.store, [first.answer], false)
      else
        var rest := Run(first.store, reqs[1..], emptyReadsNil);
        SessionResult(rest.store, [first.answer] + rest.answers, rest.open)
  }

  /** Serving a pipeline in one go is the same as serving its two halves one after the other. */
  lemma {:induction false} RunAppend(store: Store, a: seq<Request>, b: seq<Request>, emptyReadsNil: bool)
    ensures var first := Run(store, a, emptyReadsNil);
            var second := Run(first.store, b, emptyReadsNil);
            Run(store, a + b, emptyReadsNil) == SessionResult(second.store, first.answers + second.answers, true)
    decreases |a|
  {
    if a == [] {
      assert a + b == b;
    } else {
      assert (a + b)[0] == a[0] && (a + b)[1..] == a[1..] + b;
      var s := Step(store, a[0], emptyReadsNil);
      var tail := Run(s.store, a[1..], emptyReadsNil);
      var second := Run(tail.store, b, emptyReadsNil);
      RunAppend(s.store, a[1..], b, emptyReadsNil);
      assert Run(store, a, emptyReadsNil) == SessionResult(tail.store, [s.answer] + tail.answers, true);
      assert Run(store, a + b, emptyReadsNil).answers == [s.answer] + (tail.answers + second.answers);
      assert [s.answer] + (tail.answers + second.answers) == ([s.answer] + tail.answers) + second.answers;
    }
  }

  /** The value the last SET of `key` in `reqs` that reached the store wrote, if there is one. */
  function LastWrite(reqs: seq<Request>, key: Key): Option<ByteString>
    decreases |reqs|
  {
    if reqs == [] then None
    else if Writes(reqs[|reqs| - 1], key) then Some(reqs[|reqs| - 1].args[2])
    else LastWrite(reqs[..|reqs| - 1], key)
  }

  /**
   * After a pipeline, each key holds the value of its last effective SET, or,
   * if it had none, what it held before.
   */
  lemma {:induction false} StoreAfterRun(store: Store, reqs: seq<Request>, key: Key, emptyReadsNil: bool)
    ensures Lookup(Run(store, reqs, emptyReadsNil).store, key) ==
      if LastWrite(reqs, key).Some? then LastWrite(reqs, key) else Lookup(store, key)
  {
    if reqs != [] {
      var n := |reqs| - 1;
      var init, last := reqs[..n], reqs[n];
      assert reqs == init + [last];
      RunAppend(store, init, [last], emptyReadsNil);
      StoreAfterRun(store, init, key, emptyReadsNil);
    }
  }

  /** A pipeline without an effective SET leaves every key as it was. */
  lemma {:induction false} ReadOnlyRun(store: Store, reqs: seq<Request>, emptyReadsNil: bool)
    requires forall i, k :: 0 <= i < |reqs| ==> !Writes(reqs[i], k)
    ensures Run(store, reqs, emptyReadsNil).store == store
  {
    if reqs != [] {
      var s := Step(store, reqs[0], emptyReadsNil);
      forall k ensures Lookup(s.store, k) == Lookup(store, k) {
        assert !Writes(reqs[0], k);
      }
      assert s.store == store by {
        forall k | k in store ensures k in s.store && s.store[k] == store[k] {
          assert Lookup(s.store, k) == Lookup(store, k);
        }
        forall k | k in s.store ensures k in store {
          assert Lookup(s.store, k) == Lookup(store, k);
        }
      }
      forall i, k | 0 <= i < |reqs[1..]| ensures !Writes(reqs[1..][i], k) {
        assert reqs[1..][i] == reqs[i + 1];
      }
      ReadOnlyRun(s.store, reqs[1..], emptyReadsNil);
    }
  }

  const GetName: ByteString := [103, 101, 116]
  const SetName: ByteString := [115, 101, 116]

  /**
   * Read your writes: a GET at the end of a pipeline answers with the value
   * of the key's last effective SET (null for an empty value the library
   * reads back as nil), or with what the store held before if there was none.
   */
  lemma GetAfterRun(store: Store, reqs: seq<Request>, key: Key, emptyReadsNil: bool)
    ensures var expected := if LastWrite(reqs, key).Some? then LastWrite(reqs, key) else Lookup(store, key);
            Run(store, reqs + [Request([GetName, key], false)], emptyReadsNil).answers[|reqs|] ==
            Handled(if expected.None? || (emptyReadsNil && expected.value == []) then Null else Bytes(expected.value))
  {
    var get := Request([GetName, key], false);
    assert Text(GetName) == "get";
    var before := Run(store, reqs, emptyReadsNil);
    RunAppend(store, reqs, [get], emptyReadsNil);
    StoreAfterRun(store, reqs, key, emptyReadsNil);
    assert Run(store, reqs + [get], emptyReadsNil).answers[|reqs|] == Step(before.store, get, emptyReadsNil).answer;
  }

  /** SET A 1, GET A, SET A 2, GET A sent back to back: ack, 1, ack, 2. */
  lemma PipelineExample(store: Store, emptyReadsNil: bool)
    ensures var a, one, two := [65], [49], [50];
            Run(store, [Request([SetName, a, one], false), Request([GetName, a], false),
                        Request([SetName, a, two], false), Request([GetName, a], false)], emptyReadsNil).answers
            == [Handled(Bytes(a)), Handled(Bytes(one)), Handled(Bytes(a)), Handled(Bytes(two))]
  {
    var a, one, two := [65], [49], [50];
    assert Text(GetName) == "get";
    assert Text(SetName) == "set";
    var set1, get, set2 := Request([SetName, a, one], false), Request([GetName, a], false), Request([SetName, a, two], false);
    var s1 := Step(store, set1, emptyReadsNil);
    assert s1.answer == Handled(Bytes(a)) && Lookup(s1.store, a) == Some(one);
    var s2 := Step(s1.store, get, emptyReadsNil);
    assert s2.answer == Handled(Bytes(one)) && s2.store == s1.store;
    var s3 := Step(s2.store, set2, emptyReadsNil);
    assert s3.answer == Handled(Bytes(a)) && Lookup(s3.store, a) == Some(two);
    var s4 := Step(s3.store, get, emptyReadsNil);
    assert s4.answer == Handled(Bytes(two));
    var reqs := [set1, get, set2, get];
    assert reqs[1..] == [get, set2, get] && reqs[2..] == [set2, get] && reqs[3..] == [get];
    assert Run(s3.store, [get], emptyReadsNil).answers == [s4.answer];
    assert Run(s2.store, [set2, get], emptyReadsNil).answers == [s3.answer, s4.answer];
    assert Run(s1.store, [get, set2, get], emptyReadsNil).answers == [s2.answer, s3.answer, s4.answer];
  }
}
