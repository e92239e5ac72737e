/**
 * The relayer of relayer/relayer.go: the topic table, the frame read/dispatch loop
 * with its relay handler, topic subscription, rendezvous advertisement and the
 * per-rendezvous discovery loop.
 *
 * Calls into libraries are recorded in the relayer's `trace`, in the order they are
 * issued; what those libraries answer is given to each operation as an oracle.
 */
module Relaying {
  import opened Wrappers
  import opened Externals

  type Bytes = seq<bv8>

  /**
   * The commands whose topics Subscribe joins, in the order of the topicsSubs list.
   * The literal strings are the p2p.Msg*Cmd constants of the ogen p2p package; the
   * model uses descriptive stand-ins for them.
   */
  const TopicsSubs: seq<string> := [
    "block", "transaction", "deposit", "deposit-batch", "vote", "validator-start",
    "exit", "exit-batch", "governance", "multi-signature-transaction", "get-blocks"
  ]

  /** Seconds a discovery loop sleeps after its peer channel is closed. */
  const BackoffSeconds: nat := 10

  /** The error p2p.ReadMessage returns once the stream has no bytes left. */
  const EndOfStream: Error := Error("EOF")

  /** A decoded p2p.Message: its command and what Marshal returns for it. */
  datatype Message = Message(command: string, marshalled: Result<Bytes>)

  /** One call of p2p.ReadMessage on the stream: a decoded frame or an error. */
  datatype ReadOutcome = Frame(msg: Message) | ReadFailure(error: Error)

  /** A joined pubsub topic. */
  datatype Topic = Topic(name: string)

  /**
   * Topic.Publish: the error it returns for a topic and a payload, when called while
   * handling read number n of the stream. The same payload may be accepted once and
   * rejected when it arrives again.
   */
  type PublishOracle = (nat, Topic, Bytes) -> Option<Error>

  /** PubSub.Join or Topic.Relay: the error it returns for a command. */
  type TopicOracle = string -> Option<Error>

  /** A call the relayer makes into the pubsub or discovery library. */
  datatype Action =
    | Joined(command: string)
    | RelayEnabled(command: string)
    | Published(topic: Topic, data: Bytes)
    | Advertised(rendezvous: string)
    | PeersRequested(rendezvous: string)
    | BackedOff(seconds: nat)

  // ---------------------------------------------------------------------------
  // processMessages

  /** What one call of a message handler does: the library calls it makes, in order, and the error it returns. */
  datatype HandlerStep = HandlerStep(calls: seq<Action>, err: Option<Error>)

  /**
   * A message handler, as processMessages receives it: what it does with the message of
   * read number n. The number lets it answer a repeated frame differently.
   */
  type Handler = (nat, Message) -> HandlerStep

  /** Why processMessages returned. */
  datatype Stop = CtxDone | ReadFailed(error: Error) | HandlerFailed(error: Error)

  /** The messages handed to the handler, in order, and why the loop ended. */
  datatype ProcessRun = ProcessRun(handled: seq<Message>, stop: Stop)

  /** ctx.Done() is closed when the loop checks it before read number k. */
  predicate CancelledBefore(done: Option<nat>, k: nat)
  {
    done.Some? && done.value <= k
  }

  /** Read number k of the stream; past its end the reader reports end of stream. */
  function ReadAt(stream: seq<ReadOutcome>, k: nat): ReadOutcome
  {
    if k < |stream| then stream[k] else ReadFailure(EndOfStream)
  }

  /** The value processMessages returns: nil on cancellation, the error otherwise. */
  function Returned(stop: Stop): Option<Error>
  {
    match stop
    case CtxDone => None
    case ReadFailed(e) => Some(e)
    case HandlerFailed(e) => Some(e)
  }

  /**
   * processMessages from read number i on: check cancellation, read one frame, stop at
   * the first read error, hand the message to the handler, stop at the first handler error.
   */
  function ProcessFrom(done: Option<nat>, stream: seq<ReadOutcome>, handler: Handler, i: nat): ProcessRun
    requires i <= |stream|
    decreases |stream| - i
  {
    if CancelledBefore(done, i) then ProcessRun([], CtxDone)
    else if i == |stream| then ProcessRun([], ReadFailed(EndOfStream))
    else match stream[i]
      case ReadFailure(e) => ProcessRun([], ReadFailed(e))
      case Frame(m) =>
        match handler(i, m).err
        case Some(e) => ProcessRun([m], HandlerFailed(e))
        case None =>
          var rest := ProcessFrom(done, stream, handler, i + 1);
          ProcessRun([m] + rest.handled, rest.stop)
  }

  /**
   * The handler sees the frames in the order they are read, with no read skipped, and
   * none read after ctx.Done() was closed.
   */
  lemma {:induction false} ProcessReadsInOrder(done: Option<nat>, stream: seq<ReadOutcome>, handler: Handler, i: nat)
    requires i <= |stream|
    decreases |stream| - i
    ensures var r := ProcessFrom(done, stream, handler, i);
      && i + |r.handled| <= |stream|
      && forall k :: 0 <= k < |r.handled| ==>
           ReadAt(stream, i + k) == Frame(r.handled[k]) && !CancelledBefore(done, i + k)
  {
    if !CancelledBefore(done, i) && i < |stream| && stream[i].Frame? && handler(i, stream[i].msg).err.None? {
      ProcessReadsInOrder(done, stream, handler, i + 1);
      var rest := ProcessFrom(done, stream, handler, i + 1);
      var r := ProcessFrom(done, stream, handler, i);
      assert r.handled == [stream[i].msg] + rest.handled;
      assert i + |r.handled| == (i + 1) + |rest.handled| <= |stream|;
      forall k | 0 <= k < |r.handled|
        ensures ReadAt(stream, i + k) == Frame(r.handled[k]) && !CancelledBefore(done, i + k)
      {
        if k == 0 {
          assert r.handled[0] == stream[i].msg;
          assert ReadAt(stream, i) == stream[i];
        } else {
          var j := k - 1;
          assert 0 <= j < |rest.handled|;
          assert r.handled[k] == rest.handled[j];
          assert ReadAt(stream, (i + 1) + j) == Frame(rest.handled[j]) && !CancelledBefore(done, (i + 1) + j);
          assert (i + 1) + j == i + k;
        }
      }
    } else if !CancelledBefore(done, i) && i < |stream| && stream[i].Frame? {
      // the handler rejects the first message: it alone was handled
      assert ProcessFrom(done, stream, handler, i).handled == [stream[i].msg];
      assert ReadAt(stream, i + 0) == stream[i];
    }
  }

  /**
   * The handler accepted every message but the last; the loop stopped for a handler
   * error exactly when it rejected the last one, and returns that error unchanged.
   */
  lemma {:induction false} ProcessStopsAtHandlerError(done: Option<nat>, stream: seq<ReadOutcome>, handler: Handler, i: nat)
    requires i <= |stream|
    decreases |stream| - i
    ensures var r := ProcessFrom(done, stream, handler, i);
      && (forall k :: 0 <= k < |r.handled| - 1 ==> handler(i + k, r.handled[k]).err == None)
      && (r.stop.HandlerFailed? <==>
            r.handled != [] && handler(i + |r.handled| - 1, r.handled[|r.handled| - 1]).err.Some?)
      && (r.stop.HandlerFailed? ==>
            handler(i + |r.handled| - 1, r.handled[|r.handled| - 1]).err == Some(r.stop.error))
  {
    if !CancelledBefore(done, i) && i < |stream| && stream[i].Frame? && handler(i, stream[i].msg).err.None? {
      ProcessStopsAtHandlerError(done, stream, handler, i + 1);
      var rest := ProcessFrom(done, stream, handler, i + 1);
      var r := ProcessFrom(done, stream, handler, i);
      assert r.handled == [stream[i].msg] + rest.handled;
      forall k | 0 <= k < |r.handled| - 1
        ensures handler(i + k, r.handled[k]).err == None
      {
        if k > 0 {
          assert r.handled[k] == rest.handled[k - 1];
          assert i + k == (i + 1) + (k - 1);
        }
      }
      if rest.handled != [] {
        assert r.handled[|r.handled| - 1] == rest.handled[|rest.handled| - 1];
        assert i + |r.handled| - 1 == (i + 1) + |rest.handled| - 1;
      }
    }
  }

  /**
   * When no handler error stopped the loop, it stopped just before read number
   * i + |handled|: with nil if ctx.Done() was closed by then, else with that read's error.
   */
  lemma {:induction false} ProcessStopsBeforeNextRead(done: Option<nat>, stream: seq<ReadOutcome>, handler: Handler, i: nat)
    requires i <= |stream|
    decreases |stream| - i
    ensures var r := ProcessFrom(done, stream, handler, i);
      && (!r.stop.HandlerFailed? ==> (r.stop.CtxDone? <==> CancelledBefore(done, i + |r.handled|)))
      && (r.stop.ReadFailed? ==> ReadAt(stream, i + |r.handled|) == ReadFailure(r.stop.error))
  {
    if !CancelledBefore(done, i) && i < |stream| && stream[i].Frame? && handler(i, stream[i].msg).err.None? {
      ProcessStopsBeforeNextRead(done, stream, handler, i + 1);
      var rest := ProcessFrom(done, stream, handler, i + 1);
      assert i + |ProcessFrom(done, stream, handler, i).handled| == (i + 1) + |rest.handled|;
    }
  }

  /** Cancellation observed before the first read: nil, with nothing read or handled. */
  lemma CancelledFirstReadsNothing(done: Option<nat>, stream: seq<ReadOutcome>, handler: Handler)
    requires CancelledBefore(done, 0)
    ensures ProcessFrom(done, stream, handler, 0) == ProcessRun([], CtxDone)
    ensures Returned(ProcessFrom(done, stream, handler, 0).stop) == None
  {
  }

  /**
   * A frame and its retransmission can be answered differently: a handler that accepts
   * the first copy and rejects the second ends the loop on the second, with both handled.
   */
  lemma RetransmissionCanFail(m: Message, e: Error)
    ensures var handler: Handler := (n: nat, msg: Message) => if n == 0 then HandlerStep([], None) else HandlerStep([], Some(e));
      ProcessFrom(None, [Frame(m), Frame(m)], handler, 0) == ProcessRun([m, m], HandlerFailed(e))
  {
  }

  /**
   * The calls the handler makes for the messages it is given, in order, message k being
   * that of read number k.
   */
  function Effects(handler: Handler, msgs: seq<Message>): seq<Action>
  {
    if msgs == [] then []
    else Effects(handler, msgs[..|msgs| - 1]) + handler(|msgs| - 1, msgs[|msgs| - 1]).calls
  }

  /** Handling one more message appends that message's calls. */
  lemma EffectsSnoc(handler: Handler, msgs: seq<Message>, m: Message)
    ensures Effects(handler, msgs + [m]) == Effects(handler, msgs) + handler(|msgs|, m).calls
  {
    assert (msgs + [m])[..|msgs|] == msgs;
  }

  /**
   * One call of the handler, on the message of read number i: its error, and the calls
   * collected so far extended by the calls it makes.
   */
  method HandleFrame(handler: Handler, i: nat, m: Message, ghost handled: seq<Message>, calls: seq<Action>)
    returns (err: Option<Error>, after: seq<Action>)
    requires |handled| == i && calls == Effects(handler, handled)
    ensures err == handler(i, m).err
    ensures after == Effects(handler, handled + [m])
  {
    var step := handler(i, m);
    EffectsSnoc(handler, handled, m);
    err, after := step.err, calls + step.calls;
  }

  /**
   * The rounds of processMessages, seen from a run already split into the messages
   * handled so far and the rest. A round that stops before handing a message over
   * leaves the handled messages as they are.
   */
  lemma StopHere(done: Option<nat>, stream: seq<ReadOutcome>, handler: Handler, i: nat,
                 handled: seq<Message>, whole: ProcessRun)
    requires i <= |stream|
    requires whole.handled == handled + ProcessFrom(done, stream, handler, i).handled
    requires whole.stop == ProcessFrom(done, stream, handler, i).stop
    requires CancelledBefore(done, i) || i == |stream| || stream[i].ReadFailure?
    ensures whole.handled == handled
    ensures CancelledBefore(done, i) ==> whole.stop == CtxDone
    ensures !CancelledBefore(done, i) && i == |stream| ==> whole.stop == ReadFailed(EndOfStream)
    ensures !CancelledBefore(done, i) && i < |stream| ==> whole.stop == ReadFailed(stream[i].error)
  {
    assert handled + [] == handled;
  }

  /** A round whose handler fails hands over its message and stops with that error. */
  lemma HandlerStopsHere(done: Option<nat>, stream: seq<ReadOutcome>, handler: Handler, i: nat,
                         handled: seq<Message>, whole: ProcessRun)
    requires i < |stream| && !CancelledBefore(done, i) && stream[i].Frame?
    requires handler(i, stream[i].msg).err.Some?
    requires whole.handled == handled + ProcessFrom(done, stream, handler, i).handled
    requires whole.stop == ProcessFrom(done, stream, handler, i).stop
    ensures whole == ProcessRun(handled + [stream[i].msg], HandlerFailed(handler(i, stream[i].msg).err.value))
  {
  }

  /** A round whose handler succeeds hands over its message and goes on with the next read. */
  lemma ContinueAfter(done: Option<nat>, stream: seq<ReadOutcome>, handler: Handler, i: nat,
                      handled: seq<Message>, whole: ProcessRun)
    requires i < |stream| && !CancelledBefore(done, i) && stream[i].Frame?
    requires handler(i, stream[i].msg).err.None?
    requires whole.handled == handled + ProcessFrom(done, stream, handler, i).handled
    requires whole.stop == ProcessFrom(done, stream, handler, i).stop
    ensures whole.handled == (handled + [stream[i].msg]) + ProcessFrom(done, stream, handler, i + 1).handled
    ensures whole.stop == ProcessFrom(done, stream, handler, i + 1).stop
  {
    var later := ProcessFrom(done, stream, handler, i + 1).handled;
    assert handled + ([stream[i].msg] + later) == (handled + [stream[i].msg]) + later;
  }

  /**
   * processMessages: until ctx.Done() is closed, read a frame and hand it to the handler;
   * return the first read or handler error, or nil on cancellation. The handler's calls
   * are collected in `calls`, in the order it makes them.
   */
  method ProcessMessages(done: Option<nat>, stream: seq<ReadOutcome>, handler: Handler)
    returns (err: Option<Error>, calls: seq<Action>)
    ensures var run := ProcessFrom(done, stream, handler, 0);
      && err == Returned(run.stop)
      && calls == Effects(handler, run.handled)
  {
    ghost var whole := ProcessFrom(done, stream, handler, 0);
    ghost var handled: seq<Message> := [];
    var i := 0;
    calls := [];
    while true
      invariant 0 <= i <= |stream| && |handled| == i
      invariant whole.handled == handled + ProcessFrom(done, stream, handler, i).handled
      invariant whole.stop == ProcessFrom(done, stream, handler, i).stop
      invariant calls == Effects(handler, handled)
      decreases |stream| - i
    {
      if CancelledBefore(done, i) {
        // ctx.Done() is closed: return nil
        StopHere(done, stream, handler, i, handled, whole);
        return None, calls;
      }
      if i == |stream| {
        StopHere(done, stream, handler, i, handled, whole);
        return Some(EndOfStream), calls;
      }
      var outcome := stream[i];
      if outcome.ReadFailure? {
        StopHere(done, stream, handler, i, handled, whole);
        return Some(outcome.error), calls;
      }
      var m := outcome.msg;
      var handlerErr;
      handlerErr, calls := HandleFrame(handler, i, m, handled, calls);
      if handlerErr.Some? {
        HandlerStopsHere(done, stream, handler, i, handled, whole);
        handled := handled + [m];
        return handlerErr, calls;
      }
      ContinueAfter(done, stream, handler, i, handled, whole);
      handled := handled + [m];
      i := i + 1;
    }
  }

  // ---------------------------------------------------------------------------
  // The relay handler built in receiveMessages

  /**
   * The handler receiveMessages gives to processMessages: look the command up in the
   * topic table; drop unknown commands and messages that fail to marshal; otherwise
   * publish once on the command's topic and return what Publish returns.
   */
  function RelayStep(topics: map<string, Topic>, publish: PublishOracle, n: nat, m: Message): (r: HandlerStep)
    ensures |r.calls| <= 1
    ensures r.calls == [] <==> m.command !in topics || m.marshalled.Err?
    ensures r.calls == [] ==> r.err == None
    ensures r.calls != [] ==>
      && r.calls[0] == Published(topics[m.command], m.marshalled.value)
      && r.err == publish(n, topics[m.command], m.marshalled.value)
  {
    if m.command !in topics then HandlerStep([], None)
    else if m.marshalled.Err? then HandlerStep([], None)
    else
      var topic := topics[m.command];
      HandlerStep([Published(topic, m.marshalled.value)], publish(n, topic, m.marshalled.value))
  }

  /** The relay handler as the function value processMessages calls. */
  function RelayHandler(topics: map<string, Topic>, publish: PublishOracle): Handler
  {
    (n: nat, m: Message) => RelayStep(topics, publish, n, m)
  }

  /**
   * The relay handler publishes at most once per message and only on a topic of the
   * table; with an empty table it publishes nothing.
   */
  lemma {:induction false} RelayPublishesOnlyKnownTopics(topics: map<string, Topic>, publish: PublishOracle, msgs: seq<Message>)
    ensures var calls := Effects(RelayHandler(topics, publish), msgs);
      && |calls| <= |msgs|
      && (forall a :: a in calls ==> a.Published? && a.topic in topics.Values)
      && (topics == map[] ==> calls == [])
  {
    if msgs != [] {
      RelayPublishesOnlyKnownTopics(topics, publish, msgs[..|msgs| - 1]);
    }
  }

  /** The effects of three messages are their handler calls, in order. */
  lemma EffectsOfThree(handler: Handler, m0: Message, m1: Message, m2: Message)
    ensures Effects(handler, [m0, m1, m2]) == handler(0, m0).calls + handler(1, m1).calls + handler(2, m2).calls
  {
    EffectsSnoc(handler, [], m0);
    assert [] + [m0] == [m0];
    EffectsSnoc(handler, [m0], m1);
    assert [m0] + [m1] == [m0, m1];
    EffectsSnoc(handler, [m0, m1], m2);
    assert [m0, m1] + [m2] == [m0, m1, m2];
  }

  /**
   * A stream carrying "block", "unknown-cmd" and "vote" leads to exactly two publishes,
   * on the block and vote topics and in that order, when both are in the topic table.
   */
  lemma BlockUnknownVoteScenario(topics: map<string, Topic>, publish: PublishOracle, b: Bytes, u: Bytes, v: Bytes)
    requires "block" in topics && "vote" in topics && "unknown-cmd" !in topics
    ensures Effects(RelayHandler(topics, publish), [Message("block", Ok(b)), Message("unknown-cmd", Ok(u)), Message("vote", Ok(v))])
         == [Published(topics["block"], b), Published(topics["vote"], v)]
  {
    var handler := RelayHandler(topics, publish);
    var m0, m1, m2 := Message("block", Ok(b)), Message("unknown-cmd", Ok(u)), Message("vote", Ok(v));
    EffectsOfThree(handler, m0, m1, m2);
    assert handler(0, m0).calls == [Published(topics["block"], b)];
    assert handler(1, m1).calls == [];
    assert handler(2, m2).calls == [Published(topics["vote"], v)];
  }

  // ---------------------------------------------------------------------------
  // Subscribe

  /** The calls Subscribe makes and the error log.Fatal reports, if any. */
  datatype SubscribeRun = SubscribeRun(calls: seq<Action>, fatal: Option<Error>)

  /**
   * Subscribe from entry i of the command list on: join the topic, then enable relaying
   * on it; the first error is fatal and ends the process.
   */
  function SubscribeFrom(cmds: seq<string>, join: TopicOracle, enableRelay: TopicOracle, i: nat): SubscribeRun
    requires i <= |cmds|
    decreases |cmds| - i
  {
    if i == |cmds| then SubscribeRun([], None)
    else
      var c := cmds[i];
      match join(c)
      case Some(e) => SubscribeRun([Joined(c)], Some(e))
      case None =>
        match enableRelay(c)
        case Some(e) => SubscribeRun([Joined(c), RelayEnabled(c)], Some(e))
        case None =>
          var rest := SubscribeFrom(cmds, join, enableRelay, i + 1);
          SubscribeRun([Joined(c), RelayEnabled(c)] + rest.calls, rest.fatal)
  }

  /**
   * Subscribe only joins topics and enables relaying on them. It runs to completion
   * exactly when no join or relay fails, and then it has joined and relayed every
   * command once, in list order.
   */
  lemma {:induction false} SubscribeJoinsInOrder(cmds: seq<string>, join: TopicOracle, enableRelay: TopicOracle, i: nat)
    requires i <= |cmds|
    decreases |cmds| - i
    ensures var r := SubscribeFrom(cmds, join, enableRelay, i);
      && (forall a :: a in r.calls ==> a.Joined? || a.RelayEnabled?)
      && (r.fatal.None? <==> forall k :: i <= k < |cmds| ==> join(cmds[k]).None? && enableRelay(cmds[k]).None?)
      && (r.fatal.None? ==>
           && |r.calls| == 2 * (|cmds| - i)
           && forall k :: i <= k < |cmds| ==>
                r.calls[2 * (k - i)] == Joined(cmds[k]) && r.calls[2 * (k - i) + 1] == RelayEnabled(cmds[k]))
  {
    if i < |cmds| && join(cmds[i]).None? && enableRelay(cmds[i]).None? {
      SubscribeJoinsInOrder(cmds, join, enableRelay, i + 1);
      var rest := SubscribeFrom(cmds, join, enableRelay, i + 1);
      var r := SubscribeFrom(cmds, join, enableRelay, i);
      assert r.calls == [Joined(cmds[i]), RelayEnabled(cmds[i])] + rest.calls;
      if r.fatal.None? {
        forall k | i < k < |cmds|
          ensures r.calls[2 * (k - i)] == Joined(cmds[k]) && r.calls[2 * (k - i) + 1] == RelayEnabled(cmds[k])
        {
          assert 2 * (k - i) == 2 + 2 * (k - (i + 1));
        }
      }
    }
  }

  /**
   * The rounds of Subscribe, seen from a run already split into the calls made so far
   * and the rest. A failed join is fatal at once.
   */
  lemma JoinFailsHere(cmds: seq<string>, join: TopicOracle, enableRelay: TopicOracle, i: nat,
                      issued: seq<Action>, whole: SubscribeRun)
    requires i < |cmds| && join(cmds[i]).Some?
    requires whole.calls == issued + SubscribeFrom(cmds, join, enableRelay, i).calls
    requires whole.fatal == SubscribeFrom(cmds, join, enableRelay, i).fatal
    ensures whole == SubscribeRun(issued + [Joined(cmds[i])], join(cmds[i]))
  {
  }

  /** A join that succeeds is followed by enabling relay; a failure there is fatal. */
  lemma RelayFailsHere(cmds: seq<string>, join: TopicOracle, enableRelay: TopicOracle, i: nat,
                       issued: seq<Action>, whole: SubscribeRun)
    requires i < |cmds| && join(cmds[i]).None? && enableRelay(cmds[i]).Some?
    requires whole.calls == issued + SubscribeFrom(cmds, join, enableRelay, i).calls
    requires whole.fatal == SubscribeFrom(cmds, join, enableRelay, i).fatal
    ensures whole == SubscribeRun(issued + [Joined(cmds[i]), RelayEnabled(cmds[i])], enableRelay(cmds[i]))
  {
  }

  /** When both calls succeed, Subscribe goes on with the next command. */
  lemma SubscribeContinues(cmds: seq<string>, join: TopicOracle, enableRelay: TopicOracle, i: nat,
                           issued: seq<Action>, whole: SubscribeRun)
    requires i < |cmds| && join(cmds[i]).None? && enableRelay(cmds[i]).None?
    requires whole.calls == issued + SubscribeFrom(cmds, join, enableRelay, i).calls
    requires whole.fatal == SubscribeFrom(cmds, join, enableRelay, i).fatal
    ensures whole.calls == (issued + [Joined(cmds[i]), RelayEnabled(cmds[i])]) + SubscribeFrom(cmds, join, enableRelay, i + 1).calls
    ensures whole.fatal == SubscribeFrom(cmds, join, enableRelay, i + 1).fatal
  {
    var rest := SubscribeFrom(cmds, join, enableRelay, i + 1);
    assert issued + ([Joined(cmds[i]), RelayEnabled(cmds[i])] + rest.calls)
        == (issued + [Joined(cmds[i]), RelayEnabled(cmds[i])]) + rest.calls;
  }

  /**
   * The loop of Subscribe over a command list: the calls it makes, in order, and the
   * error that makes it stop, if any.
   */
  method SubscribeAll(cmds: seq<string>, join: TopicOracle, enableRelay: TopicOracle)
    returns (calls: seq<Action>, fatal: Option<Error>)
    ensures var run := SubscribeFrom(cmds, join, enableRelay, 0);
      calls == run.calls && fatal == run.fatal
  {
    ghost var whole := SubscribeFrom(cmds, join, enableRelay, 0);
    calls := [];
    var i := 0;
    while i < |cmds|
      invariant 0 <= i <= |cmds|
      invariant whole.calls == calls + SubscribeFrom(cmds, join, enableRelay, i).calls
      invariant whole.fatal == SubscribeFrom(cmds, join, enableRelay, i).fatal
    {
      ghost var before := calls;
      var topic := cmds[i];
      calls := calls + [Joined(topic)];
      var err := join(topic);
      if err.Some? {
        JoinFailsHere(cmds, join, enableRelay, i, before, whole);
        return calls, err;
      }
      calls := calls + [RelayEnabled(topic)];
      assert calls == before + [Joined(topic), RelayEnabled(topic)];
      err := enableRelay(topic);
      if err.Some? {
        RelayFailsHere(cmds, join, enableRelay, i, before, whole);
        return calls, err;
      }
      SubscribeContinues(cmds, join, enableRelay, i, before, whole);
      i := i + 1;
    }
    assert SubscribeFrom(cmds, join, enableRelay, i) == SubscribeRun([], None);
    assert whole.calls == calls;
    return calls, None;
  }

  // ---------------------------------------------------------------------------
  // Advertise

  /** One advertisement per rendezvous string, in order. */
  function AdvertiseCalls(rendezvous: seq<string>): (r: seq<Action>)
    ensures |r| == |rendezvous|
    ensures forall k :: 0 <= k < |rendezvous| ==> r[k] == Advertised(rendezvous[k])
  {
    if rendezvous == [] then []
    else AdvertiseCalls(rendezvous[..|rendezvous| - 1]) + [Advertised(rendezvous[|rendezvous| - 1])]
  }

  // ---------------------------------------------------------------------------
  // The per-rendezvous loop of FindPeers

  /** What the relayer does with a discovered peer. Dial stands for connecting to the peer, which handleNewPeer never does. */
  datatype PeerDecision = SkipSelf | LogOnly | Dial

  /**
   * The outcome of one discovery.FindPeers request: an error, or a channel that delivers
   * some peers and is then closed, or during which ctx.Done() fires.
   */
  datatype FindResponse =
    | FindFailed(error: Error)
    | PeersThenClosed(peers: seq<AddrInfo>)
    | PeersThenCancelled(peers: seq<AddrInfo>)

  /** How a discovery loop ended; ResponsesExhausted means the given responses ran out. */
  datatype DiscoveryEnd = GaveUp(error: Error) | Cancelled | ResponsesExhausted

  datatype DiscoveryRun = DiscoveryRun(calls: seq<Action>, decisions: seq<PeerDecision>, end: DiscoveryEnd)

  /** A request followed by the back-off sleep, n times over. */
  function RequestRounds(rendezvous: string, n: nat): (r: seq<Action>)
  {
    if n == 0 then [] else [PeersRequested(rendezvous), BackedOff(BackoffSeconds)] + RequestRounds(rendezvous, n - 1)
  }

  // ---------------------------------------------------------------------------

  class Relayer {
    const id: PeerId
    const params: ChainParams
    /** The Topics map of the Topics struct, guarded by topicsLock in the source. */
    var topics: map<string, Topic>
    /** The calls made into the pubsub and discovery libraries, oldest first. */
    var trace: seq<Action>

    /** NewRelayer: the relayer of the host, with an empty topic table. */
    constructor (hostId: PeerId, p: ChainParams)
      ensures id == hostId && params == p
      ensures topics == map[] && trace == []
    {
      id := hostId;
      params := p;
      topics := map[];
      trace := [];
    }

    /** handleNewPeer: ignore the relayer's own identity, only log any other peer. */
    function HandleNewPeer(pi: AddrInfo): (d: PeerDecision)
      ensures d != Dial
      ensures d == SkipSelf <==> pi.id == id
    {
      if pi.id == id then SkipSelf else LogOnly
    }

    /** HandleNewPeer over the peers of one channel, in delivery order. */
    function Decisions(peers: seq<AddrInfo>): (r: seq<PeerDecision>)
      ensures |r| == |peers|
      ensures forall k :: 0 <= k < |peers| ==> r[k] == HandleNewPeer(peers[k])
    {
      if peers == [] then []
      else Decisions(peers[..|peers| - 1]) + [HandleNewPeer(peers[|peers| - 1])]
    }

    /**
     * The loop FindPeers runs for one rendezvous string, from response i on: request
     * peers; stop for good on an error; hand every delivered peer to handleNewPeer;
     * return on cancellation; after a close, sleep and request again.
     */
    function DiscoveryFrom(rendezvous: string, responses: seq<FindResponse>, i: nat): DiscoveryRun
      requires i <= |responses|
      decreases |responses| - i
    {
      if i == |responses| then DiscoveryRun([], [], ResponsesExhausted)
      else match responses[i]
        case FindFailed(e) => DiscoveryRun([PeersRequested(rendezvous)], [], GaveUp(e))
        case PeersThenCancelled(peers) => DiscoveryRun([PeersRequested(rendezvous)], Decisions(peers), Cancelled)
        case PeersThenClosed(peers) =>
          var rest := DiscoveryFrom(rendezvous, responses, i + 1);
          DiscoveryRun([PeersRequested(rendezvous), BackedOff(BackoffSeconds)] + rest.calls,
                       Decisions(peers) + rest.decisions, rest.end)
    }

    /**
     * One round of the discovery loop, seen from a run already split into the calls and
     * decisions made so far and the rest: an error or a cancellation ends the loop,
     * a closed channel is followed by the back-off and the next round.
     */
    lemma DiscoveryStep(rendezvous: string, responses: seq<FindResponse>, i: nat,
                        issued: seq<Action>, decided: seq<PeerDecision>, whole: DiscoveryRun)
      requires i < |responses|
      requires whole.calls == issued + DiscoveryFrom(rendezvous, responses, i).calls
      requires whole.decisions == decided + DiscoveryFrom(rendezvous, responses, i).decisions
      requires whole.end == DiscoveryFrom(rendezvous, responses, i).end
      ensures responses[i].FindFailed? ==>
        whole == DiscoveryRun(issued + [PeersRequested(rendezvous)], decided, GaveUp(responses[i].error))
      ensures responses[i].PeersThenCancelled? ==>
        whole == DiscoveryRun(issued + [PeersRequested(rendezvous)], decided + Decisions(responses[i].peers), Cancelled)
      ensures responses[i].PeersThenClosed? ==>
        var rest := DiscoveryFrom(rendezvous, responses, i + 1);
        && whole.calls == (issued + [PeersRequested(rendezvous), BackedOff(BackoffSeconds)]) + rest.calls
        && whole.decisions == (decided + Decisions(responses[i].peers)) + rest.decisions
        && whole.end == rest.end
    {
      match responses[i]
      case FindFailed(_) =>
        assert decided + [] == decided;
      case PeersThenCancelled(_) =>
      case PeersThenClosed(peers) =>
        var rest := DiscoveryFrom(rendezvous, responses, i + 1);
        assert issued + ([PeersRequested(rendezvous), BackedOff(BackoffSeconds)] + rest.calls)
            == (issued + [PeersRequested(rendezvous), BackedOff(BackoffSeconds)]) + rest.calls;
        assert decided + (Decisions(peers) + rest.decisions) == (decided + Decisions(peers)) + rest.decisions;
    }

    /**
     * The discovery loop only requests peers and sleeps: it never dials a discovered
     * peer, and it runs out of responses only when every channel it got was closed.
     */
    lemma {:induction false} DiscoveryNeverDials(rendezvous: string, responses: seq<FindResponse>, i: nat)
      requires i <= |responses|
      decreases |responses| - i
      ensures var r := DiscoveryFrom(rendezvous, responses, i);
        && (forall a :: a in r.calls ==> a == PeersRequested(rendezvous) || a == BackedOff(BackoffSeconds))
        && (forall d :: d in r.decisions ==> d != Dial)
        && (r.end == ResponsesExhausted ==> forall k :: i <= k < |responses| ==> responses[k].PeersThenClosed?)
    {
      if i < |responses| && responses[i].PeersThenClosed? {
        DiscoveryNeverDials(rendezvous, responses, i + 1);
      }
    }

    /**
     * A FindPeers error ends the loop for good: whatever responses would follow are
     * never requested, and the loop made one request per response up to the error.
     */
    lemma {:induction false} ErrorEndsDiscovery(rendezvous: string, responses: seq<FindResponse>, i: nat, k: nat)
      requires i <= k < |responses|
      requires responses[k].FindFailed?
      requires forall j :: i <= j < k ==> responses[j].PeersThenClosed?
      ensures DiscoveryFrom(rendezvous, responses, i) == DiscoveryFrom(rendezvous, responses[..k + 1], i)
      ensures DiscoveryFrom(rendezvous, responses, i).end == GaveUp(responses[k].error)
      ensures DiscoveryFrom(rendezvous, responses, i).calls == RequestRounds(rendezvous, k - i) + [PeersRequested(rendezvous)]
      decreases k - i
    {
      var prefix := responses[..k + 1];
      assert prefix[i] == responses[i];
      if i < k {
        ErrorEndsDiscovery(rendezvous, responses, i + 1, k);
        ErrorEndsDiscovery(rendezvous, prefix, i + 1, k);
        assert prefix[..k + 1] == prefix;
      }
    }

    /** Every closed channel is followed by the back-off and a fresh request. */
    lemma {:induction false} ClosedChannelsAreRerequested(rendezvous: string, responses: seq<FindResponse>, i: nat)
      requires i <= |responses|
      requires forall j :: i <= j < |responses| ==> responses[j].PeersThenClosed?
      ensures DiscoveryFrom(rendezvous, responses, i).calls == RequestRounds(rendezvous, |responses| - i)
      ensures DiscoveryFrom(rendezvous, responses, i).end == ResponsesExhausted
      decreases |responses| - i
    {
      if i < |responses| {
        ClosedChannelsAreRerequested(rendezvous, responses, i + 1);
      }
    }

    /**
     * receiveMessages: processMessages over the stream with the relay handler, its
     * publishes issued in order. The result is the error processMessages returns, which
     * receiveMessages discards.
     */
    method ReceiveMessages(done: Option<nat>, stream: seq<ReadOutcome>, publish: PublishOracle) returns (err: Option<Error>)
      modifies this`trace
      ensures var run := ProcessFrom(done, stream, RelayHandler(topics, publish), 0);
        && err == Returned(run.stop)
        && trace == old(trace) + Effects(RelayHandler(topics, publish), run.handled)
    {
      var calls;
      err, calls := ProcessMessages(done, stream, RelayHandler(topics, publish));
      trace := trace + calls;
    }

    /**
     * Subscribe: join and relay every command of TopicsSubs, in list order. The topics
     * it joins are not stored in the topic table.
     */
    method Subscribe(join: TopicOracle, enableRelay: TopicOracle) returns (fatal: Option<Error>)
      modifies this`trace
      ensures var run := SubscribeFrom(TopicsSubs, join, enableRelay, 0);
        fatal == run.fatal && trace == old(trace) + run.calls
    {
      var calls;
      calls, fatal := SubscribeAll(TopicsSubs, join, enableRelay);
      trace := trace + calls;
    }

    /** Advertise: one advertisement per rendezvous string of the chain parameters. */
    method Advertise()
      modifies this`trace
      ensures trace == old(trace) + AdvertiseCalls(params.rendezvousStrings)
    {
      var rendezvous := params.rendezvousStrings;
      for i := 0 to |rendezvous|
        invariant trace == old(trace) + AdvertiseCalls(rendezvous[..i])
      {
        assert rendezvous[..i + 1][..i] == rendezvous[..i];
        trace := trace + [Advertised(rendezvous[i])];
      }
      assert rendezvous[..|rendezvous|] == rendezvous;
    }

    /**
     * The body FindPeers runs for one rendezvous string, given the library's responses:
     * the calls it makes, in order, what it does with each delivered peer, and how it ends.
     */
    method Discover(rendezvous: string, responses: seq<FindResponse>)
      returns (calls: seq<Action>, decisions: seq<PeerDecision>, end: DiscoveryEnd)
      ensures var run := DiscoveryFrom(rendezvous, responses, 0);
        calls == run.calls && decisions == run.decisions && end == run.end
    {
      ghost var whole := DiscoveryFrom(rendezvous, responses, 0);
      calls, decisions := [], [];
      var i := 0;
      while i < |responses|
        invariant 0 <= i <= |responses|
        invariant whole.calls == calls + DiscoveryFrom(rendezvous, responses, i).calls
        invariant whole.decisions == decisions + DiscoveryFrom(rendezvous, responses, i).decisions
        invariant whole.end == DiscoveryFrom(rendezvous, responses, i).end
      {
        DiscoveryStep(rendezvous, responses, i, calls, decisions, whole);
        ghost var before := calls;
        calls := calls + [PeersRequested(rendezvous)];
        match responses[i]
        case FindFailed(e) =>
          // the loop ends
          return calls, decisions, GaveUp(e);
        case PeersThenCancelled(peers) =>
          var handled := HandleEach(peers);
          return calls, decisions + handled, Cancelled;
        case PeersThenClosed(peers) =>
          var handled := HandleEach(peers);
          decisions := decisions + handled;
          calls := calls + [BackedOff(BackoffSeconds)];
          assert calls == before + [PeersRequested(rendezvous), BackedOff(BackoffSeconds)];
          i := i + 1;
      }
      assert DiscoveryFrom(rendezvous, responses, i) == DiscoveryRun([], [], ResponsesExhausted);
      assert whole.calls == calls && whole.decisions == decisions;
      return calls, decisions, ResponsesExhausted;
    }

    /** FindPeers for one rendezvous string: its requests and back-offs go to the trace. */
    method FindPeersOn(rendezvous: string, responses: seq<FindResponse>) returns (decisions: seq<PeerDecision>, end: DiscoveryEnd)
      modifies this`trace
      ensures var run := DiscoveryFrom(rendezvous, responses, 0);
        trace == old(trace) + run.calls && decisions == run.decisions && end == run.end
    {
      var calls;
      calls, decisions, end := Discover(rendezvous, responses);
      trace := trace + calls;
    }

    /** The channel-draining loop: handleNewPeer on each delivered peer, in order. */
    method HandleEach(peers: seq<AddrInfo>) returns (decisions: seq<PeerDecision>)
      ensures decisions == Decisions(peers)
    {
      decisions := [];
      for j := 0 to |peers|
        invariant decisions == Decisions(peers[..j])
      {
        assert peers[..j + 1][..j] == peers[..j];
        decisions := decisions + [HandleNewPeer(peers[j])];
      }
      assert peers[..|peers|] == peers;
    }
  }

  /**
   * A relayer built by NewRelayer and then subscribed never publishes: Subscribe does
   * not store the topics it joins, so the relay handler finds no command in the table.
   */
  method SubscribedRelayerNeverPublishes(
    hostId: PeerId, p: ChainParams, join: TopicOracle, enableRelay: TopicOracle,
    done: Option<nat>, stream: seq<ReadOutcome>, publish: PublishOracle)
    returns (calls: seq<Action>)
    ensures forall a :: a in calls ==> !a.Published?
  {
    var r := new Relayer(hostId, p);
    var fatal := r.Subscribe(join, enableRelay);
    SubscribeJoinsInOrder(TopicsSubs, join, enableRelay, 0);
    if fatal.Some? {
      return r.trace;
    }
    var err := r.ReceiveMessages(done, stream, publish);
    RelayPublishesOnlyKnownTopics(map[], publish, ProcessFrom(done, stream, RelayHandler(map[], publish), 0).handled);
    calls := r.trace;
  }
}
