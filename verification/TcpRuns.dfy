/** TCP links over whole streams of messages, and a command's way from one end of a connection to the other and back. */
module TcpRuns {
  import opened Results
  import opened Bytes
  import opened CmdDescs
  import opened TcpWire
  import opened TcpLinks

  /** The turn at which a stream gives out. */
  function LastTurn(s: seq<byte>): (t: Turn)
    ensures !t.Got? && !t.Skipped?
    decreases |s|
  {
    match ReceiveTurn(s)
    case Got(_, rest) => LastTurn(rest)
    case Skipped(rest) => LastTurn(rest)
    case t => t
  }

  /** Over any bytes at all, the loop handles the messages it recovers from them, in order, and then ends where they do. */
  lemma {:induction false} LoopHandlesReceived(l: Link, s: seq<byte>, e: StreamEnd)
    ensures RunLoop(l, s, e) == HandleBreak(HandleAll(l, ReceiveAll(s)), LastTurn(s), e)
    decreases |s|
  {
    match ReceiveTurn(s) {
      case Got(m, rest) =>
        LoopHandlesReceived(Handle(l, m), rest, e);
        assert ([m] + ReceiveAll(rest))[1..] == ReceiveAll(rest);
      case Skipped(rest) => LoopHandlesReceived(l, rest, e);
      case _ =>
    }
  }

  /** The loop does with a stream of whole messages what handling the messages one by one does. */
  lemma {:induction false} LoopHandlesMessages(l: Link, ms: seq<Msg>, tail: seq<byte>, e: StreamEnd)
    requires forall m :: m in ms ==> Sendable(m)
    ensures RunLoop(l, EncodeAll(ms) + tail, e) == RunLoop(HandleAll(l, SeenAll(ms)), tail, e)
    decreases |ms|
  {
    if ms == [] {
      assert EncodeAll(ms) + tail == tail;
    } else {
      var rest := EncodeAll(ms[1..]) + tail;
      assert EncodeAll(ms) + tail == Encode(ms[0]) + rest;
      SendableReceived(ms[0], rest);
      assert SeenAll(ms)[1..] == SeenAll(ms[1..]);
      LoopHandlesMessages(Handle(l, Seen(ms[0])), ms[1..], tail, e);
    }
  }

  /** The events of a run of messages that a subscription names. */
  function EventsIn(ms: seq<Msg>, evtIds: seq<u64>): seq<EvtMsg> {
    if ms == [] then []
    else (if ms[0].Event? && ms[0].evt.evtId in evtIds then [ms[0].evt] else []) + EventsIn(ms[1..], evtIds)
  }

  function DataIn(ms: seq<Msg>): seq<seq<byte>> {
    if ms == [] then [] else DataOf(ms[0]) + DataIn(ms[1..])
  }

  function RequestsIn(ms: seq<Msg>): seq<CmdDesc> {
    if ms == [] then [] else RequestOf(ms[0]) + RequestsIn(ms[1..])
  }

  function ExecutedAll(executor: Executor, ds: seq<CmdDesc>): seq<CmdDesc> {
    if ds == [] then [] else [Executed(executor, ds[0])] + ExecutedAll(executor, ds[1..])
  }

  lemma Reassociate<T>(a: seq<T>, b: seq<T>, c: seq<T>)
    ensures a + b + c == a + (b + c)
  {
  }

  /** What one message adds to the callbacks made, the answers given, the bytes buffered and the commands queued. */
  function EventOf(l: Link, m: Msg): seq<EvtMsg> {
    if l.evtCallback && m.Event? && m.evt.evtId in l.evtIds then [m.evt] else []
  }

  function DataOf(m: Msg): seq<seq<byte>> {
    if m.Data? then [m.bytes] else []
  }

  function RequestOf(m: Msg): seq<CmdDesc> {
    if m.Request? then [m.cmd] else []
  }

  ghost predicate SameRegistrations(l: Link, l1: Link) {
    && l1.evtCallback == l.evtCallback && l1.evtIds == l.evtIds && l1.datCallback == l.datCallback
    && l1.pollingMode == l.pollingMode && l1.executor == l.executor && l1.bufferSize == l.bufferSize
  }

  lemma HandleKeepsRegistrations(l: Link, m: Msg)
    ensures SameRegistrations(l, Handle(l, m))
  {
  }

  lemma HandleAddsEvent(l: Link, m: Msg)
    ensures Handle(l, m).events == l.events + EventOf(l, m)
  {
  }

  lemma HandleAddsData(l: Link, m: Msg)
    requires l.datCallback
    ensures Handle(l, m).dataCalls == l.dataCalls + DataOf(m)
  {
  }

  lemma HandleAddsAnswer(l: Link, m: Msg)
    requires l.executor.Some?
    ensures Handle(l, m).answers == l.answers + ExecutedAll(l.executor.value, RequestOf(m))
  {
  }

  lemma HandleBuffers(l: Link, m: Msg)
    requires !l.datCallback && l.pollingMode && |l.buffered| + |Joined(DataOf(m))| <= l.bufferSize
    ensures Handle(l, m).buffered == l.buffered + Joined(DataOf(m))
  {
  }

  lemma HandleQueues(l: Link, m: Msg)
    requires l.executor.None? && |l.commands| <= INCOMING_CMD_MAX
    ensures Handle(l, m).commands == if |l.commands| < INCOMING_CMD_MAX then l.commands + RequestOf(m) else l.commands
  {
  }

  /** Event callbacks are made for exactly the subscribed events, once each and in order. */
  lemma {:induction false} EventCallbacksMade(l: Link, ms: seq<Msg>)
    ensures HandleAll(l, ms).events == l.events + if l.evtCallback then EventsIn(ms, l.evtIds) else []
    decreases |ms|
  {
    if ms != [] {
      HandleKeepsRegistrations(l, ms[0]);
      HandleAddsEvent(l, ms[0]);
      EventCallbacksMade(Handle(l, ms[0]), ms[1..]);
      Reassociate(l.events, EventOf(l, ms[0]), if l.evtCallback then EventsIn(ms[1..], l.evtIds) else []);
    }
  }

  /** Data callbacks are made for exactly the data messages, once each and in order. */
  lemma {:induction false} DataCallbacksMade(l: Link, ms: seq<Msg>)
    requires l.datCallback
    ensures HandleAll(l, ms).dataCalls == l.dataCalls + DataIn(ms)
    decreases |ms|
  {
    if ms != [] {
      HandleKeepsRegistrations(l, ms[0]);
      HandleAddsData(l, ms[0]);
      DataCallbacksMade(Handle(l, ms[0]), ms[1..]);
      Reassociate(l.dataCalls, DataOf(ms[0]), DataIn(ms[1..]));
    }
  }

  lemma {:induction false} ExecutedConcat(executor: Executor, a: seq<CmdDesc>, b: seq<CmdDesc>)
    requires |a| <= 1
    ensures ExecutedAll(executor, a + b) == ExecutedAll(executor, a) + ExecutedAll(executor, b)
  {
    if a == [] {
      assert a + b == b;
    } else {
      assert (a + b)[1..] == b && a[1..] == [];
    }
  }

  /** Every request is executed and answered, once each and in order. */
  lemma {:induction false} RequestsAnswered(l: Link, ms: seq<Msg>)
    requires l.executor.Some?
    ensures HandleAll(l, ms).answers == l.answers + ExecutedAll(l.executor.value, RequestsIn(ms))
    decreases |ms|
  {
    if ms != [] {
      HandleKeepsRegistrations(l, ms[0]);
      HandleAddsAnswer(l, ms[0]);
      RequestsAnswered(Handle(l, ms[0]), ms[1..]);
      ExecutedConcat(l.executor.value, RequestOf(ms[0]), RequestsIn(ms[1..]));
      Reassociate(l.answers, ExecutedAll(l.executor.value, RequestOf(ms[0])), ExecutedAll(l.executor.value, RequestsIn(ms[1..])));
    }
  }

  /** Without a callback and with room for all of it, the polling buffer takes every byte, in order. */
  lemma {:induction false} PollingBufferTakesAll(l: Link, ms: seq<Msg>)
    requires !l.datCallback && l.pollingMode && |l.buffered| + |Joined(DataIn(ms))| <= l.bufferSize
    ensures HandleAll(l, ms).buffered == l.buffered + Joined(DataIn(ms))
    decreases |ms|
  {
    if ms != [] {
      JoinedConcat(DataOf(ms[0]), DataIn(ms[1..]));
      HandleKeepsRegistrations(l, ms[0]);
      HandleBuffers(l, ms[0]);
      PollingBufferTakesAll(Handle(l, ms[0]), ms[1..]);
      Reassociate(l.buffered, Joined(DataOf(ms[0])), Joined(DataIn(ms[1..])));
    }
  }

  /** At most the first sixteen of some commands. */
  function FirstSixteen(ds: seq<CmdDesc>): seq<CmdDesc> {
    if |ds| <= INCOMING_CMD_MAX then ds else ds[..INCOMING_CMD_MAX]
  }

  lemma FirstSixteenOf(queued: seq<CmdDesc>, more: seq<CmdDesc>)
    requires |queued| == INCOMING_CMD_MAX
    ensures FirstSixteen(queued + more) == queued
  {
  }

  /** Without a callback the command queue keeps the first sixteen requests, in order, and drops the rest. */
  lemma {:induction false} CommandQueueKeepsFirst(l: Link, ms: seq<Msg>)
    requires l.executor.None? && |l.commands| <= INCOMING_CMD_MAX
    ensures HandleAll(l, ms).commands == FirstSixteen(l.commands + RequestsIn(ms))
    decreases |ms|
  {
    if ms == [] {
      assert l.commands + [] == l.commands;
    } else {
      HandleKeepsRegistrations(l, ms[0]);
      HandleQueues(l, ms[0]);
      CommandQueueKeepsFirst(Handle(l, ms[0]), ms[1..]);
      if |l.commands| == INCOMING_CMD_MAX {
        FirstSixteenOf(l.commands, RequestsIn(ms));
        FirstSixteenOf(l.commands, RequestsIn(ms[1..]));
      } else {
        Reassociate(l.commands, RequestOf(ms[0]), RequestsIn(ms[1..]));
      }
    }
  }

  /** Only descriptors past PROCESSING are taken for responses, whatever bytes arrive. */
  lemma {:induction false} ReceivedResponsesFinal(s: seq<byte>, d: CmdDesc)
    requires Response(d) in ReceiveAll(s)
    ensures d.status > STATUS_PROCESSING
    decreases |s|
  {
    match ReceiveTurn(s) {
      case Got(m, rest) => if m != Response(d) { ReceivedResponsesFinal(rest, d); }
      case Skipped(rest) => ReceivedResponsesFinal(rest, d);
      case _ =>
    }
  }

  /** No receive error, and any response ready is a final one. */
  predicate WaitFine(l: Link) {
    l.recvError == SUCCESS && (l.responseReady ==> l.response.status > STATUS_PROCESSING)
  }

  lemma HandleKeepsWaitFine(l: Link, m: Msg)
    requires WaitFine(l) && (m.Response? ==> m.cmd.status > STATUS_PROCESSING)
    ensures WaitFine(Handle(l, m))
  {
  }

  lemma {:induction false} WaitEndsFinal(l: Link, ms: seq<Msg>)
    requires WaitFine(l) && forall i :: 0 <= i < |ms| && ms[i].Response? ==> ms[i].cmd.status > STATUS_PROCESSING
    ensures WaitFine(HandleAll(l, ms))
    decreases |ms|
  {
    if ms != [] {
      HandleKeepsWaitFine(l, ms[0]);
      WaitEndsFinal(Handle(l, ms[0]), ms[1..]);
    }
  }

  /**
   * Exec never leaves its descriptor pending: whatever prefix `ms` of the messages in whatever bytes `s` has been
   * handled when its wait ends, whether or not the stream has broken by then, and whatever payload it then copies, the
   * status it writes is past PROCESSING.
   */
  lemma ExecEndsFinal(l: Link, s: seq<byte>, ms: seq<Msg>, broken: Option<Turn>, e: StreamEnd, d: CmdDesc, timedOut: bool,
                      copied: seq<byte>, addr: u64)
    requires l.recvError == SUCCESS && !l.responseReady
    requires ms <= ReceiveAll(s)
    requires timedOut || WhenWoken(l, ms, broken, e).responseReady
    ensures FinalStatus(WhenWoken(l, ms, broken, e), timedOut) > STATUS_PROCESSING
    ensures Storable(copied) ==> Finished(d, WhenWoken(l, ms, broken, e), timedOut, copied, addr).1.status > STATUS_PROCESSING
  {
    forall i | 0 <= i < |ms| && ms[i].Response? ensures ms[i].cmd.status > STATUS_PROCESSING {
      assert ms[i] == ReceiveAll(s)[i];
      ReceivedResponsesFinal(s, ms[i].cmd);
    }
    WaitEndsFinal(l, ms);
  }

  /** The link as the initiator finds it: some messages handled, and the loop over if the stream has broken. */
  function WhenWoken(l: Link, ms: seq<Msg>, broken: Option<Turn>, e: StreamEnd): Link {
    var l' := HandleAll(l, ms);
    if broken.Some? then HandleBreak(l', broken.value, e) else l'
  }

  /**
   * IN payload, any length: the request arrives as one message if and only if that length fits the frame's size field,
   * and its reader then gets the initiator's bytes.
   */
  lemma RequestArrives(d: CmdDesc, p: CmdPayload, data: seq<byte>, addr: u64, tail: seq<byte>)
    requires addr != 0 && Storable(data) && d.inPayload == CmdDescs.Stored(p, data, addr) && d.status == STATUS_PENDING
    ensures ReceiveTurn(Encode(Request(d)) + tail) == Got(Seen(Request(d)), tail) <==> Fits(|data|)
    ensures DataBytes(Seen(Request(d)).cmd.inPayload) == data && Seen(Request(d)).cmd.cmdId == d.cmdId
  {
    StoredReadsBack(p, data, addr);
    RequestReceived(d, tail);
  }

  /** What exec makes of a received answer: its status, its result, and its payload unless that is empty. */
  lemma ExecCopiesAnswer(l: Link, d: CmdDesc, p: CmdPayload, out: seq<byte>, addr: u64, copyAddr: u64)
    requires l.recvError == SUCCESS && addr != 0 && copyAddr != 0
    requires Storable(out) && l.response.outPayload == CmdDescs.Stored(p, out, addr)
    ensures ResponseReadable(l.response) && DataBytes(l.response.outPayload) == out
    ensures var (r, d') := Finished(d, l, false, out, copyAddr);
            && r == SUCCESS && d'.status == l.response.status && d'.result == l.response.result
            && d'.inPayload == d.inPayload
            && (out != [] ==> DataBytes(d'.outPayload) == out && WellFormed(d'.outPayload))
            && (out == [] ==> d'.outPayload == d.outPayload)
  {
    StoredReadsBack(p, out, addr);
    StoredReadsBack(d.outPayload, out, copyAddr);
  }

  /**
   * The receiver thread does not wait for exec. By the time exec has the mutex, it has taken the messages `ms` off what
   * follows the answer, none of them another answer, and perhaps ended where that gives out.
   */
  predicate GoneOn(tail: seq<byte>, ms: seq<Msg>, broken: Option<Turn>) {
    && ms <= ReceiveAll(tail) && (forall m :: m in ms ==> !m.Response?)
    && (broken.Some? ==> ms == ReceiveAll(tail) && broken.value == LastTurn(tail))
  }

  /** The receiver thread has ended and left an error, which exec looks at first. */
  predicate LeftError(broken: Option<Turn>) {
    broken.Some? && LeavesError(broken.value)
  }

  lemma HandleLeavesAnswer(l: Link, m: Msg)
    requires !m.Response?
    ensures var w := Handle(l, m);
            w.responseReady == l.responseReady && w.response == l.response && w.recvError == l.recvError
  {
  }

  /**
   * How exec ends: TIMEOUT with its own status if its wait has run out, whatever else has happened; else with the error
   * the receiver thread has left and FAILED; and with success, and the status and result of the response, exactly otherwise.
   */
  lemma ExecOutcome(d: CmdDesc, l: Link, timedOut: bool, copied: seq<byte>, addr: u64)
    requires Storable(copied)
    ensures var (r, d') := Finished(d, l, timedOut, copied, addr);
            && (r == SUCCESS <==> !timedOut && l.recvError == SUCCESS)
            && (timedOut ==> r == TIMEOUT && d' == d.(status := STATUS_TIMEOUT))
            && (!timedOut && l.recvError != SUCCESS ==> r == l.recvError && d' == d.(status := STATUS_FAILED))
            && (r == SUCCESS ==> d'.status == l.response.status && d'.result == l.response.result)
            && (r != SUCCESS || DataLen(l.response.outPayload) == 0 ==>
                  d'.outPayload == d.outPayload)
            && (r == SUCCESS && DataLen(l.response.outPayload) > 0 && !DataPtrIsNull(l.response.outPayload) ==>
                  d'.outPayload == CmdDescs.Stored(d.outPayload, copied, addr))
            && d'.inPayload == d.inPayload && d'.cmdId == d.cmdId && d'.seqId == d.seqId
  {
  }

  lemma {:induction false} AnswerStays(l: Link, ms: seq<Msg>)
    requires forall m :: m in ms ==> !m.Response?
    ensures var w := HandleAll(l, ms);
            w.responseReady == l.responseReady && w.response == l.response && w.recvError == l.recvError
    decreases |ms|
  {
    if ms != [] {
      HandleLeavesAnswer(l, ms[0]);
      AnswerStays(Handle(l, ms[0]), ms[1..]);
    }
  }

  /**
   * Unless its wait runs out, exec ends with the answer that is there if and only if the receiver thread has not gone on
   * to leave an error by the time exec looks; otherwise it ends with that error and FAILED, and drops what it received.
   */
  lemma AnswerTakenIff(l: Link, d: CmdDesc, tail: seq<byte>, ms: seq<Msg>, broken: Option<Turn>, e: StreamEnd,
                       copied: seq<byte>, addr: u64)
    requires l.responseReady && l.recvError == SUCCESS && GoneOn(tail, ms, broken) && Storable(copied)
    ensures var w := WhenWoken(l, ms, broken, e);
            && w.responseReady
            && (Finished(d, w, false, copied, addr) == Finished(d, l, false, copied, addr) <==> !LeftError(broken))
            && (LeftError(broken) ==> Finished(d, w, false, copied, addr) == (RecvErrorCode(e), d.(status := STATUS_FAILED)))
  {
    AnswerStays(l, ms);
  }

  /** A peer that closes as soon as it has answered: if the receiver thread sees that before exec does, the answer is lost. */
  lemma CloseAfterAnswerLosesIt(l: Link, d: CmdDesc, answer: CmdDesc, copied: seq<byte>, addr: u64)
    requires l.recvError == SUCCESS && Sendable(Response(answer)) && Storable(copied)
    ensures var w := RunLoop(l, Encode(Response(answer)), Closed);
            && w.responseReady && w.response == Seen(Response(answer)).cmd
            && Finished(d, w, false, copied, addr) == (LINK_BROKEN, d.(status := STATUS_FAILED))
  {
    SendableReceived(Response(answer), []);
    assert Encode(Response(answer)) + [] == Encode(Response(answer));
    assert ReceiveTurn([]) == BrokenAtHeader;
  }

  /**
   * OUT payload, any length: the answer arrives as one message if and only if that length fits the frame's size field.
   * Exec then ends with its status, its result and, if the executor set one, its payload, an empty answer leaving the
   * initiator's own OUT payload as it was: if and only if no error has come in behind the answer when exec looks.
   */
  lemma AnswerComesBack(l: Link, d: CmdDesc, answer: CmdDesc, p: CmdPayload, out: seq<byte>, addr: u64, tail: seq<byte>,
                        ms: seq<Msg>, broken: Option<Turn>, e: StreamEnd, copyAddr: u64)
    requires l.recvError == SUCCESS && answer.status > STATUS_PROCESSING && copyAddr != 0
    requires addr != 0 && Storable(out) && answer.outPayload == CmdDescs.Stored(p, out, addr)
    requires GoneOn(tail, ms, broken)
    ensures ReceiveTurn(Encode(Response(answer)) + tail) == Got(Seen(Response(answer)), tail) <==> Fits(|out|)
    ensures var l' := Handle(l, Seen(Response(answer)));
            var w := WhenWoken(l', ms, broken, e);
            && w.responseReady && DataBytes(l'.response.outPayload) == out && ResponseReadable(l'.response)
            && (Finished(d, w, false, out, copyAddr) == Finished(d, l', false, out, copyAddr) <==> !LeftError(broken))
            && (LeftError(broken) ==> Finished(d, w, false, out, copyAddr) == (RecvErrorCode(e), d.(status := STATUS_FAILED)))
            && var (r, d') := Finished(d, l', false, out, copyAddr);
               && r == SUCCESS && d'.status == answer.status && d'.result == answer.result && d'.inPayload == d.inPayload
               && (out != [] ==> DataBytes(d'.outPayload) == out && WellFormed(d'.outPayload))
               && (out == [] ==> d'.outPayload == d.outPayload)
  {
    StoredReadsBack(p, out, addr);
    ResponseReceived(answer, tail);
    ExecCopiesAnswer(Handle(l, Seen(Response(answer))), d, p, out, addr, copyAddr);
    AnswerTakenIff(Handle(l, Seen(Response(answer))), d, tail, ms, broken, e, out, copyAddr);
  }

  /**
   * A command over TCP, end to end: request and answer each get through whole if and only if their payload's length fits
   * its frame. The callback then reads exactly the initiator's bytes. If and only if exec's wait has not run out and no
   * error has come in behind the answer when exec looks, the initiator reads back exactly the callback's bytes, on both
   * sides of the embedded/heap threshold, and the descriptor ends with the callback's code as its result, in SUCCESS
   * exactly if that was success; otherwise exec returns TIMEOUT and leaves that status, or the error and FAILED.
   */
  lemma CommandOverTcp(initiator: Link, peer: Link, d: CmdDesc, p: CmdPayload, data: seq<byte>, addr: u64, tail: seq<byte>,
                       out: seq<byte>, outAddr: u64, backTail: seq<byte>, ms: seq<Msg>, broken: Option<Turn>, e: StreamEnd,
                       timedOut: bool, copyAddr: u64)
    requires initiator.recvError == SUCCESS && peer.executor.Some? && addr != 0 && outAddr != 0 && copyAddr != 0
    requires Storable(data) && d.inPayload == CmdDescs.Stored(p, data, addr) && d.status == STATUS_PENDING
    requires var cmd := Seen(Request(d)).cmd.(status := STATUS_PROCESSING);
             Storable(out) && peer.executor.value(cmd).1.outPayload == CmdDescs.Stored(cmd.outPayload, out, outAddr)
    requires GoneOn(backTail, ms, broken)
    ensures var cmd := Seen(Request(d)).cmd.(status := STATUS_PROCESSING);
            var (code, _) := peer.executor.value(cmd);
            var answer := Executed(peer.executor.value, Seen(Request(d)).cmd);
            && DataBytes(cmd.inPayload) == data
            && (ReceiveTurn(Encode(Request(d)) + tail) == Got(Seen(Request(d)), tail) <==> Fits(|data|))
            && Handle(peer, Seen(Request(d))).answers == peer.answers + [answer]
            && (ReceiveTurn(Encode(Response(answer)) + backTail) == Got(Seen(Response(answer)), backTail) <==> Fits(|out|))
            && var l' := Handle(initiator, Seen(Response(answer)));
               var w := WhenWoken(l', ms, broken, e);
            && w.responseReady && DataBytes(l'.response.outPayload) == out && ResponseReadable(l'.response)
            && var (r, d') := Finished(d, w, timedOut, out, copyAddr);
            && (r == SUCCESS <==> !timedOut && !LeftError(broken))
            && (r == SUCCESS ==>
                  && d'.result == code && Terminal(d'.status) && (d'.status == STATUS_SUCCESS <==> code == SUCCESS)
                  && (if out != [] then DataBytes(d'.outPayload) == out else d'.outPayload == d.outPayload))
            && (timedOut ==> r == TIMEOUT && d' == d.(status := STATUS_TIMEOUT))
            && (!timedOut && r != SUCCESS ==> r == RecvErrorCode(e) && d' == d.(status := STATUS_FAILED))
  {
    RequestArrives(d, p, data, addr, tail);
    var cmd := Seen(Request(d)).cmd;
    AnswerComesBack(initiator, d, Executed(peer.executor.value, cmd), cmd.outPayload, out, outAddr, backTail, ms, broken, e,
                    copyAddr);
  }

  /** A callback that does not touch the OUT payload it is given. */
  ghost predicate LeavesOutPayload(executor: Executor, d: CmdDesc) {
    executor(d.(status := STATUS_PROCESSING)).1.outPayload == d.outPayload
  }

  /**
   * Such a callback's answer is one this side can send if and only if the initiator's own OUT payload was not on its
   * heap: otherwise the answer repeats the initiator's address and length, with nothing behind them here.
   */
  lemma LeftPayloadAnswerableIff(executor: Executor, d: CmdDesc)
    requires WellFormed(d.outPayload) && LeavesOutPayload(executor, Seen(Request(d)).cmd)
    ensures var answer := Executed(executor, Seen(Request(d)).cmd);
            && (ResponseBacked(answer) <==> d.outPayload.ptrDataLen == 0)
            && (Sendable(Response(answer)) <==> d.outPayload.ptrDataLen == 0)
  {
  }

  /** A failing callback and a descriptor used before, its 65 bytes of OUT payload on the initiator's heap. */
  lemma ReusedDescriptorUnanswerable()
    ensures exists executor: Executor, d: CmdDesc ::
              && WellFormed(d.outPayload) && LeavesOutPayload(executor, Seen(Request(d)).cmd)
              && !ResponseBacked(Executed(executor, Seen(Request(d)).cmd))
  {
    var executor: Executor := c => (NOT_SUPPORT, c);
    var bytes: seq<byte> := seq(65, _ => 0);
    var d := INITIALIZED_DESC.(outPayload := CmdDescs.Stored(NO_PAYLOAD, bytes, 1));
    StoredReadsBack(NO_PAYLOAD, bytes, 1);
    assert LeavesOutPayload(executor, Seen(Request(d)).cmd);
    LeftPayloadAnswerableIff(executor, d);
  }

  /** With the OUT payload embedded, exec copies what the initiator had there back over it. */
  lemma ExecCopiesLeftPayload(l: Link, d: CmdDesc, copyAddr: u64)
    requires l.recvError == SUCCESS && copyAddr != 0 && WellFormed(d.outPayload) && d.outPayload.ptrDataLen == 0
    ensures Storable(DataBytes(d.outPayload))
    ensures var (r, d') := Finished(d, l, false, DataBytes(d.outPayload), copyAddr);
            && r == SUCCESS && DataBytes(d'.outPayload) == DataBytes(d.outPayload)
            && d'.status == l.response.status && d'.result == l.response.result
  {
    StoreAgain(d.outPayload);
    StoredReadsBack(d.outPayload, DataBytes(d.outPayload), copyAddr);
  }

  /**
   * Such an answer then comes back and leaves the initiator reading what it had, whichever way exec ends, and exec ends
   * with the answer if and only if no error has come in behind it when exec looks.
   */
  lemma LeftPayloadComesBack(l: Link, executor: Executor, d: CmdDesc, tail: seq<byte>, ms: seq<Msg>, broken: Option<Turn>,
                             e: StreamEnd, copyAddr: u64)
    requires l.recvError == SUCCESS && copyAddr != 0 && GoneOn(tail, ms, broken)
    requires WellFormed(d.outPayload) && d.outPayload.ptrDataLen == 0 && LeavesOutPayload(executor, Seen(Request(d)).cmd)
    ensures var answer := Executed(executor, Seen(Request(d)).cmd);
            var out := DataBytes(d.outPayload);
            && Storable(out)
            && ReceiveTurn(Encode(Response(answer)) + tail) == Got(Seen(Response(answer)), tail)
            && var (r, d') := Finished(d, WhenWoken(Handle(l, Seen(Response(answer))), ms, broken, e), false, out, copyAddr);
               && (r == SUCCESS <==> !LeftError(broken)) && DataBytes(d'.outPayload) == out
               && (r == SUCCESS ==> d'.status == answer.status && d'.result == answer.result)
               && (r != SUCCESS ==> r == RecvErrorCode(e) && d' == d.(status := STATUS_FAILED))
  {
    var answer := Executed(executor, Seen(Request(d)).cmd);
    var l' := Handle(l, Seen(Response(answer)));
    ExecCopiesLeftPayload(l', d, copyAddr);
    ResponseReceived(answer, tail);
    AnswerTakenIff(l', d, tail, ms, broken, e, DataBytes(d.outPayload), copyAddr);
  }

  /** The status an acknowledged descriptor goes out with: its own if that is final, else SUCCESS or FAILED by its result. */
  lemma AckedStatus(d: CmdDesc)
    ensures Acked(d).status > STATUS_PROCESSING && Acked(d).result == d.result && Acked(d).outPayload == d.outPayload
    ensures d.status > STATUS_PROCESSING ==> Acked(d) == d
    ensures d.status <= STATUS_PROCESSING ==>
              && (Acked(d).status == STATUS_SUCCESS <==> d.result == SUCCESS)
              && (Acked(d).status == STATUS_FAILED <==> d.result != SUCCESS)
  {
  }

  /**
   * A command acknowledged by an executor that polls: its answer gets through if and only if its payload's length fits the
   * frame, and its initiator then ends with the acknowledged status, result and payload, a status left open having become
   * SUCCESS exactly for a successful result and FAILED for any other.
   */
  lemma AckComesBack(l: Link, d: CmdDesc, acked: CmdDesc, p: CmdPayload, out: seq<byte>, addr: u64, tail: seq<byte>, copyAddr: u64)
    requires l.recvError == SUCCESS && copyAddr != 0 && addr != 0 && Storable(out)
    requires acked.outPayload == CmdDescs.Stored(p, out, addr)
    ensures ReceiveTurn(Encode(Response(Acked(acked))) + tail) == Got(Seen(Response(Acked(acked))), tail) <==> Fits(|out|)
    ensures var (r, d') := Finished(d, Handle(l, Seen(Response(Acked(acked)))), false, out, copyAddr);
            && r == SUCCESS && d'.result == acked.result
            && (acked.status > STATUS_PROCESSING ==> d'.status == acked.status)
            && (acked.status <= STATUS_PROCESSING ==>
                  && (d'.status == STATUS_SUCCESS <==> acked.result == SUCCESS)
                  && (d'.status == STATUS_FAILED <==> acked.result != SUCCESS))
            && (out != [] ==> DataBytes(d'.outPayload) == out)
  {
    AckedStatus(acked);
    AnswerComesBack(l, d, Acked(acked), p, out, addr, tail, [], None, Closed, copyAddr);
  }

  /**
   * What wakes a waiting exec: a response, or the stream giving out at a header or within an event. Where it gives out
   * within data or a command, nobody wakes exec: it stays until its own time is up.
   */
  lemma WokenIff(l: Link, ms: seq<Msg>, broken: Option<Turn>, e: StreamEnd)
    requires !l.responseReady
    ensures WhenWoken(l, ms, broken, e).responseReady
       <==> (exists m :: m in ms && m.Response?) || broken == Some(BrokenAtHeader) || broken == Some(BrokenInEvent)
  {
    ReadyIff(l, ms);
  }

  /**
   * Exec never ends with what an earlier one has left: it is woken exactly by a response or a break that comes after it has
   * started, and it finds an error exactly if the break that ended the receiver thread since then left one.
   */
  lemma NothingStale(l: Link, ms: seq<Msg>, broken: Option<Turn>, e: StreamEnd)
    requires broken.Some? ==> !broken.value.Got? && !broken.value.Skipped?
    ensures var w := WhenWoken(ExecStarted(l), ms, broken, e);
            && (w.responseReady
                <==> (exists m :: m in ms && m.Response?) || broken == Some(BrokenAtHeader) || broken == Some(BrokenInEvent))
            && (w.recvError == SUCCESS <==> !LeftError(broken))
  {
    WokenIff(ExecStarted(l), ms, broken, e);
    HandlingKeepsError(ExecStarted(l), ms);
  }

  lemma {:induction false} HandlingKeepsError(l: Link, ms: seq<Msg>)
    ensures HandleAll(l, ms).recvError == l.recvError && HandleAll(l, ms).pollingMode == l.pollingMode
    decreases |ms|
  {
    if ms != [] {
      HandleKeepsRegistrations(l, ms[0]);
      HandleKeepsError(l, ms[0]);
      HandlingKeepsError(Handle(l, ms[0]), ms[1..]);
    }
  }

  lemma HandleKeepsError(l: Link, m: Msg)
    ensures Handle(l, m).recvError == l.recvError
  {
  }

  lemma {:induction false} ReadyIff(l: Link, ms: seq<Msg>)
    ensures HandleAll(l, ms).responseReady <==> l.responseReady || exists m :: m in ms && m.Response?
    decreases |ms|
  {
    if ms != [] {
      ReadyStep(l, ms[0]);
      ReadyIff(Handle(l, ms[0]), ms[1..]);
      assert forall m :: m in ms <==> m == ms[0] || m in ms[1..];
    }
  }

  lemma ReadyStep(l: Link, m: Msg)
    ensures Handle(l, m).responseReady <==> l.responseReady || m.Response?
  {
  }

  // -------------------------------------------------------------------------------------------------------------
  // Subscriptions

  /** The peer's last announcement among some messages, or what it was before. */
  predicate Announced(was: bool, ms: seq<Msg>) {
    if ms == [] then was
    else
      var last := ms[|ms| - 1];
      last.Subscribe? || (!last.Unsubscribe? && Announced(was, ms[..|ms| - 1]))
  }

  lemma AnnouncedFirst(was: bool, ms: seq<Msg>)
    requires ms != []
    ensures Announced(was, ms) == Announced(Announced(was, ms[..1]), ms[1..])
    decreases |ms|
  {
    var n := |ms| - 1;
    if n > 0 {
      AnnouncedFirst(was, ms[..n]);
      assert ms[..n][..1] == ms[..1] && ms[..n][1..] == ms[1..][..n - 1];
    }
  }

  lemma HandleAnnounces(l: Link, m: Msg)
    ensures Handle(l, m).peerHasSubscription <==> Announced(l.peerHasSubscription, [m])
  {
    assert [m][..0] == [];
  }

  /** Over any messages, the link counts its peer as subscribed exactly if the peer's last announcement said so. */
  lemma {:induction false} SubscriptionFollows(l: Link, ms: seq<Msg>)
    ensures HandleAll(l, ms).peerHasSubscription <==> Announced(l.peerHasSubscription, ms)
    decreases |ms|
  {
    if ms != [] {
      HandleAnnounces(l, ms[0]);
      assert ms[..1] == [ms[0]];
      SubscriptionFollows(Handle(l, ms[0]), ms[1..]);
      AnnouncedFirst(l.peerHasSubscription, ms);
    }
  }

  lemma {:induction false} SeenAnnounces(was: bool, ms: seq<Msg>)
    ensures Announced(was, SeenAll(ms)) == Announced(was, ms)
    decreases |ms|
  {
    if ms != [] {
      AnnouncedFirst(was, ms);
      AnnouncedFirst(was, SeenAll(ms));
      assert SeenAll(ms)[1..] == SeenAll(ms[1..]) && SeenAll(ms)[..1] == [Seen(ms[0])] && ms[..1] == [ms[0]];
      assert [ms[0]][..0] == [] && [Seen(ms[0])][..0] == [];
      SeenAnnounces(Announced(was, ms[..1]), ms[1..]);
    }
  }

  // -------------------------------------------------------------------------------------------------------------
  // Writers at one end, receiver thread at the other

  /** Any one message, by the writer for its kind. */
  method WriteMessage(socket: Socket, m: Msg) returns (r: Code)
    requires Sendable(m) && !socket.sendsFail
    modifies socket`sent
    ensures r == SUCCESS && socket.sent == old(socket.sent) + Encode(m)
  {
    match m {
      case Event(e) => r := PostEvt(socket, true, e);
      case Subscribe => r := SendSubscription(socket, true);
      case Unsubscribe => r := SendSubscription(socket, false);
      case Data(bytes) => r := SendData(socket, bytes);
      case Request(d) =>
        ghost var payload;
        r, payload := SendRequest(socket, d);
      case Response(d) =>
        ghost var payload := SendResponse(socket, d);
        r := SUCCESS;
    }
  }

  lemma OneMoreWritten(before: seq<byte>, ms: seq<Msg>, i: nat)
    requires i < |ms|
    ensures before + EncodeAll(ms[..i]) + Encode(ms[i]) == before + EncodeAll(ms[..i + 1])
  {
    assert ms[..i + 1] == ms[..i] + [ms[i]];
    EncodeAllAppend(ms[..i], ms[i]);
    assert before + EncodeAll(ms[..i]) + Encode(ms[i]) == before + (EncodeAll(ms[..i]) + Encode(ms[i]));
  }

  /** Messages written one after the other put exactly their encodings on the stream. */
  method WriteMessages(socket: Socket, ms: seq<Msg>)
    requires !socket.sendsFail && forall m :: m in ms ==> Sendable(m)
    modifies socket`sent
    ensures socket.sent == old(socket.sent) + EncodeAll(ms)
  {
    assert EncodeAll(ms[..0]) == [] && socket.sent + [] == socket.sent;
    for i := 0 to |ms|
      invariant socket.sent == old(socket.sent) + EncodeAll(ms[..i])
    {
      var ignored := WriteMessage(socket, ms[i]);
      OneMoreWritten(old(socket.sent), ms, i);
    }
    assert ms[..|ms|] == ms;
  }

  /**
   * From one end to the other: what writers put on a fresh connection, however the network splits it on either side, the
   * receiver thread at the other end handles message by message, and then finds the stream at its end between two frames.
   */
  method Conversation(sender: Socket, ms: seq<Msg>, receiver: TcpLinkObj)
    requires !sender.sendsFail && sender.sent == [] && receiver.Valid() && receiver.socket != sender
    requires forall m :: m in ms ==> Sendable(m)
    modifies sender`sent, receiver, receiver.socket, receiver.incomingCmdQueue
    modifies receiver.pollingBuffer, receiver.pollingBuffer.dataBuffer
    ensures receiver.Valid()
    ensures receiver.Value()
         == HandleBreak(HandleAll(old(receiver.Value()), SeenAll(ms)), BrokenAtHeader, receiver.socket.end)
    ensures receiver.AnswersOut(old(receiver.socket.sent), |old(receiver.answers)|)
  {
    WriteMessages(sender, ms);
    ghost var value := receiver.Value();
    receiver.socket.incoming := sender.sent;
    assert EncodeAll(ms) + [] == EncodeAll(ms) && [] + EncodeAll(ms) == EncodeAll(ms);
    LoopHandlesMessages(value, ms, [], receiver.socket.end);
    receiver.RecvThread();
  }

  /**
   * After such a conversation an event posted back goes out, behind the answers given, if and only if the writers' last
   * announcement was a subscription; if it was not, nobody is told and nothing is sent.
   */
  method ConversationThenPost(sender: Socket, ms: seq<Msg>, receiver: TcpLinkObj, evt: EvtMsg) returns (r: Code)
    requires !sender.sendsFail && sender.sent == [] && receiver.Valid() && receiver.socket != sender
    requires forall m :: m in ms ==> Sendable(m)
    modifies sender`sent, receiver, receiver.socket, receiver.incomingCmdQueue
    modifies receiver.pollingBuffer, receiver.pollingBuffer.dataBuffer
    ensures receiver.Valid() && |old(receiver.answers)| <= |receiver.answers|
    ensures r == NO_EVENT_CONSUMER <==> !Announced(old(receiver.peerHasSubscription), ms)
    ensures !receiver.socket.sendsFail && AllBacked(receiver.answers[|old(receiver.answers)|..]) ==>
              receiver.socket.sent
              == old(receiver.socket.sent) + AnswerBytes(receiver.answers[|old(receiver.answers)|..])
                 + (if Announced(old(receiver.peerHasSubscription), ms) then Encode(Event(evt)) else [])
  {
    ghost var l := receiver.Value();
    SubscriptionFollows(l, SeenAll(ms));
    SeenAnnounces(l.peerHasSubscription, ms);
    Conversation(sender, ms, receiver);
    ghost var value := receiver.Value();
    assert value.peerHasSubscription == Announced(l.peerHasSubscription, ms);
    r := receiver.Post(evt);
    assert receiver.Value().answers == value.answers;
  }

  /**
   * A response whose payload frame was cut off leaves behind the other side's address and length with nothing to read
   * there; what exec copies is readable if and only if the whole frame came.
   */
  lemma CutResponseUnreadable(d: CmdDesc, cut: nat)
    requires Sendable(Response(d)) && d.outPayload.ptrDataLen > 0
    requires cut <= HEADER_SIZE + |d.outPayload.mem|
    ensures var frame := EncodeHeader(MSG_DATA, d.outPayload.ptrDataLen) + d.outPayload.mem;
            ResponseReadable(ReceiveResponse(Bare(d), frame[..cut]).0) <==> cut == |frame|
  {
    var mem := d.outPayload.mem;
    var header := EncodeHeader(MSG_DATA, d.outPayload.ptrDataLen);
    var frame := header + mem;
    if cut == |frame| {
      assert frame[..cut] == frame + [];
      ResponsePayloadReceived(d, []);
    } else if cut >= HEADER_SIZE {
      var body := mem[..cut - HEADER_SIZE];
      assert frame[..cut] == header + body;
      TurnOnFrame(MSG_DATA, d.outPayload.ptrDataLen, body);
    }
  }
}
