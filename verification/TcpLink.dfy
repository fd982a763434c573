/** A TCP link: the socket helpers, the receiver thread's loop, and both ends of a command. */
module TcpLinks {
  import opened Results
  import opened Bytes
  import opened CmdDescs
  import opened TcpWire
  import Rings = ByteRings
  import Slots

  const INCOMING_CMD_MAX: nat := 16

  datatype Errno = ECONNRESET | ECONNABORTED | EPIPE | EBADF | ENOTCONN | ETIMEDOUT | OtherErrno

  /** How a stream ends: the peer closed it, or recv reports an error from some point on. */
  datatype StreamEnd = Closed | Failed(errno: Errno)

  function RecvErrorCode(e: StreamEnd): (c: Code)
    ensures c != SUCCESS
  {
    match e
    case Closed => LINK_BROKEN
    case Failed(errno) =>
      if errno.ECONNRESET? || errno.ECONNABORTED? || errno.EPIPE? then LINK_BROKEN
      else if errno.ETIMEDOUT? then TIMEOUT
      else BUG
  }

  function SendErrorCode(errno: Errno): (c: Code)
    ensures c != SUCCESS && c != NO_EVENT_CONSUMER
  {
    if errno.ETIMEDOUT? then TIMEOUT else if errno.OtherErrno? then BUG else LINK_BROKEN
  }

  /** Both directions report a lost connection as LINK_BROKEN, except that a socket no longer usable is a BUG to recv alone. */
  lemma ErrorCodes(errno: Errno)
    ensures SendErrorCode(errno) == RecvErrorCode(Failed(errno)) <==> !errno.EBADF? && !errno.ENOTCONN?
    ensures RecvErrorCode(Failed(errno)) == RecvErrorCode(Closed) <==> errno.ECONNRESET? || errno.ECONNABORTED? || errno.EPIPE?
    ensures RecvErrorCode(Closed) == LINK_BROKEN
    ensures SendErrorCode(errno) == TIMEOUT <==> errno.ETIMEDOUT?
    ensures SendErrorCode(errno) == BUG <==> errno.OtherErrno?
  {
  }

  datatype Received = Bytes(bytes: seq<byte>) | End(end: StreamEnd)

  datatype SendOutcome = Accepted(n: nat) | SendFailed(errno: Errno)

  /** One end of a connection: the bytes still to arrive and how they end, and the bytes handed to the network. */
  class Socket {
    var incoming: seq<byte>
    const end: StreamEnd
    var sent: seq<byte>
    const sendsFail: bool

    constructor (incoming: seq<byte>, end: StreamEnd, sendsFail: bool)
      ensures this.incoming == incoming && this.end == end && this.sendsFail == sendsFail && sent == []
    {
      this.incoming, this.end, this.sent, this.sendsFail := incoming, end, [], sendsFail;
    }

    /** recv gives at least one byte and at most what was asked for, however the network has cut the stream. */
    method Recv(max: nat) returns (r: Received)
      requires max > 0
      modifies this`incoming
      ensures old(incoming) == [] ==> r == End(end) && incoming == []
      ensures old(incoming) != [] ==> r.Bytes? && 0 < |r.bytes| <= max && old(incoming) == r.bytes + incoming
    {
      if incoming == [] {
        return End(end);
      }
      var k: nat :| 0 < k <= max && k <= |incoming|;
      r := Bytes(incoming[..k]);
      incoming := incoming[k..];
    }

    /** send takes at least one byte and at most all of them, or fails; on a socket whose sends never fail it takes some. */
    method Send(data: seq<byte>) returns (r: SendOutcome)
      requires data != []
      modifies this`sent
      ensures r.Accepted? ==> 0 < r.n <= |data| && sent == old(sent) + data[..r.n]
      ensures r.SendFailed? ==> sendsFail && sent == old(sent)
    {
      if sendsFail {
        var broken: bool := *;
        if broken {
          return SendFailed(EPIPE);
        }
      }
      var k: nat :| 0 < k <= |data|;
      sent := sent + data[..k];
      r := Accepted(k);
    }
  }

  /** `totalSent` bytes are out, which is all of them exactly when the result is success. */
  method SendAll(socket: Socket, data: seq<byte>) returns (r: Code, totalSent: nat)
    modifies socket`sent
    ensures totalSent <= |data| && socket.sent == old(socket.sent) + data[..totalSent]
    ensures r == SUCCESS <==> totalSent == |data|
    ensures r == SUCCESS ==> socket.sent == old(socket.sent) + data
    ensures r != SUCCESS ==> socket.sendsFail
    ensures r != NO_EVENT_CONSUMER
  {
    totalSent := 0;
    while totalSent < |data|
      invariant totalSent <= |data|
      invariant socket.sent == old(socket.sent) + data[..totalSent]
      decreases |data| - totalSent
    {
      var outcome := socket.Send(data[totalSent..]);
      if outcome.SendFailed? {
        return SendErrorCode(outcome.errno), totalSent;
      }
      assert data[..totalSent] + data[totalSent..][..outcome.n] == data[..totalSent + outcome.n];
      totalSent := totalSent + outcome.n;
    }
    assert data[..totalSent] == data;
    r := SUCCESS;
  }

  /** Exactly the next `size` bytes, whatever the chunks; or, when the stream ends first, its error and an empty stream. */
  method RecvAll(socket: Socket, size: nat) returns (r: Code, data: seq<byte>)
    modifies socket`incoming
    ensures size <= |old(socket.incoming)| ==>
              r == SUCCESS && data == old(socket.incoming)[..size] && socket.incoming == old(socket.incoming)[size..]
    ensures size > |old(socket.incoming)| ==> r == RecvErrorCode(socket.end) && socket.incoming == []
  {
    data := [];
    while |data| < size
      invariant |data| <= size && old(socket.incoming) == data + socket.incoming
      decreases size - |data|
    {
      var chunk := socket.Recv(size - |data|);
      if chunk.End? {
        return RecvErrorCode(chunk.end), data;
      }
      data := data + chunk.bytes;
    }
    r := SUCCESS;
  }

  // -------------------------------------------------------------------------------------------------------------
  // The writers, message by message

  /** What has gone out is so much of `whole`: nothing but a prefix of it. */
  ghost predicate WentOut(before: seq<byte>, after: seq<byte>, whole: seq<byte>) {
    exists n: nat :: n <= |whole| && after == before + whole[..n]
  }

  lemma WentOutThen(before: seq<byte>, first: seq<byte>, after: seq<byte>, second: seq<byte>)
    requires WentOut(before + first, after, second)
    ensures WentOut(before, after, first + second)
  {
    var n: nat :| n <= |second| && after == before + first + second[..n];
    assert before + first + second[..n] == before + (first + second)[..|first| + n];
  }

  lemma WentOutFirst(before: seq<byte>, after: seq<byte>, first: seq<byte>, second: seq<byte>)
    requires WentOut(before, after, first)
    ensures WentOut(before, after, first + second)
  {
    var n: nat :| n <= |first| && after == before + first[..n];
    assert (first + second)[..n] == first[..n];
  }

  /** Sends one piece after another for as long as they go out, as the writers do with header, descriptor and payload. */
  method SendPieces(socket: Socket, first: seq<byte>, second: seq<byte>) returns (r: Code)
    modifies socket`sent
    ensures r == SUCCESS ==> socket.sent == old(socket.sent) + (first + second)
    ensures r != SUCCESS ==> socket.sendsFail && WentOut(old(socket.sent), socket.sent, first + second)
    ensures r != NO_EVENT_CONSUMER
  {
    var n;
    r, n := SendAll(socket, first);
    if r != SUCCESS {
      WentOutFirst(old(socket.sent), socket.sent, first, second);
      return;
    }
    ghost var between := socket.sent;
    r, n := SendAll(socket, second);
    if r == SUCCESS {
      assert old(socket.sent) + first + second == old(socket.sent) + (first + second);
    } else {
      WentOutThen(old(socket.sent), first, socket.sent, second);
    }
  }

  method PostEvt(socket: Socket, peerHasSubscription: bool, evt: EvtMsg) returns (r: Code)
    modifies socket`sent
    ensures r == NO_EVENT_CONSUMER <==> !peerHasSubscription
    ensures !peerHasSubscription ==> socket.sent == old(socket.sent)
    ensures r == SUCCESS ==> socket.sent == old(socket.sent) + Encode(Event(evt))
    ensures peerHasSubscription && !socket.sendsFail ==> r == SUCCESS
  {
    if !peerHasSubscription {
      return NO_EVENT_CONSUMER;
    }
    r := SendPieces(socket, EncodeHeader(MSG_EVENT, EVT_SIZE), EncodeEvt(evt));
  }

  /** The announcements a subscriber makes to its peer. */
  method SendSubscription(socket: Socket, subscribe: bool) returns (r: Code)
    modifies socket`sent
    ensures r == SUCCESS ==> socket.sent == old(socket.sent) + Encode(if subscribe then Subscribe else Unsubscribe)
    ensures !socket.sendsFail ==> r == SUCCESS
  {
    var n;
    r, n := SendAll(socket, EncodeHeader(if subscribe then MSG_SUBSCRIBE else MSG_UNSUBSCRIBE, 0));
  }

  method SendData(socket: Socket, data: seq<byte>) returns (r: Code)
    modifies socket`sent
    ensures data == [] ==> r == NO_DATA && socket.sent == old(socket.sent)
    ensures r == SUCCESS ==> socket.sent == old(socket.sent) + Encode(Data(data))
    ensures data != [] && !socket.sendsFail ==> r == SUCCESS
  {
    if |data| == 0 {
      return NO_DATA;
    }
    r := SendPieces(socket, EncodeHeader(MSG_DATA, |data|), data);
  }

  /** memcpy's or send's view of `n` bytes at a pointer: the data where it is readable, and anything where it is not. */
  method ReadMemory(mem: seq<byte>, n: nat) returns (data: seq<byte>)
    ensures |data| == n && (n <= |mem| ==> data == DataAt(mem, n))
  {
    if n <= |mem| {
      return mem[..n];
    }
    var unknown: seq<byte> := seq(n, _ => 0);
    assert |unknown| == n;
    data :| |data| == n;
  }

  lemma PiecesOut(before: seq<byte>, a: seq<byte>, b: seq<byte>, frame: seq<seq<byte>>)
    ensures Joined([a, b] + frame) == a + b + Joined(frame)
    ensures before + (a + b) + Joined(frame) == before + Joined([a, b] + frame)
  {
    assert ([a, b] + frame)[1..] == [b] + frame && ([b] + frame)[1..] == frame;
    assert a + (b + Joined(frame)) == a + b + Joined(frame);
    assert before + (a + b) + Joined(frame) == before + (a + b + Joined(frame));
  }

  lemma FramePieces(header: seq<byte>, payload: seq<byte>)
    ensures Joined([header, payload]) == header + payload
  {
    assert [header, payload][1..] == [payload] && Joined([payload]) == payload;
  }

  /** Stops at the first piece that does not go out. `payload` is what was found at the payload's pointer. */
  method SendRequest(socket: Socket, d: CmdDesc) returns (r: Code, ghost payload: seq<byte>)
    modifies socket`sent
    ensures |payload| == d.inPayload.ptrDataLen
    ensures r == SUCCESS ==> socket.sent == old(socket.sent) + Joined(RequestPieces(d, payload))
    ensures r == SUCCESS && RequestBacked(d) ==> socket.sent == old(socket.sent) + Encode(Request(d))
    ensures r != SUCCESS ==> socket.sendsFail && WentOut(old(socket.sent), socket.sent, Joined(RequestPieces(d, payload)))
  {
    ghost var before := socket.sent;
    var descHeader, desc := EncodeHeader(MSG_COMMAND, CMD_SIZE), EncodeCmd(d);
    var data := ReadMemory(d.inPayload.mem, d.inPayload.ptrDataLen);
    payload := data;
    ghost var frame := RequestPieces(d, payload)[2..];
    assert RequestPieces(d, payload) == [descHeader, desc] + frame;
    PiecesOut(before, descHeader, desc, frame);
    RequestPiecesJoined(d);
    r := SendPieces(socket, descHeader, desc);
    if r != SUCCESS {
      WentOutFirst(before, socket.sent, descHeader + desc, Joined(frame));
      return;
    }
    if d.inPayload.ptrDataLen > 0 && d.inPayload.addr != 0 {
      var header := EncodeHeader(MSG_DATA, d.inPayload.ptrDataLen);
      assert frame == [header, payload];
      FramePieces(header, payload);
      r := SendPieces(socket, header, data);
      if r != SUCCESS {
        WentOutThen(before, descHeader + desc, socket.sent, Joined(frame));
      }
    } else {
      assert frame == [];
    }
  }

  /** Each piece in turn, or as much of it as went out, whatever became of the one before. */
  ghost predicate CutPiecesOut(before: seq<byte>, after: seq<byte>, pieces: seq<seq<byte>>)
    decreases |pieces|
  {
    if pieces == [] then after == before
    else exists between: seq<byte> :: WentOut(before, between, pieces[0]) && CutPiecesOut(between, after, pieces[1..])
  }

  lemma {:induction false} CutPieceAppended(before: seq<byte>, between: seq<byte>, after: seq<byte>, pieces: seq<seq<byte>>, piece: seq<byte>)
    requires CutPiecesOut(before, between, pieces) && WentOut(between, after, piece)
    ensures CutPiecesOut(before, after, pieces + [piece])
    decreases |pieces|
  {
    var all := pieces + [piece];
    if pieces == [] {
      assert CutPiecesOut(after, after, all[1..]);
    } else {
      var next :| WentOut(before, next, pieces[0]) && CutPiecesOut(next, between, pieces[1..]);
      CutPieceAppended(next, between, after, pieces[1..], piece);
      assert all[1..] == pieces[1..] + [piece];
    }
  }

  /** One more piece, its result given to the caller to heed or not. `start` and `pieces` are what this writer did before. */
  method SendPiece(socket: Socket, piece: seq<byte>, ghost start: seq<byte>, ghost pieces: seq<seq<byte>>) returns (r: Code)
    requires CutPiecesOut(start, socket.sent, pieces)
    requires !socket.sendsFail ==> socket.sent == start + Joined(pieces)
    modifies socket`sent
    ensures CutPiecesOut(start, socket.sent, pieces + [piece])
    ensures !socket.sendsFail ==> r == SUCCESS && socket.sent == start + Joined(pieces + [piece])
    ensures r == SUCCESS ==> socket.sent == old(socket.sent) + piece
  {
    var n;
    r, n := SendAll(socket, piece);
    assert WentOut(old(socket.sent), socket.sent, piece);
    CutPieceAppended(start, old(socket.sent), socket.sent, pieces, piece);
    JoinedAppended(pieces, piece);
    assert start + Joined(pieces) + piece == start + (Joined(pieces) + piece);
  }

  /** The payload frame of a response, whose results no writer looks at. */
  method SendOutFrame(socket: Socket, d: CmdDesc, ghost start: seq<byte>) returns (ghost payload: seq<byte>)
    requires CutPiecesOut(start, socket.sent, [EncodeHeader(MSG_COMMAND, CMD_SIZE), EncodeCmd(d)])
    requires !socket.sendsFail ==> socket.sent == start + Joined([EncodeHeader(MSG_COMMAND, CMD_SIZE), EncodeCmd(d)])
    modifies socket`sent
    ensures |payload| == DataLen(d.outPayload) && CutPiecesOut(start, socket.sent, ResponsePieces(d, payload))
    ensures !socket.sendsFail ==> socket.sent == start + Joined(ResponsePieces(d, payload))
    ensures !socket.sendsFail && ResponseBacked(d) ==> socket.sent == start + Encode(Response(d))
  {
    ghost var command := [EncodeHeader(MSG_COMMAND, CMD_SIZE), EncodeCmd(d)];
    var data := ReadMemory(DataPtr(d.outPayload), DataLen(d.outPayload));
    payload := data;
    ResponsePiecesJoined(d);
    if HasOutFrame(d) {
      var header := EncodeHeader(MSG_DATA, DataLen(d.outPayload));
      var ignored := SendPiece(socket, header, start, command);
      ignored := SendPiece(socket, data, start, command + [header]);
      assert command + [header] + [payload] == ResponsePieces(d, payload);
    } else {
      assert ResponsePieces(d, payload) == command;
      assert ResponsePieces(d, DataAt(DataPtr(d.outPayload), DataLen(d.outPayload))) == command;
    }
  }

  /** The receiver thread's answer: four pieces, one after the other, whatever becomes of each. */
  method SendResponse(socket: Socket, d: CmdDesc) returns (ghost payload: seq<byte>)
    modifies socket`sent
    ensures |payload| == DataLen(d.outPayload) && CutPiecesOut(old(socket.sent), socket.sent, ResponsePieces(d, payload))
    ensures !socket.sendsFail ==> socket.sent == old(socket.sent) + Joined(ResponsePieces(d, payload))
    ensures !socket.sendsFail && ResponseBacked(d) ==> socket.sent == old(socket.sent) + Encode(Response(d))
  {
    ghost var start := socket.sent;
    var header := EncodeHeader(MSG_COMMAND, CMD_SIZE);
    assert start + Joined([]) == start;
    var ignored := SendPiece(socket, header, start, []);
    assert [] + [header] == [header];
    ignored := SendPiece(socket, EncodeCmd(d), start, [header]);
    assert [header] + [EncodeCmd(d)] == [header, EncodeCmd(d)];
    payload := SendOutFrame(socket, d, start);
  }

  /** The answer of an executor that polls: it stops if the descriptor does not go out, but heeds no result after that. */
  method SendAck(socket: Socket, d: CmdDesc) returns (r: Code)
    modifies socket`sent
    ensures r != SUCCESS ==> socket.sendsFail
    ensures !socket.sendsFail && ResponseBacked(d) ==> socket.sent == old(socket.sent) + Encode(Response(d))
  {
    ghost var start := socket.sent;
    var header := EncodeHeader(MSG_COMMAND, CMD_SIZE);
    assert start + Joined([]) == start;
    r := SendPiece(socket, header, start, []);
    if r != SUCCESS {
      return;
    }
    assert [] + [header] == [header];
    r := SendPiece(socket, EncodeCmd(d), start, [header]);
    if r != SUCCESS {
      return;
    }
    assert [header] + [EncodeCmd(d)] == [header, EncodeCmd(d)];
    ghost var payload := SendOutFrame(socket, d, start);
  }

  // -------------------------------------------------------------------------------------------------------------
  // The link and its receiver thread

  /** A command callback: from the descriptor it is given to its return value and the descriptor it leaves. */
  type Executor = CmdDesc -> (Code, CmdDesc)

  /** The value of a link: its registrations, which never change here, and what the receiver thread changes. */
  datatype Link = Link(
    evtCallback: bool,
    evtIds: seq<u64>,
    datCallback: bool,
    pollingMode: bool,
    executor: Option<Executor>,
    bufferSize: nat,
    // changed by the receiver thread
    peerHasSubscription: bool,
    events: seq<EvtMsg>,            // event callbacks made
    dataCalls: seq<seq<byte>>,      // data callbacks made
    buffered: seq<byte>,            // the polling buffer's contents
    commands: seq<CmdDesc>,         // the queue IOC_waitCMD reads
    response: CmdDesc,
    responseReady: bool,
    recvError: Code,
    answers: seq<CmdDesc>)          // responses the thread has written

  /** The executor's answer to a request: PROCESSING for the callback, then SUCCESS or FAILED by what it returned. */
  function Executed(executor: Executor, d: CmdDesc): CmdDesc {
    var (result, d') := executor(d.(status := STATUS_PROCESSING));
    d'.(status := if result == SUCCESS then STATUS_SUCCESS else STATUS_FAILED, result := result)
  }

  function Handle(l: Link, m: Msg): Link {
    match m
    case Event(e) => if l.evtCallback && e.evtId in l.evtIds then l.(events := l.events + [e]) else l
    case Subscribe => l.(peerHasSubscription := true)
    case Unsubscribe => l.(peerHasSubscription := false)
    case Data(bytes) =>
      if l.datCallback then l.(dataCalls := l.dataCalls + [bytes])
      else if l.pollingMode && |bytes| > 0 && |l.buffered| + |bytes| <= l.bufferSize then l.(buffered := l.buffered + bytes)
      else l
    case Request(d) =>
      if l.executor.Some? then l.(answers := l.answers + [Executed(l.executor.value, d)])
      else if |l.commands| < INCOMING_CMD_MAX then l.(commands := l.commands + [d])
      else l
    case Response(d) => l.(response := d, responseReady := true)
  }

  /** The end of the loop: where the stream gave out decides what the waiting initiator is told. */
  function HandleBreak(l: Link, t: Turn, e: StreamEnd): Link {
    match t
    case BrokenAtHeader => l.(recvError := RecvErrorCode(e), responseReady := true)
    case BrokenInEvent => l.(recvError := RecvErrorCode(e), responseReady := true)
    case BrokenInData => l.(recvError := RecvErrorCode(e))
    case _ => l
  }

  /** Within a command the loop ends without a word. */
  predicate LeavesError(t: Turn) {
    t.BrokenAtHeader? || t.BrokenInEvent? || t.BrokenInData?
  }

  /** What the whole loop makes of a stream. */
  function RunLoop(l: Link, s: seq<byte>, e: StreamEnd): Link
    decreases |s|
  {
    match ReceiveTurn(s)
    case Got(m, rest) => RunLoop(Handle(l, m), rest, e)
    case Skipped(rest) => RunLoop(l, rest, e)
    case t => HandleBreak(l, t, e)
  }

  /** The bytes of a run of responses. */
  function AnswerBytes(ds: seq<CmdDesc>): seq<byte> {
    if ds == [] then [] else AnswerBytes(ds[..|ds| - 1]) + Encode(Response(ds[|ds| - 1]))
  }

  predicate AllBacked(ds: seq<CmdDesc>) {
    forall i :: 0 <= i < |ds| ==> ResponseBacked(ds[i])
  }

  lemma AnswerBytesExtend(sent0: seq<byte>, answers: seq<CmdDesc>, n: nat, d: CmdDesc)
    requires n <= |answers|
    ensures sent0 + AnswerBytes((answers + [d])[n..]) == sent0 + AnswerBytes(answers[n..]) + Encode(Response(d))
    ensures AllBacked((answers + [d])[n..]) ==> AllBacked(answers[n..]) && ResponseBacked(d)
  {
    var since := answers[n..];
    assert (answers + [d])[n..] == since + [d] && (since + [d])[..|since|] == since;
    if AllBacked(since + [d]) {
      assert ResponseBacked((since + [d])[|since|]);
      forall i | 0 <= i < |since| ensures ResponseBacked(since[i]) {
        assert ResponseBacked((since + [d])[i]);
      }
    }
    assert sent0 + AnswerBytes(since) + Encode(Response(d)) == sent0 + (AnswerBytes(since) + Encode(Response(d)));
  }

  function HandleAll(l: Link, ms: seq<Msg>): Link
    decreases |ms|
  {
    if ms == [] then l else HandleAll(Handle(l, ms[0]), ms[1..])
  }

  /** Exec forgets what an earlier one has left: its response, taken or not, and the error. */
  function ExecStarted(l: Link): Link {
    l.(responseReady := false, recvError := SUCCESS)
  }

  /** The status exec writes once its wait is over, before it looks at any payload. */
  function FinalStatus(l: Link, timedOut: bool): u32 {
    if timedOut then STATUS_TIMEOUT
    else if l.recvError != SUCCESS then STATUS_FAILED
    else l.response.status
  }

  /** The wait ended with a response, and that response has an OUT payload to copy. */
  predicate HasAnswerToCopy(l: Link, timedOut: bool) {
    !timedOut && l.recvError == SUCCESS && !DataPtrIsNull(l.response.outPayload) && DataLen(l.response.outPayload) > 0
  }

  /** The bytes a response's OUT getters point at are there to be read. */
  predicate ResponseReadable(d: CmdDesc) {
    DataLen(d.outPayload) <= |DataPtr(d.outPayload)|
  }

  /** What exec returns, and leaves in its descriptor, once its wait is over; `copied` is what it found at the OUT pointer. */
  function Finished(d: CmdDesc, l: Link, timedOut: bool, copied: seq<byte>, addr: u64): (Code, CmdDesc)
    requires Storable(copied)
  {
    var d' := d.(status := FinalStatus(l, timedOut));
    if timedOut then (TIMEOUT, d')
    else if l.recvError != SUCCESS then (l.recvError, d')
    else
      var d'' := d'.(result := l.response.result);
      (SUCCESS, if HasAnswerToCopy(l, timedOut) then d''.(outPayload := CmdDescs.Stored(d.outPayload, copied, addr)) else d'')
  }

  /** A polling read gets bytes: there are some, and the receiver thread has left no error. */
  predicate CanRead(l: Link) {
    l.recvError == SUCCESS && l.pollingMode && l.buffered != []
  }

  /** What a polling read into `room` bytes gets. */
  function Readable(l: Link, room: nat): seq<byte> {
    if !CanRead(l) then [] else if |l.buffered| <= room then l.buffered else l.buffered[..room]
  }

  function AfterPolledRead(l: Link, room: nat): Link {
    l.(buffered := l.buffered[|Readable(l, room)|..])
  }

  function Acked(d: CmdDesc): CmdDesc {
    if d.status > STATUS_PROCESSING then d
    else d.(status := if d.result == SUCCESS then STATUS_SUCCESS else STATUS_FAILED)
  }

  class TcpLinkObj {
    const socket: Socket
    const evtCallback: bool
    const evtIds: seq<u64>
    const datCallback: bool
    const pollingMode: bool
    const executor: Option<Executor>
    const pollingBuffer: Rings.TcpPollingBuffer
    const incomingCmdQueue: array<CmdDesc>
    var incomingCmdHead: nat
    var incomingCmdTail: nat
    var incomingCmdCount: nat
    var peerHasSubscription: bool
    var cmdResponseReady: bool
    var cmdResponse: CmdDesc
    var recvError: Code
    ghost var events: seq<EvtMsg>
    ghost var dataCalls: seq<seq<byte>>
    ghost var answers: seq<CmdDesc>

    constructor (socket: Socket, evtCallback: bool, evtIds: seq<u64>, datCallback: bool, pollingMode: bool,
                 executor: Option<Executor>, bufferSize: nat)
      requires bufferSize > 0
      ensures Valid() && this.socket == socket
      ensures fresh(pollingBuffer) && fresh(pollingBuffer.dataBuffer) && fresh(incomingCmdQueue)
      ensures Value() == Link(evtCallback, evtIds, datCallback, pollingMode, executor, bufferSize,
                              false, [], [], [], [], INITIALIZED_DESC, false, SUCCESS, [])
    {
      this.socket, this.evtCallback, this.evtIds := socket, evtCallback, evtIds;
      this.datCallback, this.pollingMode, this.executor := datCallback, pollingMode, executor;
      pollingBuffer := new Rings.TcpPollingBuffer(bufferSize);
      incomingCmdQueue := new CmdDesc[16](_ => INITIALIZED_DESC);
      incomingCmdHead, incomingCmdTail, incomingCmdCount := 0, 0, 0;
      peerHasSubscription, cmdResponseReady, cmdResponse, recvError := false, false, INITIALIZED_DESC, SUCCESS;
      events, dataCalls, answers := [], [], [];
    }

    ghost predicate Valid()
      reads this, incomingCmdQueue, pollingBuffer, pollingBuffer.dataBuffer
    {
      && Rings.RingOk(pollingBuffer.Value())
      && incomingCmdQueue.Length == INCOMING_CMD_MAX
      && incomingCmdHead < INCOMING_CMD_MAX && incomingCmdTail < INCOMING_CMD_MAX && incomingCmdCount <= INCOMING_CMD_MAX
      && incomingCmdTail == (incomingCmdHead + incomingCmdCount) % INCOMING_CMD_MAX
    }

    ghost function Commands(): (s: seq<CmdDesc>)
      requires Valid()
      reads this, incomingCmdQueue, pollingBuffer, pollingBuffer.dataBuffer
      ensures |s| == incomingCmdCount
    {
      Slots.Live(incomingCmdQueue[..], incomingCmdHead, incomingCmdCount)
    }

    ghost function Value(): Link
      requires Valid()
      reads this, incomingCmdQueue, pollingBuffer, pollingBuffer.dataBuffer
    {
      Link(evtCallback, evtIds, datCallback, pollingMode, executor, pollingBuffer.dataBuffer.Length,
           peerHasSubscription, events, dataCalls, Rings.Buffered(pollingBuffer.Value()), Commands(),
           cmdResponse, cmdResponseReady, recvError, answers)
    }

    method QueueCommand(d: CmdDesc) returns (queued: bool)
      requires Valid()
      modifies this`incomingCmdTail, this`incomingCmdCount, incomingCmdQueue
      ensures Valid() && queued == (old(incomingCmdCount) < INCOMING_CMD_MAX)
      ensures Value() == old(Value()).(commands := if queued then old(Commands()) + [d] else old(Commands()))
    {
      queued := incomingCmdCount < INCOMING_CMD_MAX;
      if queued {
        Slots.LiveAfterPut(incomingCmdQueue[..], incomingCmdHead, incomingCmdCount, d);
        incomingCmdQueue[incomingCmdTail] := d;
        incomingCmdTail := (incomingCmdTail + 1) % INCOMING_CMD_MAX;
        incomingCmdCount := incomingCmdCount + 1;
      }
    }

    /** IOC_waitCMD with its wait over: expired, in which case it does not look at the queue again, or a command there. */
    method WaitCmd(expired: bool) returns (r: Code, d: Option<CmdDesc>)
      requires Valid() && (expired || Commands() != [])
      modifies this`incomingCmdHead, this`incomingCmdCount
      ensures Valid()
      ensures expired ==> r == TIMEOUT && d == None && Value() == old(Value())
      ensures !expired ==>
                r == SUCCESS && d == Some(old(Commands())[0]) && Value() == old(Value()).(commands := old(Commands())[1..])
    {
      if expired {
        return TIMEOUT, None;
      }
      Slots.LiveAfterPop(incomingCmdQueue[..], incomingCmdHead, incomingCmdCount);
      Slots.TailAfterPop(INCOMING_CMD_MAX, incomingCmdHead, incomingCmdCount);
      d := Some(incomingCmdQueue[incomingCmdHead]);
      incomingCmdHead := (incomingCmdHead + 1) % INCOMING_CMD_MAX;
      incomingCmdCount := incomingCmdCount - 1;
      assert Commands() == old(Commands())[1..];
      r := SUCCESS;
    }

    /** The first half of exec: the previous outcome is forgotten and the request goes out as PENDING. */
    method ExecSend(cmd: CmdDescVar) returns (r: Code, ghost payload: seq<byte>)
      requires Valid()
      modifies cmd, this`cmdResponseReady, this`recvError, socket`sent
      ensures Valid() && Value() == ExecStarted(old(Value()))
      ensures cmd.desc == old(cmd.desc).(status := STATUS_PENDING)
      ensures r == SUCCESS && RequestBacked(cmd.desc) ==> socket.sent == old(socket.sent) + Encode(Request(cmd.desc))
      ensures r != SUCCESS ==>
                socket.sendsFail && WentOut(old(socket.sent), socket.sent, Joined(RequestPieces(cmd.desc, payload)))
    {
      cmdResponseReady := false;
      recvError := SUCCESS;
      cmd.desc := cmd.desc.(status := STATUS_PENDING);
      r, payload := SendRequest(socket, cmd.desc);
    }

    /**
     * The second half of exec, once its wait is over; `addr` is where the allocator would put a copied OUT payload, and
     * `copied` what the copy found at the response's pointer: its data, if this process has it.
     */
    method ExecFinish(cmd: CmdDescVar, timedOut: bool, addr: u64) returns (r: Code, ghost copied: seq<byte>)
      requires Valid() && addr != 0 && (timedOut || cmdResponseReady)
      requires HasAnswerToCopy(Value(), timedOut) ==> DataLen(cmdResponse.outPayload) + 1 < 0x1_0000_0000_0000_0000
      modifies cmd
      ensures Storable(copied) && (r, cmd.desc) == Finished(old(cmd.desc), Value(), timedOut, copied, addr)
      ensures timedOut ==> r == TIMEOUT && cmd.desc == old(cmd.desc).(status := STATUS_TIMEOUT)
      ensures HasAnswerToCopy(Value(), timedOut) ==> |copied| == DataLen(cmdResponse.outPayload)
      ensures HasAnswerToCopy(Value(), timedOut) && ResponseReadable(cmdResponse) ==> copied == DataBytes(cmdResponse.outPayload)
    {
      copied := [];
      if timedOut {
        cmd.desc := cmd.desc.(status := STATUS_TIMEOUT);
        return TIMEOUT, [];
      }
      if recvError != SUCCESS {
        cmd.desc := cmd.desc.(status := STATUS_FAILED);
        return recvError, [];
      }
      cmd.desc := cmd.desc.(status := cmdResponse.status);
      cmd.desc := cmd.desc.(result := cmdResponse.result);
      if !DataPtrIsNull(cmdResponse.outPayload) && DataLen(cmdResponse.outPayload) > 0 {
        var data := ReadMemory(DataPtr(cmdResponse.outPayload), DataLen(cmdResponse.outPayload));
        copied := data;
        assert data[..|data|] == data;
        var ignored := cmd.SetOutPayload(Some(data), |data|, addr);
      }
      r := SUCCESS;
    }

    /** A descriptor acknowledged without a final status gets one from its result, so that it goes out as a response. */
    method AckCmd(cmd: CmdDescVar) returns (r: Code)
      requires Valid()
      modifies cmd, socket`sent
      ensures Valid() && Value() == old(Value())
      ensures r == SUCCESS ==> cmd.desc == Acked(old(cmd.desc)).(inPayload := Acked(old(cmd.desc)).inPayload.(addr := 0, mem := []))
      ensures r != SUCCESS ==> socket.sendsFail && cmd.desc == Acked(old(cmd.desc))
      ensures !socket.sendsFail && ResponseBacked(Acked(old(cmd.desc))) ==>
                socket.sent == old(socket.sent) + Encode(Response(Acked(old(cmd.desc))))
    {
      if cmd.desc.status <= STATUS_PROCESSING {
        cmd.desc := cmd.desc.(status := if cmd.desc.result == SUCCESS then STATUS_SUCCESS else STATUS_FAILED);
      }
      r := SendAck(socket, cmd.desc);
      if r != SUCCESS {
        return;
      }
      cmd.desc := cmd.desc.(inPayload := cmd.desc.inPayload.(addr := 0, mem := []));
    }

    /** IOC_postEVT on this link: whether anything is sent is for the peer's last announcement to say. */
    method Post(evt: EvtMsg) returns (r: Code)
      requires Valid()
      modifies socket`sent
      ensures Valid() && Value() == old(Value())
      ensures r == NO_EVENT_CONSUMER <==> !Value().peerHasSubscription
      ensures r == NO_EVENT_CONSUMER ==> socket.sent == old(socket.sent)
      ensures r == SUCCESS ==> socket.sent == old(socket.sent) + Encode(Event(evt))
      ensures Value().peerHasSubscription && !socket.sendsFail ==> r == SUCCESS
    {
      r := PostEvt(socket, peerHasSubscription, evt);
    }

    method HandleEvent(evt: EvtMsg)
      requires Valid()
      modifies this`events
      ensures Valid() && Value() == Handle(old(Value()), Event(evt))
    {
      if evtCallback {
        for i := 0 to |evtIds|
          invariant events == old(events) && evt.evtId !in evtIds[..i]
        {
          if evt.evtId == evtIds[i] {
            events := events + [evt];
            return;
          }
        }
        assert evtIds[..|evtIds|] == evtIds;
      }
    }

    method HandleData(data: seq<byte>)
      requires Valid() && data != []
      modifies this`dataCalls, pollingBuffer, pollingBuffer.dataBuffer
      ensures Valid() && Value() == Handle(old(Value()), Data(data))
    {
      if datCallback {
        dataCalls := dataCalls + [data];
      } else if pollingMode {
        ghost var before := Commands();
        var ignored := pollingBuffer.WriteData(data);
        assert Commands() == before;
      }
    }

    /**
     * IOC_recvDAT with its wait over. It looks twice at the error the receiver thread may have left: before its wait,
     * when it found `firstLook`, and after.
     */
    method ReadPolled(buffer: array<byte>, firstLook: Code, wait: Rings.Wait) returns (r: Code, bytesRead: nat)
      requires Valid() && buffer != pollingBuffer.dataBuffer
      requires wait.Ended? ==> Value().buffered != [] || recvError != SUCCESS
      modifies pollingBuffer, buffer
      ensures Valid()
      ensures r == if firstLook != SUCCESS then firstLook
                   else if !pollingMode then NOT_SUPPORT
                   else if wait.Expired? then TIMEOUT
                   else if wait.NoWait? && old(Value()).buffered == [] then NO_DATA
                   else recvError
      ensures var room := if firstLook != SUCCESS || wait.Expired? then 0 else buffer.Length;
              && bytesRead == |Readable(old(Value()), room)| && buffer[..bytesRead] == Readable(old(Value()), room)
              && Value() == AfterPolledRead(old(Value()), room)
      ensures buffer[bytesRead..] == old(buffer[..])[bytesRead..]
    {
      if firstLook != SUCCESS {
        return firstLook, 0;
      }
      if !pollingMode {
        return NOT_SUPPORT, 0;
      }
      ghost var commands := Commands();
      r, bytesRead := pollingBuffer.ReadData(buffer, wait, recvError);
      assert Commands() == commands;
    }

    /**
     * The bytes written since `sent0` are those of the answers given since there were `n` of them, provided that all of
     * these have payloads this process can read: of others, only their length is known.
     */
    ghost predicate AnswersOut(sent0: seq<byte>, n: nat)
      reads this`answers, socket`sent
    {
      n <= |answers| && (!socket.sendsFail && AllBacked(answers[n..]) ==> socket.sent == sent0 + AnswerBytes(answers[n..]))
    }

    /** Runs the registered callback and writes its answer; a link that fails to write it has still executed it. */
    method ExecuteRequest(d: CmdDesc, callback: Executor, ghost sent0: seq<byte>, ghost n: nat)
      requires AnswersOut(sent0, n)
      modifies socket`sent, this`answers
      ensures AnswersOut(sent0, n) && answers == old(answers) + [Executed(callback, d)]
    {
      var cmd := d.(status := STATUS_PROCESSING);
      var (execResult, cmd') := callback(cmd);
      cmd := cmd';
      if execResult == SUCCESS {
        cmd := cmd.(status := STATUS_SUCCESS);
      } else {
        cmd := cmd.(status := STATUS_FAILED);
      }
      cmd := cmd.(result := execResult);
      ghost var payload := SendResponse(socket, cmd);
      AnswerBytesExtend(sent0, answers, n, cmd);
      answers := answers + [cmd];
    }

    method HandleRequest(d: CmdDesc, ghost sent0: seq<byte>, ghost n: nat)
      requires Valid() && AnswersOut(sent0, n)
      modifies socket`sent, this`answers, this`incomingCmdTail, this`incomingCmdCount, incomingCmdQueue
      ensures Valid() && AnswersOut(sent0, n)
      ensures Value() == Handle(old(Value()), Request(d))
    {
      if executor.Some? {
        ghost var before := Commands();
        ExecuteRequest(d, executor.value, sent0, n);
        assert Commands() == before;
      } else {
        var queued := QueueCommand(d);
      }
    }

    /** A request's IN payload frame, if its descriptor announces one; every failure leaves the command without data. */
    method ReceiveInPayload(d: CmdDesc) returns (d': CmdDesc)
      modifies socket`incoming
      ensures (d', socket.incoming) == ReceiveRequest(d, old(socket.incoming))
    {
      d' := d;
      if d.inPayload.ptrDataLen > 0 {
        var r, header := RecvAll(socket, HEADER_SIZE);
        if r == SUCCESS {
          var size := HeaderDataSize(header);
          if HeaderType(header) == MSG_DATA && size == d.inPayload.ptrDataLen {
            var data;
            r, data := RecvAll(socket, size);
            if r == SUCCESS {
              d' := d.(inPayload := d.inPayload.(mem := data));
            }
          }
        }
      }
    }

    /** A response: descriptor, its OUT payload frame if it announces one, then the wake-up of the waiting initiator. */
    method HandleResponse(d: CmdDesc)
      modifies socket`incoming, this`cmdResponse, this`cmdResponseReady
      ensures (cmdResponse, socket.incoming) == ReceiveResponse(d, old(socket.incoming)) && cmdResponseReady
    {
      cmdResponse := d;
      if d.outPayload.ptrDataLen > 0 {
        var r, header := RecvAll(socket, HEADER_SIZE);
        if r == SUCCESS {
          var size := HeaderDataSize(header);
          if HeaderType(header) == MSG_DATA && size > 0 {
            var data;
            r, data := RecvAll(socket, size);
            if r == SUCCESS {
              cmdResponse := cmdResponse.(outPayload := Stored(cmdResponse.outPayload, data, cmdResponse.outPayload.addr));
            }
          }
        }
      }
      cmdResponseReady := true;
    }

    /** The loop's branch for a command header: descriptor, payload frame, then execution, queueing or response. */
    method RecvCommand(ghost sent0: seq<byte>, ghost n: nat) returns (goOn: bool)
      requires Valid() && AnswersOut(sent0, n)
      modifies this, socket, incomingCmdQueue
      ensures Valid() && AnswersOut(sent0, n)
      ensures goOn == ReceiveCommand(old(socket.incoming)).Got?
      ensures goOn ==>
                var turn := ReceiveCommand(old(socket.incoming));
                socket.incoming == turn.rest && Value() == Handle(old(Value()), turn.msg)
      ensures !goOn ==> Value() == old(Value())
    {
      var r, bytes := RecvAll(socket, CMD_SIZE);
      if r != SUCCESS {
        return false;
      }
      var d := DecodeCmd(bytes);
      if d.status <= STATUS_PROCESSING {
        d := ReceiveInPayload(d);
        HandleRequest(d, sent0, n);
      } else {
        HandleResponse(d);
      }
      goOn := true;
    }

    /** The loop's branch for an event header. */
    method RecvEvent() returns (goOn: bool)
      requires Valid()
      modifies socket`incoming, this`events, this`recvError, this`cmdResponseReady
      ensures Valid() && goOn == (|old(socket.incoming)| >= EVT_SIZE)
      ensures goOn ==>
                && socket.incoming == old(socket.incoming)[EVT_SIZE..]
                && Value() == Handle(old(Value()), Event(DecodeEvt(old(socket.incoming)[..EVT_SIZE])))
      ensures !goOn ==> Value() == HandleBreak(old(Value()), BrokenInEvent, socket.end)
    {
      var r, bytes := RecvAll(socket, EVT_SIZE);
      goOn := r == SUCCESS;
      if goOn {
        HandleEvent(DecodeEvt(bytes));
      } else {
        recvError := r;
        cmdResponseReady := true;
      }
    }

    /** The loop's branch for a data header. */
    method RecvData(dataSize: nat) returns (goOn: bool)
      requires Valid() && dataSize > 0
      modifies socket`incoming, this`dataCalls, this`recvError, pollingBuffer, pollingBuffer.dataBuffer
      ensures Valid() && goOn == (|old(socket.incoming)| >= dataSize)
      ensures goOn ==>
                && socket.incoming == old(socket.incoming)[dataSize..]
                && Value() == Handle(old(Value()), Data(old(socket.incoming)[..dataSize]))
      ensures !goOn ==> Value() == HandleBreak(old(Value()), BrokenInData, socket.end)
    {
      var r, data := RecvAll(socket, dataSize);
      goOn := r == SUCCESS;
      if goOn {
        HandleData(data);
      } else {
        recvError := r;
      }
    }

    /** The loop's branches; false when one of them breaks out. */
    method RecvBody(msgType: u32, dataSize: u32, ghost sent0: seq<byte>, ghost n: nat) returns (goOn: bool)
      requires Valid() && AnswersOut(sent0, n)
      modifies this, socket, incomingCmdQueue, pollingBuffer, pollingBuffer.dataBuffer
      ensures Valid() && AnswersOut(sent0, n)
      ensures match ReceiveBody(msgType, dataSize, old(socket.incoming))
              case Got(m, rest) => goOn && socket.incoming == rest && Value() == Handle(old(Value()), m)
              case Skipped(rest) => goOn && socket.incoming == rest && Value() == old(Value())
              case t => !goOn && Value() == HandleBreak(old(Value()), t, socket.end)
    {
      if msgType == MSG_EVENT && dataSize == EVT_SIZE {
        goOn := RecvEvent();
      } else if msgType == MSG_SUBSCRIBE {
        peerHasSubscription := true;
        goOn := true;
      } else if msgType == MSG_UNSUBSCRIBE {
        peerHasSubscription := false;
        goOn := true;
      } else if msgType == MSG_DATA && dataSize > 0 {
        goOn := RecvData(dataSize);
      } else if msgType == MSG_COMMAND && dataSize == CMD_SIZE {
        goOn := RecvCommand(sent0, n);
      } else {
        goOn := true;
      }
    }

    /** One turn of the receiver thread's loop; false when it breaks out. */
    method RecvTurn(ghost sent0: seq<byte>, ghost n: nat) returns (goOn: bool)
      requires Valid() && AnswersOut(sent0, n)
      modifies this, socket, incomingCmdQueue, pollingBuffer, pollingBuffer.dataBuffer
      ensures Valid() && AnswersOut(sent0, n)
      ensures match ReceiveTurn(old(socket.incoming))
              case Got(m, rest) => goOn && socket.incoming == rest && Value() == Handle(old(Value()), m)
              case Skipped(rest) => goOn && socket.incoming == rest && Value() == old(Value())
              case t => !goOn && Value() == HandleBreak(old(Value()), t, socket.end)
    {
      var r, header := RecvAll(socket, HEADER_SIZE);
      if r != SUCCESS {
        recvError := r;
        cmdResponseReady := true;
        return false;
      }
      goOn := RecvBody(HeaderType(header), HeaderDataSize(header), sent0, n);
    }

    /**
     * The receiver thread, run to the end of its stream: however the stream arrives in chunks, the link ends up as the
     * whole-stream function says, and the bytes written are exactly those of the answers given.
     */
    method RecvThread()
      requires Valid()
      modifies this, socket, incomingCmdQueue, pollingBuffer, pollingBuffer.dataBuffer
      ensures Valid()
      ensures Value() == RunLoop(old(Value()), old(socket.incoming), socket.end)
      ensures AnswersOut(old(socket.sent), |old(answers)|)
    {
      var goOn := true;
      while goOn
        invariant Valid() && AnswersOut(old(socket.sent), |old(answers)|)
        invariant goOn ==> RunLoop(Value(), socket.incoming, socket.end) == RunLoop(old(Value()), old(socket.incoming), socket.end)
        invariant !goOn ==> Value() == RunLoop(old(Value()), old(socket.incoming), socket.end)
        decreases goOn, |socket.incoming|
      {
        goOn := RecvTurn(old(socket.sent), |old(answers)|);
      }
    }
  }
}
