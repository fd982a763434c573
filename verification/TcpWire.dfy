/**
 * The TCP frame format: what each writer puts on the socket, and what one turn of the receiver loop takes off it.
 * Headers go through htonl; descriptors are copied as they lie in memory (64-bit little-endian layout).
 */
module TcpWire {
  import opened Results
  import opened Bytes
  import opened CmdDescs

  const MSG_EVENT: u32 := 1
  const MSG_COMMAND: u32 := 2
  const MSG_DATA: u32 := 3
  const MSG_SUBSCRIBE: u32 := 4
  const MSG_UNSUBSCRIBE: u32 := 5

  /** sizeof of the header, the event descriptor and the command descriptor. */
  const HEADER_SIZE: nat := 8
  const EVT_SIZE: nat := 40
  const CMD_SIZE: nat := 248

  datatype EvtMsg = EvtMsg(seqId: u64, tvSec: u64, tvNsec: u64, evtId: u64, evtValue: u64)

  datatype Msg =
    | Event(evt: EvtMsg)
    | Subscribe
    | Unsubscribe
    | Data(bytes: seq<byte>)
    | Request(cmd: CmdDesc)
    | Response(cmd: CmdDesc)

  // -------------------------------------------------------------------------------------------------------------
  // Structures as bytes

  /** htonl takes 32 bits: a longer size loses its upper half. */
  function EncodeHeader(msgType: u32, dataSize: nat): (s: seq<byte>)
    ensures |s| == HEADER_SIZE
  {
    Big(msgType, 4) + Big(dataSize, 4)
  }

  function HeaderType(s: seq<byte>): (t: u32)
    requires |s| == HEADER_SIZE
  {
    FromBigBound(s[..4]);
    Pow256Values();
    FromBig(s[..4])
  }

  function HeaderDataSize(s: seq<byte>): (n: u32)
    requires |s| == HEADER_SIZE
  {
    FromBigBound(s[4..]);
    Pow256Values();
    FromBig(s[4..])
  }

  function EncodeEvt(e: EvtMsg): (s: seq<byte>)
    ensures |s| == EVT_SIZE
  {
    EncodeWords([e.seqId, e.tvSec, e.tvNsec, e.evtId, e.evtValue])
  }

  function DecodeEvt(s: seq<byte>): EvtMsg
    requires |s| == EVT_SIZE
  {
    var ws := DecodeWords(s, 5);
    EvtMsg(ws[0], ws[1], ws[2], ws[3], ws[4])
  }

  function EncodePayload(p: CmdPayload): (s: seq<byte>)
    ensures |s| == 96
  {
    EncodeWords([p.addr, p.ptrDataSize, p.ptrDataLen, p.emdDataSize]) + p.emdData
  }

  /** The address comes across; what it pointed at does not. */
  function DecodePayload(s: seq<byte>): CmdPayload
    requires |s| == 96
  {
    var ws := DecodeWords(s[..32], 4);
    CmdPayload(ws[0], [], ws[1], ws[2], ws[3], s[32..])
  }

  /** Two's complement. */
  function ResultBits(r: Code): u32 {
    if r < 0 then r + 0x1_0000_0000 else r
  }

  function ResultOfBits(w: u32): Code {
    if w >= 0x8000_0000 then w - 0x1_0000_0000 else w
  }

  /** The words a command descriptor starts with; status and result share the last. */
  function CmdWords(d: CmdDesc): seq<u64> {
    [d.seqId, d.tvSec, d.tvNsec, d.cmdId, d.status + 0x1_0000_0000 * ResultBits(d.result)]
  }

  function EncodeCmd(d: CmdDesc): (s: seq<byte>)
    ensures |s| == CMD_SIZE
  {
    EncodeWords(CmdWords(d)) + EncodePayload(d.inPayload) + EncodePayload(d.outPayload)
    + EncodeWords([d.timeoutMs, d.execContext])
  }

  function DecodeCmd(s: seq<byte>): CmdDesc
    requires |s| == CMD_SIZE
  {
    var ws := DecodeWords(s[..40], 5);
    var tail := DecodeWords(s[232..], 2);
    CmdDesc(ws[0], ws[1], ws[2], ws[3], ws[4] % 0x1_0000_0000, ResultOfBits(ws[4] / 0x1_0000_0000),
            DecodePayload(s[40..136]), DecodePayload(s[136..232]), tail[0], tail[1])
  }

  /** A descriptor as the other side sees it before any payload frame. */
  function Bare(d: CmdDesc): CmdDesc {
    d.(inPayload := d.inPayload.(mem := []), outPayload := d.outPayload.(mem := []))
  }

  lemma HeaderRoundTrip(msgType: u32, dataSize: nat)
    requires dataSize < 0x1_0000_0000
    ensures HeaderType(EncodeHeader(msgType, dataSize)) == msgType
    ensures HeaderDataSize(EncodeHeader(msgType, dataSize)) == dataSize
  {
    var s := EncodeHeader(msgType, dataSize);
    assert s[..4] == Big(msgType, 4) && s[4..] == Big(dataSize, 4);
    Pow256Values();
    BigRoundTrip(msgType, 4);
    BigRoundTrip(dataSize, 4);
  }

  /** htonl on a longer size: the same header as for the size modulo 2^32. */
  lemma HeaderTruncates(msgType: u32, dataSize: nat)
    ensures EncodeHeader(msgType, dataSize) == EncodeHeader(msgType, dataSize % 0x1_0000_0000)
  {
    Pow256Values();
    BigIgnoresHighPart(dataSize % 0x1_0000_0000, dataSize / 0x1_0000_0000, 4);
  }

  lemma EvtRoundTrip(e: EvtMsg)
    ensures DecodeEvt(EncodeEvt(e)) == e
  {
    WordsRoundTrip([e.seqId, e.tvSec, e.tvNsec, e.evtId, e.evtValue]);
  }

  lemma PayloadRoundTrip(p: CmdPayload)
    ensures DecodePayload(EncodePayload(p)) == p.(mem := [])
  {
    var ws := [p.addr, p.ptrDataSize, p.ptrDataLen, p.emdDataSize];
    WordsRoundTrip(ws);
    var s := EncodePayload(p);
    assert s[..32] == EncodeWords(ws) && s[32..] == p.emdData;
  }

  lemma FourParts(a: seq<byte>, b: seq<byte>, c: seq<byte>, d: seq<byte>)
    requires |a| == 40 && |b| == 96 && |c| == 96 && |d| == 16
    ensures var s := a + b + c + d; s[..40] == a && s[40..136] == b && s[136..232] == c && s[232..] == d
  {
  }

  lemma StatusWord(status: u32, result: Code)
    ensures var word := status + 0x1_0000_0000 * ResultBits(result);
            && 0 <= word < 0x1_0000_0000_0000_0000
            && word % 0x1_0000_0000 == status && ResultOfBits(word / 0x1_0000_0000) == result
  {
  }

  lemma CmdParts(d: CmdDesc)
    ensures var s := EncodeCmd(d);
            && s[..40] == EncodeWords(CmdWords(d)) && s[232..] == EncodeWords([d.timeoutMs, d.execContext])
            && s[40..136] == EncodePayload(d.inPayload) && s[136..232] == EncodePayload(d.outPayload)
  {
    FourParts(EncodeWords(CmdWords(d)), EncodePayload(d.inPayload), EncodePayload(d.outPayload),
              EncodeWords([d.timeoutMs, d.execContext]));
  }

  lemma CmdRoundTrip(d: CmdDesc)
    ensures DecodeCmd(EncodeCmd(d)) == Bare(d)
  {
    CmdParts(d);
    StatusWord(d.status, d.result);
    WordsRoundTrip(CmdWords(d));
    WordsRoundTrip([d.timeoutMs, d.execContext]);
    PayloadRoundTrip(d.inPayload);
    PayloadRoundTrip(d.outPayload);
  }

  lemma BigFour(x: nat)
    ensures Big(x, 4) == [x / 0x100 / 0x100 / 0x100 % 0x100, x / 0x100 / 0x100 % 0x100, x / 0x100 % 0x100, x % 0x100]
  {
    assert Big(x, 4) == Big(x / 0x100, 3) + [x % 0x100];
    assert Big(x / 0x100, 3) == Big(x / 0x100 / 0x100, 2) + [x / 0x100 % 0x100];
    assert Big(x / 0x100 / 0x100, 2) == Big(x / 0x100 / 0x100 / 0x100, 1) + [x / 0x100 / 0x100 % 0x100];
  }

  /** Network byte order. */
  lemma HeaderBytes(msgType: byte, n: nat)
    ensures EncodeHeader(msgType, n)
         == [0, 0, 0, msgType,
             n / 0x100 / 0x100 / 0x100 % 0x100, n / 0x100 / 0x100 % 0x100, n / 0x100 % 0x100, n % 0x100]
  {
    BigFour(msgType);
    BigFour(n);
  }

  /** The message types, on the frames that are nothing but a header and on the headers of fixed size. */
  lemma FrameBytes()
    ensures EncodeHeader(MSG_SUBSCRIBE, 0) == [0, 0, 0, 4, 0, 0, 0, 0]
    ensures EncodeHeader(MSG_UNSUBSCRIBE, 0) == [0, 0, 0, 5, 0, 0, 0, 0]
    ensures EncodeHeader(MSG_EVENT, EVT_SIZE) == [0, 0, 0, 1, 0, 0, 0, 40]
    ensures EncodeHeader(MSG_COMMAND, CMD_SIZE) == [0, 0, 0, 2, 0, 0, 0, 248]
  {
    HeaderBytes(MSG_SUBSCRIBE, 0);
    HeaderBytes(MSG_UNSUBSCRIBE, 0);
    HeaderBytes(MSG_EVENT, EVT_SIZE);
    HeaderBytes(MSG_COMMAND, CMD_SIZE);
  }

  /** Where each field of an event lies in its bytes. */
  lemma EvtLayout(e: EvtMsg)
    ensures var s := EncodeEvt(e);
            && s[0..8] == Little(e.seqId, 8) && s[8..16] == Little(e.tvSec, 8) && s[16..24] == Little(e.tvNsec, 8)
            && s[24..32] == Little(e.evtId, 8) && s[32..40] == Little(e.evtValue, 8)
  {
    var ws := [e.seqId, e.tvSec, e.tvNsec, e.evtId, e.evtValue];
    WordAt(ws, 0, 0);
    WordAt(ws, 1, 8);
    WordAt(ws, 2, 16);
    WordAt(ws, 3, 24);
    WordAt(ws, 4, 32);
  }

  /** Where each field of a command descriptor lies in its bytes. */
  lemma CmdLayout(d: CmdDesc)
    ensures var s := EncodeCmd(d);
            && s[0..8] == Little(d.seqId, 8) && s[8..16] == Little(d.tvSec, 8) && s[16..24] == Little(d.tvNsec, 8)
            && s[24..32] == Little(d.cmdId, 8) && s[32..36] == Little(d.status, 4) && s[36..40] == Little(ResultBits(d.result), 4)
            && s[40..136] == EncodePayload(d.inPayload) && s[136..232] == EncodePayload(d.outPayload)
            && s[232..240] == Little(d.timeoutMs, 8) && s[240..248] == Little(d.execContext, 8)
  {
    CmdParts(d);
    var s := EncodeCmd(d);
    WordAt(CmdWords(d), 0, 0);
    WordAt(CmdWords(d), 1, 8);
    WordAt(CmdWords(d), 2, 16);
    WordAt(CmdWords(d), 3, 24);
    WordAt(CmdWords(d), 4, 32);
    WordAt([d.timeoutMs, d.execContext], 0, 0);
    WordAt([d.timeoutMs, d.execContext], 1, 8);
    LittleSplits(d.status, ResultBits(d.result));
    var head, tail := s[..40], s[232..];
    assert s[0..8] == head[0..8] && s[8..16] == head[8..16] && s[16..24] == head[16..24] && s[24..32] == head[24..32];
    assert s[32..36] == head[32..40][..4] && s[36..40] == head[32..40][4..];
    assert s[232..240] == tail[0..8] && s[240..248] == tail[8..16];
  }

  lemma PayloadLayout(p: CmdPayload)
    ensures var s := EncodePayload(p);
            && s[0..8] == Little(p.addr, 8) && s[8..16] == Little(p.ptrDataSize, 8) && s[16..24] == Little(p.ptrDataLen, 8)
            && s[24..32] == Little(p.emdDataSize, 8) && s[32..96] == p.emdData
  {
    var ws := [p.addr, p.ptrDataSize, p.ptrDataLen, p.emdDataSize];
    var head := EncodeWords(ws);
    WordAt(ws, 0, 0);
    WordAt(ws, 1, 8);
    WordAt(ws, 2, 16);
    WordAt(ws, 3, 24);
    PrefixSlice(head, p.emdData, 0, 8);
    PrefixSlice(head, p.emdData, 8, 16);
    PrefixSlice(head, p.emdData, 16, 24);
    PrefixSlice(head, p.emdData, 24, 32);
  }

  lemma PrefixSlice(a: seq<byte>, b: seq<byte>, i: nat, j: nat)
    requires i <= j <= |a|
    ensures (a + b)[i..j] == a[i..j]
  {
  }

  // -------------------------------------------------------------------------------------------------------------
  // The writers

  /** A request goes out in two pieces, or four if a heap payload follows; `payload` is what lies at its pointer. */
  function RequestPieces(d: CmdDesc, payload: seq<byte>): seq<seq<byte>> {
    [EncodeHeader(MSG_COMMAND, CMD_SIZE), EncodeCmd(d)] +
    if d.inPayload.ptrDataLen > 0 && d.inPayload.addr != 0 then [EncodeHeader(MSG_DATA, d.inPayload.ptrDataLen), payload]
    else []
  }

  function ResponsePieces(d: CmdDesc, payload: seq<byte>): seq<seq<byte>> {
    [EncodeHeader(MSG_COMMAND, CMD_SIZE), EncodeCmd(d)] +
    if HasOutFrame(d) then [EncodeHeader(MSG_DATA, DataLen(d.outPayload)), payload] else []
  }

  predicate HasOutFrame(d: CmdDesc) {
    !DataPtrIsNull(d.outPayload) && DataLen(d.outPayload) > 0 && d.outPayload.ptrDataLen > 0
  }

  /** This process can read what a request's, or a response's, payload frame is to be made of. */
  predicate RequestBacked(d: CmdDesc) {
    d.inPayload.ptrDataLen <= |d.inPayload.mem|
  }

  predicate ResponseBacked(d: CmdDesc) {
    HasOutFrame(d) ==> DataLen(d.outPayload) <= |DataPtr(d.outPayload)|
  }

  function EncodeRequest(d: CmdDesc): seq<byte> {
    EncodeHeader(MSG_COMMAND, CMD_SIZE) + EncodeCmd(d) +
    if d.inPayload.ptrDataLen > 0 && d.inPayload.addr != 0 then
      EncodeHeader(MSG_DATA, d.inPayload.ptrDataLen) + DataAt(d.inPayload.mem, d.inPayload.ptrDataLen)
    else []
  }

  function EncodeResponse(d: CmdDesc): seq<byte> {
    EncodeHeader(MSG_COMMAND, CMD_SIZE) + EncodeCmd(d) +
    if HasOutFrame(d) then
      EncodeHeader(MSG_DATA, DataLen(d.outPayload)) + DataAt(DataPtr(d.outPayload), DataLen(d.outPayload))
    else []
  }

  /** The first `n` bytes at a pointer; only meant where that many are readable. */
  function DataAt(mem: seq<byte>, n: nat): seq<byte> {
    if n <= |mem| then mem[..n] else mem
  }

  function Encode(m: Msg): seq<byte> {
    match m
    case Event(e) => EncodeHeader(MSG_EVENT, EVT_SIZE) + EncodeEvt(e)
    case Subscribe => EncodeHeader(MSG_SUBSCRIBE, 0)
    case Unsubscribe => EncodeHeader(MSG_UNSUBSCRIBE, 0)
    case Data(bytes) => EncodeHeader(MSG_DATA, |bytes|) + bytes
    case Request(d) => EncodeRequest(d)
    case Response(d) => EncodeResponse(d)
  }

  lemma RequestPiecesJoined(d: CmdDesc)
    ensures Joined(RequestPieces(d, DataAt(d.inPayload.mem, d.inPayload.ptrDataLen))) == EncodeRequest(d)
  {
    JoinedPieces(EncodeHeader(MSG_COMMAND, CMD_SIZE), EncodeCmd(d), EncodeHeader(MSG_DATA, d.inPayload.ptrDataLen),
                 DataAt(d.inPayload.mem, d.inPayload.ptrDataLen));
  }

  lemma ResponsePiecesJoined(d: CmdDesc)
    ensures Joined(ResponsePieces(d, DataAt(DataPtr(d.outPayload), DataLen(d.outPayload)))) == EncodeResponse(d)
  {
    JoinedPieces(EncodeHeader(MSG_COMMAND, CMD_SIZE), EncodeCmd(d), EncodeHeader(MSG_DATA, DataLen(d.outPayload)),
                 DataAt(DataPtr(d.outPayload), DataLen(d.outPayload)));
  }

  function EncodeAll(ms: seq<Msg>): seq<byte> {
    if ms == [] then [] else Encode(ms[0]) + EncodeAll(ms[1..])
  }

  // -------------------------------------------------------------------------------------------------------------
  // The receiver

  /** One turn of the loop: a message, a header nobody answers to, or the point at which the stream gave out. */
  datatype Turn =
    | Got(msg: Msg, rest: seq<byte>)
    | Skipped(rest: seq<byte>)
    | BrokenAtHeader
    | BrokenInEvent
    | BrokenInData
    | BrokenInCommand

  function ReceiveRequest(d: CmdDesc, s: seq<byte>): (CmdDesc, seq<byte>) {
    if d.inPayload.ptrDataLen == 0 then (d, s)
    else if |s| < HEADER_SIZE then (d, [])
    else
      var size := HeaderDataSize(s[..HEADER_SIZE]);
      var s' := s[HEADER_SIZE..];
      if HeaderType(s[..HEADER_SIZE]) != MSG_DATA || size != d.inPayload.ptrDataLen then (d, s')
      else if |s'| < size then (d, [])
      else (d.(inPayload := d.inPayload.(mem := s'[..size])), s'[size..])
  }

  function ReceiveResponse(d: CmdDesc, s: seq<byte>): (CmdDesc, seq<byte>) {
    if d.outPayload.ptrDataLen == 0 then (d, s)
    else if |s| < HEADER_SIZE then (d, [])
    else
      var size := HeaderDataSize(s[..HEADER_SIZE]);
      var s' := s[HEADER_SIZE..];
      if HeaderType(s[..HEADER_SIZE]) != MSG_DATA || size == 0 then (d, s')
      else if |s'| < size then (d, [])
      else (d.(outPayload := Stored(d.outPayload, s'[..size], d.outPayload.addr)), s'[size..])
  }

  function ReceiveCommand(s: seq<byte>): (t: Turn)
    ensures t.Got? ==> |t.rest| <= |s|
  {
    if |s| < CMD_SIZE then BrokenInCommand
    else
      var d := DecodeCmd(s[..CMD_SIZE]);
      if d.status <= STATUS_PROCESSING then
        var (d', rest) := ReceiveRequest(d, s[CMD_SIZE..]);
        Got(Request(d'), rest)
      else
        var (d', rest) := ReceiveResponse(d, s[CMD_SIZE..]);
        Got(Response(d'), rest)
  }

  /** What follows a header. */
  function ReceiveBody(msgType: u32, size: u32, s: seq<byte>): (t: Turn)
    ensures t.Got? || t.Skipped? ==> |t.rest| <= |s|
  {
    if msgType == MSG_EVENT && size == EVT_SIZE then
      if |s| < EVT_SIZE then BrokenInEvent else Got(Event(DecodeEvt(s[..EVT_SIZE])), s[EVT_SIZE..])
    else if msgType == MSG_SUBSCRIBE then Got(Subscribe, s)
    else if msgType == MSG_UNSUBSCRIBE then Got(Unsubscribe, s)
    else if msgType == MSG_DATA && size > 0 then
      if |s| < size then BrokenInData else Got(Data(s[..size]), s[size..])
    else if msgType == MSG_COMMAND && size == CMD_SIZE then ReceiveCommand(s)
    else Skipped(s)
  }

  function ReceiveTurn(s: seq<byte>): (t: Turn)
    ensures t.Got? || t.Skipped? ==> |t.rest| < |s|
  {
    if |s| < HEADER_SIZE then BrokenAtHeader
    else ReceiveBody(HeaderType(s[..HEADER_SIZE]), HeaderDataSize(s[..HEADER_SIZE]), s[HEADER_SIZE..])
  }

  /** All messages the loop takes off a stream before the stream gives out. */
  function ReceiveAll(s: seq<byte>): seq<Msg>
    decreases |s|
  {
    match ReceiveTurn(s)
    case Got(m, rest) => [m] + ReceiveAll(rest)
    case Skipped(rest) => ReceiveAll(rest)
    case _ => []
  }

  // -------------------------------------------------------------------------------------------------------------
  // Receiver undoes writer

  /** A length that survives htonl. */
  predicate Fits(n: nat) {
    n < 0x1_0000_0000
  }

  /**
   * What the writers' callers give them: data is never empty, commands carry payloads made by the setters, requests have
   * a request status and responses a response status.
   */
  predicate Writable(m: Msg) {
    match m
    case Data(bytes) => 0 < |bytes|
    case Request(d) => d.status <= STATUS_PROCESSING && WellFormed(d.inPayload)
    case Response(d) => d.status > STATUS_PROCESSING && WellFormed(d.outPayload)
    case _ => true
  }

  /** Every payload frame's length fits its 32-bit field; the writers do not check it. */
  predicate FramesFit(m: Msg) {
    match m
    case Data(bytes) => Fits(|bytes|)
    case Request(d) => Fits(d.inPayload.ptrDataLen)
    case Response(d) => Fits(d.outPayload.ptrDataLen)
    case _ => true
  }

  predicate Sendable(m: Msg) {
    Writable(m) && FramesFit(m)
  }

  /**
   * A message as received: the same message, except that of a command's heap payloads only the one with its own frame
   * (IN of a request, OUT of a response) has contents on the other side.
   */
  function Seen(m: Msg): Msg {
    match m
    case Request(d) => Request(d.(outPayload := d.outPayload.(mem := [])))
    case Response(d) => Response(d.(inPayload := d.inPayload.(mem := [])))
    case _ => m
  }

  function SeenAll(ms: seq<Msg>): (r: seq<Msg>)
    ensures |r| == |ms|
  {
    if ms == [] then [] else [Seen(ms[0])] + SeenAll(ms[1..])
  }

  lemma TurnOnFrame(msgType: u32, size: nat, body: seq<byte>)
    requires Fits(size)
    ensures var s := EncodeHeader(msgType, size) + body;
            && |s| >= HEADER_SIZE && s[HEADER_SIZE..] == body
            && HeaderType(s[..HEADER_SIZE]) == msgType && HeaderDataSize(s[..HEADER_SIZE]) == size
  {
    HeaderRoundTrip(msgType, size);
    var s := EncodeHeader(msgType, size) + body;
    assert s[..HEADER_SIZE] == EncodeHeader(msgType, size);
  }

  lemma RequestPayloadReceived(d: CmdDesc, tail: seq<byte>)
    requires Sendable(Request(d)) && d.inPayload.ptrDataLen > 0
    ensures ReceiveRequest(Bare(d), EncodeHeader(MSG_DATA, d.inPayload.ptrDataLen) + d.inPayload.mem + tail)
         == (Seen(Request(d)).cmd, tail)
  {
    TurnOnFrame(MSG_DATA, d.inPayload.ptrDataLen, d.inPayload.mem + tail);
    assert EncodeHeader(MSG_DATA, d.inPayload.ptrDataLen) + d.inPayload.mem + tail
        == EncodeHeader(MSG_DATA, d.inPayload.ptrDataLen) + (d.inPayload.mem + tail);
  }

  lemma ResponsePayloadReceived(d: CmdDesc, tail: seq<byte>)
    requires Sendable(Response(d)) && d.outPayload.ptrDataLen > 0
    ensures ReceiveResponse(Bare(d), EncodeHeader(MSG_DATA, d.outPayload.ptrDataLen) + d.outPayload.mem + tail)
         == (Seen(Response(d)).cmd, tail)
  {
    TurnOnFrame(MSG_DATA, d.outPayload.ptrDataLen, d.outPayload.mem + tail);
    assert EncodeHeader(MSG_DATA, d.outPayload.ptrDataLen) + d.outPayload.mem + tail
        == EncodeHeader(MSG_DATA, d.outPayload.ptrDataLen) + (d.outPayload.mem + tail);
    assert Stored(Bare(d).outPayload, d.outPayload.mem, d.outPayload.addr) == d.outPayload;
  }

  /** The part requests and responses share: the descriptor comes back bare, with the payload frame still to come. */
  lemma CommandTurn(d: CmdDesc, frame: seq<byte>, tail: seq<byte>)
    ensures var s := EncodeHeader(MSG_COMMAND, CMD_SIZE) + EncodeCmd(d) + frame + tail;
            && ReceiveTurn(s) == ReceiveCommand(EncodeCmd(d) + (frame + tail))
            && (EncodeCmd(d) + (frame + tail))[..CMD_SIZE] == EncodeCmd(d)
            && (EncodeCmd(d) + (frame + tail))[CMD_SIZE..] == frame + tail
            && DecodeCmd(EncodeCmd(d)) == Bare(d)
  {
    var body := EncodeCmd(d) + (frame + tail);
    assert EncodeHeader(MSG_COMMAND, CMD_SIZE) + EncodeCmd(d) + frame + tail == EncodeHeader(MSG_COMMAND, CMD_SIZE) + body;
    TurnOnFrame(MSG_COMMAND, CMD_SIZE, body);
    CmdRoundTrip(d);
  }

  lemma FittingRequestReceived(d: CmdDesc, tail: seq<byte>)
    requires Sendable(Request(d))
    ensures ReceiveTurn(EncodeRequest(d) + tail) == Got(Seen(Request(d)), tail)
  {
    var p := d.inPayload;
    if p.ptrDataLen == 0 {
      CommandTurn(d, [], tail);
      assert [] + tail == tail;
    } else {
      assert p.mem[..p.ptrDataLen] == p.mem;
      CommandTurn(d, EncodeHeader(MSG_DATA, p.ptrDataLen) + p.mem, tail);
      RequestPayloadReceived(d, tail);
    }
  }

  lemma FittingResponseReceived(d: CmdDesc, tail: seq<byte>)
    requires Sendable(Response(d))
    ensures ReceiveTurn(EncodeResponse(d) + tail) == Got(Seen(Response(d)), tail)
  {
    var p := d.outPayload;
    if p.ptrDataLen == 0 {
      CommandTurn(d, [], tail);
      assert [] + tail == tail;
    } else {
      assert p.mem[..p.ptrDataLen] == p.mem;
      CommandTurn(d, EncodeHeader(MSG_DATA, p.ptrDataLen) + p.mem, tail);
      ResponsePayloadReceived(d, tail);
    }
  }

  lemma EventReceived(e: EvtMsg, tail: seq<byte>)
    ensures ReceiveTurn(EncodeHeader(MSG_EVENT, EVT_SIZE) + EncodeEvt(e) + tail) == Got(Event(e), tail)
  {
    var body := EncodeEvt(e) + tail;
    assert EncodeHeader(MSG_EVENT, EVT_SIZE) + EncodeEvt(e) + tail == EncodeHeader(MSG_EVENT, EVT_SIZE) + body;
    TurnOnFrame(MSG_EVENT, EVT_SIZE, body);
    assert body[..EVT_SIZE] == EncodeEvt(e) && body[EVT_SIZE..] == tail;
    EvtRoundTrip(e);
  }

  lemma DataReceived(bytes: seq<byte>, tail: seq<byte>)
    requires 0 < |bytes| && Fits(|bytes|)
    ensures ReceiveTurn(EncodeHeader(MSG_DATA, |bytes|) + bytes + tail) == Got(Data(bytes), tail)
  {
    var body := bytes + tail;
    assert EncodeHeader(MSG_DATA, |bytes|) + bytes + tail == EncodeHeader(MSG_DATA, |bytes|) + body;
    TurnOnFrame(MSG_DATA, |bytes|, body);
    assert body[..|bytes|] == bytes && body[|bytes|..] == tail;
  }

  /** What one turn can bring in is bounded by the 32-bit size field. */
  predicate PayloadFits(m: Msg) {
    match m
    case Data(bytes) => 0 < |bytes| && Fits(|bytes|)
    case Request(d) => Fits(|d.inPayload.mem|)
    case Response(d) => Fits(|d.outPayload.mem|)
    case _ => true
  }

  lemma ReceivedCommandFits(s: seq<byte>)
    ensures ReceiveCommand(s).Got? ==> PayloadFits(ReceiveCommand(s).msg)
  {
  }

  lemma ReceivedTurnFits(s: seq<byte>)
    ensures ReceiveTurn(s).Got? ==> PayloadFits(ReceiveTurn(s).msg)
  {
    if |s| >= HEADER_SIZE {
      ReceivedCommandFits(s[HEADER_SIZE..]);
    }
  }

  lemma {:induction false} ReceivedFits(s: seq<byte>, m: Msg)
    requires m in ReceiveAll(s)
    ensures PayloadFits(m)
    decreases |s|
  {
    match ReceiveTurn(s) {
      case Got(first, rest) => if m == first { ReceivedTurnFits(s); } else { ReceivedFits(rest, m); }
      case Skipped(rest) => ReceivedFits(rest, m);
      case _ =>
    }
  }

  /** A message with a frame too long for its size field would be told from anything received by its length alone. */
  lemma TooLongUnlikeReceived(m: Msg)
    requires Writable(m) && !FramesFit(m)
    ensures !PayloadFits(Seen(m))
  {
  }

  lemma SendableReceived(m: Msg, tail: seq<byte>)
    requires Sendable(m)
    ensures ReceiveTurn(Encode(m) + tail) == Got(Seen(m), tail)
  {
    match m {
      case Event(e) => EventReceived(e, tail);
      case Subscribe => TurnOnFrame(MSG_SUBSCRIBE, 0, tail);
      case Unsubscribe => TurnOnFrame(MSG_UNSUBSCRIBE, 0, tail);
      case Data(bytes) => DataReceived(bytes, tail);
      case Request(d) => FittingRequestReceived(d, tail);
      case Response(d) => FittingResponseReceived(d, tail);
    }
  }

  /**
   * Whatever follows it on the stream, a message written whole is received whole, with the stream frame-aligned behind
   * it, if and only if its payload frame's length fits the 32-bit size field.
   */
  lemma FrameReceived(m: Msg, tail: seq<byte>)
    requires Writable(m)
    ensures ReceiveTurn(Encode(m) + tail) == Got(Seen(m), tail) <==> FramesFit(m)
  {
    if FramesFit(m) {
      SendableReceived(m, tail);
    } else {
      TooLongUnlikeReceived(m);
      ReceivedTurnFits(Encode(m) + tail);
    }
  }

  /** A request and its IN payload, any length: received whole if and only if the payload frame's length fits. */
  lemma RequestReceived(d: CmdDesc, tail: seq<byte>)
    requires d.status <= STATUS_PROCESSING && WellFormed(d.inPayload)
    ensures ReceiveTurn(EncodeRequest(d) + tail) == Got(Seen(Request(d)), tail) <==> Fits(d.inPayload.ptrDataLen)
  {
    FrameReceived(Request(d), tail);
  }

  /** The same for a response and its OUT payload. */
  lemma ResponseReceived(d: CmdDesc, tail: seq<byte>)
    requires d.status > STATUS_PROCESSING && WellFormed(d.outPayload)
    ensures ReceiveTurn(EncodeResponse(d) + tail) == Got(Seen(Response(d)), tail) <==> Fits(d.outPayload.ptrDataLen)
  {
    FrameReceived(Response(d), tail);
  }

  lemma {:induction false} SendablesReceived(ms: seq<Msg>, tail: seq<byte>)
    requires forall m :: m in ms ==> Sendable(m)
    ensures ReceiveAll(EncodeAll(ms) + tail) == SeenAll(ms) + ReceiveAll(tail)
  {
    if ms == [] {
      assert EncodeAll(ms) + tail == tail;
    } else {
      var rest := EncodeAll(ms[1..]) + tail;
      assert EncodeAll(ms) + tail == Encode(ms[0]) + rest;
      SendableReceived(ms[0], rest);
      SendablesReceived(ms[1..], tail);
      assert [Seen(ms[0])] + (SeenAll(ms[1..]) + ReceiveAll(tail)) == SeenAll(ms) + ReceiveAll(tail);
    }
  }

  lemma {:induction false} SeenInSeenAll(ms: seq<Msg>, m: Msg)
    requires m in ms
    ensures Seen(m) in SeenAll(ms)
  {
    if m != ms[0] {
      SeenInSeenAll(ms[1..], m);
    }
  }

  /** Any sequence of messages comes off the stream exactly as it was put on if and only if every frame's length fits. */
  lemma MessagesReceived(ms: seq<Msg>, tail: seq<byte>)
    requires forall m :: m in ms ==> Writable(m)
    ensures ReceiveAll(EncodeAll(ms) + tail) == SeenAll(ms) + ReceiveAll(tail) <==> forall m :: m in ms ==> FramesFit(m)
  {
    if m :| m in ms && !FramesFit(m) {
      SeenInSeenAll(ms, m);
      TooLongUnlikeReceived(m);
      if ReceiveAll(EncodeAll(ms) + tail) == SeenAll(ms) + ReceiveAll(tail) {
        ReceivedFits(EncodeAll(ms) + tail, Seen(m));
      }
    } else {
      SendablesReceived(ms, tail);
    }
  }

  lemma LongPayloadRefused(d: CmdDesc, tail: seq<byte>)
    requires !Fits(d.inPayload.ptrDataLen)
    ensures ReceiveRequest(Bare(d), EncodeHeader(MSG_DATA, d.inPayload.ptrDataLen) + d.inPayload.mem + tail)
         == (Bare(d), d.inPayload.mem + tail)
  {
    HeaderTruncates(MSG_DATA, d.inPayload.ptrDataLen);
    TurnOnFrame(MSG_DATA, d.inPayload.ptrDataLen % 0x1_0000_0000, d.inPayload.mem + tail);
    assert EncodeHeader(MSG_DATA, d.inPayload.ptrDataLen) + d.inPayload.mem + tail
        == EncodeHeader(MSG_DATA, d.inPayload.ptrDataLen) + (d.inPayload.mem + tail);
  }

  /** What becomes of a request whose IN payload is too long: it arrives without it, and the payload is parsed as frames. */
  lemma LongRequestArrivesBare(d: CmdDesc, tail: seq<byte>)
    requires Writable(Request(d)) && !Fits(d.inPayload.ptrDataLen)
    ensures ReceiveTurn(EncodeRequest(d) + tail) == Got(Request(Bare(d)), d.inPayload.mem + tail)
  {
    var p := d.inPayload;
    assert p.mem[..p.ptrDataLen] == p.mem;
    CommandTurn(d, EncodeHeader(MSG_DATA, p.ptrDataLen) + p.mem, tail);
    LongPayloadRefused(d, tail);
  }

  /** What is kept of an OUT payload too long for its frame. */
  function CutResponse(d: CmdDesc): CmdDesc
    requires WellFormed(d.outPayload)
  {
    var p := d.outPayload;
    var size := p.ptrDataLen % 0x1_0000_0000;
    if size == 0 then Bare(d) else Bare(d).(outPayload := Stored(Bare(d).outPayload, p.mem[..size], p.addr))
  }

  lemma LongPayloadCut(d: CmdDesc, tail: seq<byte>)
    requires WellFormed(d.outPayload) && !Fits(d.outPayload.ptrDataLen)
    ensures ReceiveResponse(Bare(d), EncodeHeader(MSG_DATA, d.outPayload.ptrDataLen) + d.outPayload.mem + tail)
         == (CutResponse(d), d.outPayload.mem[d.outPayload.ptrDataLen % 0x1_0000_0000..] + tail)
  {
    var p := d.outPayload;
    var size := p.ptrDataLen % 0x1_0000_0000;
    HeaderTruncates(MSG_DATA, p.ptrDataLen);
    var body := p.mem + tail;
    TurnOnFrame(MSG_DATA, size, body);
    assert EncodeHeader(MSG_DATA, p.ptrDataLen) + p.mem + tail == EncodeHeader(MSG_DATA, p.ptrDataLen) + body;
    assert body[..size] == p.mem[..size] && body[size..] == p.mem[size..] + tail;
  }

  /** What becomes of a response whose OUT payload is too long: its length modulo 2^32 is kept, the rest parsed as frames. */
  lemma LongResponseCut(d: CmdDesc, tail: seq<byte>)
    requires Writable(Response(d)) && !Fits(d.outPayload.ptrDataLen)
    ensures ReceiveTurn(EncodeResponse(d) + tail)
         == Got(Response(CutResponse(d)), d.outPayload.mem[d.outPayload.ptrDataLen % 0x1_0000_0000..] + tail)
  {
    var p := d.outPayload;
    assert p.mem[..p.ptrDataLen] == p.mem;
    CommandTurn(d, EncodeHeader(MSG_DATA, p.ptrDataLen) + p.mem, tail);
    LongPayloadCut(d, tail);
  }

  /** The only limit on a data chunk: it arrives as sent if and only if its length is between 1 and 2^32 - 1. */
  lemma DataReceivedIffFits(bytes: seq<byte>)
    ensures ReceiveAll(Encode(Data(bytes))) == [Data(bytes)] <==> 0 < |bytes| && Fits(|bytes|)
  {
    var m := Data(bytes);
    if 0 < |bytes| && Fits(|bytes|) {
      SendablesReceived([m], []);
      assert EncodeAll([m]) + [] == Encode(m);
    } else if ReceiveAll(Encode(m)) == [m] {
      assert m in ReceiveAll(Encode(m));
      ReceivedFits(Encode(m), m);
    }
  }

  /** A chunk of 2^32 bytes, or a multiple: its header announces none and is skipped, and the chunk is parsed as frames. */
  lemma DataOfTwoToThe32Skipped(bytes: seq<byte>)
    requires |bytes| % 0x1_0000_0000 == 0
    ensures ReceiveTurn(Encode(Data(bytes))) == Skipped(bytes)
  {
    HeaderTruncates(MSG_DATA, |bytes|);
    TurnOnFrame(MSG_DATA, 0, bytes);
  }

  /** One more message written behind some others. */
  lemma {:induction false} EncodeAllAppend(ms: seq<Msg>, m: Msg)
    ensures EncodeAll(ms + [m]) == EncodeAll(ms) + Encode(m)
  {
    if ms == [] {
      assert [m][1..] == [];
    } else {
      assert (ms + [m])[1..] == ms[1..] + [m];
      EncodeAllAppend(ms[1..], m);
      assert Encode(ms[0]) + (EncodeAll(ms[1..]) + Encode(m)) == Encode(ms[0]) + EncodeAll(ms[1..]) + Encode(m);
    }
  }
}
