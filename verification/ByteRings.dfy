/**
 * The two circular byte buffers behind polling reads: the FIFO protocol's, which copies in at most two pieces, and the
 * TCP protocol's, which copies chunk by chunk in a loop. Both are proved against one value-level ring, so they leave the
 * same bytes at the same positions for every start position, amount and size; the ring is proved a bounded byte queue.
 */
module ByteRings {
  import opened Results
  import opened Bytes

  /** The value of a circular buffer. */
  datatype Ring = Ring(buf: seq<byte>, start: nat, end: nat, available: nat)

  /** `x` modulo `n`, for `x` below `2 * n`. */
  function Wrap(x: nat, n: nat): nat
    requires x < 2 * n
  {
    if x < n then x else x - n
  }

  lemma WrapIsMod(x: nat, n: nat)
    requires x < 2 * n
    ensures x % n == Wrap(x, n)
  {
    if x >= n {
      assert x == n * 1 + (x - n);
      assert x / n == 1;
    } else {
      assert x / n == 0;
    }
  }

  /** What every operation keeps: the three positions describe one stretch of the buffer. */
  predicate RingOk(r: Ring) {
    && r.start < |r.buf| && r.end < |r.buf| && r.available <= |r.buf|
    && r.end == (r.start + r.available) % |r.buf|
  }

  /** The buffered bytes, oldest first. */
  function Buffered(r: Ring): (s: seq<byte>)
    requires r.start < |r.buf| && r.available <= |r.buf|
    ensures |s| == r.available
  {
    Taken(r.buf, r.start, r.available)
  }

  /** `n` bytes of `buf` from `pos` on, going round. */
  function Taken(buf: seq<byte>, pos: nat, n: nat): (s: seq<byte>)
    requires pos < |buf| && n <= |buf|
    ensures |s| == n
  {
    seq(n, i requires 0 <= i < n => buf[Wrap(pos + i, |buf|)])
  }

  /** `buf` with `data` laid over it from `pos` on, going round. */
  function Laid(buf: seq<byte>, pos: nat, data: seq<byte>): (s: seq<byte>)
    requires pos < |buf| && |data| <= |buf|
    ensures |s| == |buf|
  {
    seq(|buf|, j requires 0 <= j < |buf| =>
      var i := if j >= pos then j - pos else j + |buf| - pos;
      if i < |data| then data[i] else buf[j])
  }

  function StoreResult(r: Ring, data: seq<byte>): Code
    requires RingOk(r)
  {
    if data == [] then INVALID_PARAM
    else if |data| > |r.buf| - r.available then BUFFER_FULL
    else SUCCESS
  }

  function Stored(r: Ring, data: seq<byte>): Ring
    requires RingOk(r)
  {
    if StoreResult(r, data) != SUCCESS then r
    else Ring(Laid(r.buf, r.end, data), r.start, (r.end + |data|) % |r.buf|, r.available + |data|)
  }

  function ReadCount(r: Ring, room: nat): nat {
    if r.available < room then r.available else room
  }

  function AfterRead(r: Ring, room: nat): Ring
    requires RingOk(r)
  {
    var n := ReadCount(r, room);
    r.(start := (r.start + n) % |r.buf|, available := r.available - n)
  }

  /** A byte of the ring after data has been laid behind what it held. */
  lemma StoredByte(r: Ring, data: seq<byte>, i: nat)
    requires RingOk(r) && r.available + |data| <= |r.buf| && i < r.available + |data|
    ensures Laid(r.buf, r.end, data)[Wrap(r.start + i, |r.buf|)]
         == if i < r.available then r.buf[Wrap(r.start + i, |r.buf|)] else data[i - r.available]
  {
    var n := |r.buf|;
    WrapIsMod(r.start + r.available, n);
    var j := Wrap(r.start + i, n);
    assert (if j >= r.end then j - r.end else j + n - r.end)
        == if i < r.available then i + n - r.available else i - r.available;
  }

  /** What a store reports: nothing given, no room for all of it, or success. */
  lemma StoreAnswers(r: Ring, data: seq<byte>)
    requires RingOk(r)
    ensures StoreResult(r, data) == INVALID_PARAM <==> data == []
    ensures StoreResult(r, data) == BUFFER_FULL <==> data != [] && |Buffered(r)| + |data| > |r.buf|
    ensures StoreResult(r, data) == SUCCESS <==> data != [] && |Buffered(r)| + |data| <= |r.buf|
  {
  }

  /** A store either appends all of its bytes to the queue or, for want of room or of bytes, changes nothing at all. */
  lemma StoreAppends(r: Ring, data: seq<byte>)
    requires RingOk(r)
    ensures RingOk(Stored(r, data)) && |Stored(r, data).buf| == |r.buf|
    ensures StoreResult(r, data) == SUCCESS <==> 0 < |data| && |Buffered(r)| + |data| <= |r.buf|
    ensures Buffered(Stored(r, data)) == Buffered(r) + if StoreResult(r, data) == SUCCESS then data else []
  {
    if StoreResult(r, data) == SUCCESS {
      var n := |r.buf|;
      var r' := Stored(r, data);
      WrapIsMod(r.start + r.available, n);
      WrapIsMod(r.end + |data|, n);
      WrapIsMod(r.start + r'.available, n);
      forall i | 0 <= i < r'.available ensures Buffered(r')[i] == (Buffered(r) + data)[i] {
        StoredByte(r, data, i);
      }
    }
  }

  /** As many bytes as there are and as there is room for, and no fewer. */
  lemma ReadTakesMost(r: Ring, room: nat)
    requires RingOk(r)
    ensures ReadCount(r, room) <= |Buffered(r)| && ReadCount(r, room) <= room
    ensures ReadCount(r, room) == |Buffered(r)| || ReadCount(r, room) == room
  {
  }

  /** A read takes bytes off the front of the queue and leaves the rest. */
  lemma ReadTakesFront(r: Ring, room: nat)
    requires RingOk(r)
    ensures RingOk(AfterRead(r, room)) && |AfterRead(r, room).buf| == |r.buf|
    ensures Buffered(r) == Taken(r.buf, r.start, ReadCount(r, room)) + Buffered(AfterRead(r, room))
  {
    var n := |r.buf|;
    var c := ReadCount(r, room);
    WrapIsMod(r.start + c, n);
    WrapIsMod(r.start + r.available, n);
    WrapIsMod(Wrap(r.start + c, n) + (r.available - c), n);
    TakenInPieces(r.buf, r.start, c, r.available - c);
  }

  /** Laying `data` over `buf` in two pieces, the second from where the first ended. */
  lemma LaidInPieces(buf: seq<byte>, pos: nat, first: seq<byte>, second: seq<byte>)
    requires pos < |buf| && |first| + |second| <= |buf|
    ensures Laid(Laid(buf, pos, first), Wrap(pos + |first|, |buf|), second) == Laid(buf, pos, first + second)
  {
    var n := |buf|;
    var p := Wrap(pos + |first|, n);
    var l := Laid(Laid(buf, pos, first), p, second);
    var r := Laid(buf, pos, first + second);
    forall j | 0 <= j < n ensures l[j] == r[j] {
      var i := if j >= pos then j - pos else j + n - pos;
      var k := if j >= p then j - p else j + n - p;
      assert k == if i >= |first| then i - |first| else i + n - |first|;
    }
  }

  lemma TakenFlat(buf: seq<byte>, pos: nat, n: nat)
    requires pos < |buf| && pos + n <= |buf|
    ensures Taken(buf, pos, n) == buf[pos..pos + n]
  {
    forall i | 0 <= i < n ensures Taken(buf, pos, n)[i] == buf[pos..pos + n][i] {
      assert Wrap(pos + i, |buf|) == pos + i;
    }
  }

  lemma TakenInPieces(buf: seq<byte>, pos: nat, a: nat, b: nat)
    requires pos < |buf| && a + b <= |buf|
    ensures Taken(buf, pos, a) + Taken(buf, Wrap(pos + a, |buf|), b) == Taken(buf, pos, a + b)
  {
    var p := Wrap(pos + a, |buf|);
    forall i | 0 <= i < b ensures Taken(buf, p, b)[i] == Taken(buf, pos, a + b)[a + i] {
      assert Wrap(p + i, |buf|) == Wrap(pos + a + i, |buf|);
    }
  }

  /** `buf` with `piece` written over it at offset `at`. */
  function Over(buf: seq<byte>, at: nat, piece: seq<byte>): (s: seq<byte>)
    requires at + |piece| <= |buf|
    ensures |s| == |buf|
  {
    seq(|buf|, i requires 0 <= i < |buf| => if at <= i < at + |piece| then piece[i - at] else buf[i])
  }

  lemma OverNothing(buf: seq<byte>, at: nat)
    requires at <= |buf|
    ensures Over(buf, at, []) == buf
  {
  }

  /** Two pieces, the second behind the first, are one. */
  lemma OverTwice(buf: seq<byte>, at: nat, first: seq<byte>, second: seq<byte>)
    requires at + |first| + |second| <= |buf|
    ensures Over(Over(buf, at, first), at + |first|, second) == Over(buf, at, first + second)
  {
  }

  /** Copying one more stretch of a ring behind what a buffer has got so far. */
  lemma OneChunkMore(buffer: seq<byte>, ring: seq<byte>, pos: nat, done: nat, chunk: nat)
    requires pos < |ring| && done + chunk <= |ring| && done + chunk <= |buffer|
    ensures Over(Over(buffer, 0, Taken(ring, pos, done)), done, Taken(ring, Wrap(pos + done, |ring|), chunk))
         == Over(buffer, 0, Taken(ring, pos, done + chunk))
    ensures (Wrap(pos + done, |ring|) + chunk) % |ring| == Wrap(pos + done + chunk, |ring|)
  {
    WrapIsMod(Wrap(pos + done, |ring|) + chunk, |ring|);
    OverTwice(buffer, 0, Taken(ring, pos, done), Taken(ring, Wrap(pos + done, |ring|), chunk));
    TakenInPieces(ring, pos, done, chunk);
  }

  /** Laying the next `chunk` bytes of `data` behind those already laid. */
  lemma OneChunkMoreLaid(buf: seq<byte>, pos: nat, data: seq<byte>, done: nat, chunk: nat)
    requires pos < |buf| && done + chunk <= |data| <= |buf|
    ensures Laid(Laid(buf, pos, data[..done]), Wrap(pos + done, |buf|), data[done..done + chunk])
         == Laid(buf, pos, data[..done + chunk])
    ensures (Wrap(pos + done, |buf|) + chunk) % |buf| == Wrap(pos + done + chunk, |buf|)
  {
    LaidInPieces(buf, pos, data[..done], data[done..done + chunk]);
    assert data[..done] + data[done..done + chunk] == data[..done + chunk];
    WrapIsMod(Wrap(pos + done, |buf|) + chunk, |buf|);
  }

  /** memcpy into a ring at `pos`, not going round. */
  method CopyIn(ring: array<byte>, pos: nat, src: seq<byte>)
    requires pos < ring.Length && pos + |src| <= ring.Length
    modifies ring
    ensures ring[..] == Laid(old(ring[..]), pos, src)
  {
    forall i | 0 <= i < |src| {
      ring[pos + i] := src[i];
    }
  }

  /** memcpy out of a ring at `pos`, not going round, to offset `at` of a caller's buffer. */
  method CopyOut(buffer: array<byte>, at: nat, ring: array<byte>, pos: nat, n: nat)
    requires buffer != ring && pos < ring.Length && pos + n <= ring.Length && at + n <= buffer.Length
    modifies buffer
    ensures buffer[..] == Over(old(buffer[..]), at, Taken(ring[..], pos, n))
  {
    forall i | 0 <= i < n {
      buffer[at + i] := ring[pos + i];
    }
    TakenFlat(ring[..], pos, n);
  }

  /** The FIFO protocol's store: one copy, or two when the data goes round. Returns the new end position. */
  method CopyInTwoPieces(ring: array<byte>, pos: nat, data: seq<byte>) returns (newPos: nat)
    requires pos < ring.Length && |data| <= ring.Length
    modifies ring
    ensures ring[..] == Laid(old(ring[..]), pos, data)
    ensures newPos == (pos + |data|) % ring.Length
  {
    WrapIsMod(pos + |data|, ring.Length);
    var bytesToEnd := ring.Length - pos;
    if |data| <= bytesToEnd {
      CopyIn(ring, pos, data);
      newPos := (pos + |data|) % ring.Length;
    } else {
      CopyIn(ring, pos, data[..bytesToEnd]);
      CopyIn(ring, 0, data[bytesToEnd..]);
      newPos := |data| - bytesToEnd;
      LaidInPieces(old(ring[..]), pos, data[..bytesToEnd], data[bytesToEnd..]);
      assert data[..bytesToEnd] + data[bytesToEnd..] == data;
    }
  }

  /** The TCP protocol's store: chunk after chunk, each up to the end of the buffer. */
  method CopyInChunks(ring: array<byte>, pos: nat, data: seq<byte>) returns (newPos: nat)
    requires pos < ring.Length && |data| <= ring.Length
    modifies ring
    ensures ring[..] == Laid(old(ring[..]), pos, data)
    ensures newPos == (pos + |data|) % ring.Length
  {
    ghost var before := ring[..];
    var src: nat := 0;
    var bytesToWrite: nat := |data|;
    var writePos := pos;
    while bytesToWrite > 0
      invariant src + bytesToWrite == |data|
      invariant writePos == Wrap(pos + src, ring.Length)
      invariant ring[..] == Laid(before, pos, data[..src])
    {
      var chunkSize := bytesToWrite;
      if writePos + chunkSize > ring.Length {
        chunkSize := ring.Length - writePos;
      }
      CopyIn(ring, writePos, data[src..src + chunkSize]);
      OneChunkMoreLaid(before, pos, data, src, chunkSize);
      src := src + chunkSize;
      bytesToWrite := bytesToWrite - chunkSize;
      writePos := (writePos + chunkSize) % ring.Length;
    }
    WrapIsMod(pos + |data|, ring.Length);
    assert data[..|data|] == data;
    newPos := writePos;
  }

  /** The FIFO protocol's read of `n` bytes to the front of a caller's buffer. */
  method CopyOutTwoPieces(buffer: array<byte>, ring: array<byte>, pos: nat, n: nat) returns (newPos: nat)
    requires buffer != ring && pos < ring.Length && n <= ring.Length && n <= buffer.Length
    modifies buffer
    ensures buffer[..] == Over(old(buffer[..]), 0, Taken(ring[..], pos, n))
    ensures newPos == (pos + n) % ring.Length
  {
    WrapIsMod(pos + n, ring.Length);
    ghost var before := buffer[..];
    var bytesToEnd := ring.Length - pos;
    if n <= bytesToEnd {
      CopyOut(buffer, 0, ring, pos, n);
      newPos := (pos + n) % ring.Length;
    } else {
      ghost var source := ring[..];
      var left := n - bytesToEnd;
      CopyOut(buffer, 0, ring, pos, bytesToEnd);
      assert buffer[..] == Over(before, 0, Taken(source, pos, bytesToEnd));
      CopyOut(buffer, bytesToEnd, ring, 0, left);
      assert Wrap(pos + bytesToEnd, ring.Length) == 0 && bytesToEnd + left == n;
      OneChunkMore(before, source, pos, bytesToEnd, left);
      newPos := n - bytesToEnd;
    }
  }

  /** One turn of that loop: `dest` bytes from `pos` on have been copied over `before`, and the next chunk follows them. */
  method CopyOutChunk(buffer: array<byte>, ghost before: seq<byte>, dest: nat, ring: array<byte>, ghost pos: nat,
                      readPos: nat, chunkSize: nat) returns (nextPos: nat)
    requires buffer != ring && pos < ring.Length && dest + chunkSize <= ring.Length && dest + chunkSize <= buffer.Length
    requires readPos == Wrap(pos + dest, ring.Length) && readPos + chunkSize <= ring.Length && |before| == buffer.Length
    requires buffer[..] == Over(before, 0, Taken(ring[..], pos, dest))
    modifies buffer
    ensures buffer[..] == Over(before, 0, Taken(ring[..], pos, dest + chunkSize))
    ensures nextPos == Wrap(pos + dest + chunkSize, ring.Length)
  {
    CopyOut(buffer, dest, ring, readPos, chunkSize);
    OneChunkMore(before, ring[..], pos, dest, chunkSize);
    nextPos := (readPos + chunkSize) % ring.Length;
  }

  /** The TCP protocol's read of `n` bytes. */
  method CopyOutChunks(buffer: array<byte>, ring: array<byte>, pos: nat, n: nat) returns (newPos: nat)
    requires buffer != ring && pos < ring.Length && n <= ring.Length && n <= buffer.Length
    modifies buffer
    ensures buffer[..] == Over(old(buffer[..]), 0, Taken(ring[..], pos, n))
    ensures newPos == (pos + n) % ring.Length
  {
    ghost var before := buffer[..];
    var dest: nat := 0;
    var readPos := pos;
    var remaining: nat := n;
    OverNothing(before, 0);
    while remaining > 0
      invariant dest + remaining == n
      invariant readPos == Wrap(pos + dest, ring.Length)
      invariant buffer[..] == Over(before, 0, Taken(ring[..], pos, dest))
    {
      var chunkSize := remaining;
      if readPos + chunkSize > ring.Length {
        chunkSize := ring.Length - readPos;
      }
      readPos := CopyOutChunk(buffer, before, dest, ring, pos, readPos, chunkSize);
      dest := dest + chunkSize;
      remaining := remaining - chunkSize;
    }
    WrapIsMod(pos + n, ring.Length);
    newPos := readPos;
  }

  /** The FIFO protocol's buffer. The histories make conservation an invariant: bytes accepted = bytes read + bytes held. */
  class FifoPollingBuffer {
    const dataBuffer: array<byte>
    var dataStart: nat
    var dataEnd: nat
    var availableData: nat
    ghost var accepted: seq<byte>
    ghost var handedOut: seq<byte>

    ghost function Value(): Ring
      reads this, dataBuffer
    {
      Ring(dataBuffer[..], dataStart, dataEnd, availableData)
    }

    ghost predicate Valid()
      reads this, dataBuffer
    {
      RingOk(Value()) && accepted == handedOut + Buffered(Value())
    }

    constructor (bufferSize: nat)
      requires bufferSize > 0
      ensures Valid() && fresh(dataBuffer) && dataBuffer.Length == bufferSize
      ensures accepted == [] && handedOut == []
    {
      dataBuffer := new byte[bufferSize](_ => 0);
      dataStart, dataEnd, availableData := 0, 0, 0;
      accepted, handedOut := [], [];
    }

    method StoreData(data: seq<byte>) returns (r: Code)
      requires Valid()
      modifies this, dataBuffer
      ensures Valid()
      ensures r == StoreResult(old(Value()), data) && Value() == Stored(old(Value()), data)
      ensures accepted == old(accepted) + (if r == SUCCESS then data else []) && handedOut == old(handedOut)
    {
      StoreAppends(Value(), data);
      if |data| == 0 {
        return INVALID_PARAM;
      }
      var freeSpace := dataBuffer.Length - availableData;
      if |data| > freeSpace {
        return BUFFER_FULL;
      }
      dataEnd := CopyInTwoPieces(dataBuffer, dataEnd, data);
      availableData := availableData + |data|;
      accepted := accepted + data;
      r := SUCCESS;
    }

    /**
     * The read with any wait of its over: `expired` if a timed wait ran out, after which it does not look for bytes again;
     * `onEmpty` is what the variant in use reports when there is nothing to read, NO_DATA or TIMEOUT.
     */
    method ReadData(buffer: array<byte>, expired: bool, onEmpty: Code) returns (r: Code, bytesRead: nat)
      requires Valid() && buffer != dataBuffer && onEmpty != SUCCESS
      modifies this, buffer
      ensures Valid() && accepted == old(accepted)
      ensures r == if buffer.Length == 0 then INVALID_PARAM
                   else if expired then TIMEOUT
                   else if old(availableData) == 0 then onEmpty
                   else SUCCESS
      ensures bytesRead == if r == SUCCESS then ReadCount(old(Value()), buffer.Length) else 0
      ensures Value() == if r == SUCCESS then AfterRead(old(Value()), buffer.Length) else old(Value())
      ensures bytesRead <= |old(buffer[..])|
      ensures buffer[..] == handedOut[|old(handedOut)|..] + old(buffer[..])[bytesRead..]
      ensures handedOut == old(handedOut) + buffer[..bytesRead]
    {
      bytesRead := 0;
      if buffer.Length == 0 {
        return INVALID_PARAM, 0;
      }
      if expired {
        return TIMEOUT, 0;
      }
      if availableData == 0 {
        return onEmpty, 0;
      }
      ReadTakesFront(Value(), buffer.Length);
      var dataToRead := if buffer.Length < availableData then buffer.Length else availableData;
      handedOut := handedOut + Taken(dataBuffer[..], dataStart, dataToRead);
      dataStart := CopyOutTwoPieces(buffer, dataBuffer, dataStart, dataToRead);
      availableData := availableData - dataToRead;
      bytesRead := dataToRead;
      r := SUCCESS;
    }
  }

  /** How a read's wait went: there was none, it ended, or its time ran out. */
  datatype Wait = NoWait | Ended | Expired

  /** The TCP protocol's buffer. */
  class TcpPollingBuffer {
    const dataBuffer: array<byte>
    var dataStart: nat
    var dataEnd: nat
    var availableData: nat

    ghost function Value(): Ring
      reads this, dataBuffer
    {
      Ring(dataBuffer[..], dataStart, dataEnd, availableData)
    }

    constructor (bufferSize: nat)
      requires bufferSize > 0
      ensures RingOk(Value()) && fresh(dataBuffer) && dataBuffer.Length == bufferSize
      ensures Buffered(Value()) == []
    {
      dataBuffer := new byte[bufferSize](_ => 0);
      dataStart, dataEnd, availableData := 0, 0, 0;
    }

    method WriteData(data: seq<byte>) returns (r: Code)
      requires RingOk(Value())
      modifies this, dataBuffer
      ensures r == StoreResult(old(Value()), data) && Value() == Stored(old(Value()), data)
      ensures RingOk(Value())
      ensures Buffered(Value()) == old(Buffered(Value())) + if r == SUCCESS then data else []
    {
      StoreAppends(Value(), data);
      if |data| == 0 {
        return INVALID_PARAM;
      }
      var freeSpace := dataBuffer.Length - availableData;
      if |data| > freeSpace {
        return BUFFER_FULL;
      }
      dataEnd := CopyInChunks(dataBuffer, dataEnd, data);
      availableData := availableData + |data|;
      r := SUCCESS;
    }

    /**
     * The read with its wait over, `recvError` being what the receiver thread has left behind. A timed wait that ran out
     * is not followed by another look; one that ended found bytes, or that error.
     */
    method ReadData(buffer: array<byte>, wait: Wait, recvError: Code) returns (r: Code, bytesRead: nat)
      requires RingOk(Value()) && buffer != dataBuffer
      requires wait.Ended? ==> availableData > 0 || recvError != SUCCESS
      modifies this, buffer
      ensures RingOk(Value())
      ensures r == if wait.Expired? then TIMEOUT else if wait.NoWait? && old(availableData) == 0 then NO_DATA else recvError
      ensures bytesRead == if r == SUCCESS then ReadCount(old(Value()), buffer.Length) else 0
      ensures Value() == if r == SUCCESS then AfterRead(old(Value()), buffer.Length) else old(Value())
      ensures bytesRead <= |old(buffer[..])|
      ensures buffer[bytesRead..] == old(buffer[..])[bytesRead..]
      ensures old(Buffered(Value())) == buffer[..bytesRead] + Buffered(Value())
    {
      bytesRead := 0;
      if wait.Expired? {
        return TIMEOUT, 0;
      }
      if wait.NoWait? && availableData == 0 {
        return NO_DATA, 0;
      }
      if recvError != SUCCESS {
        return recvError, 0;
      }
      ReadTakesFront(Value(), buffer.Length);
      var bytesToRead := if availableData < buffer.Length then availableData else buffer.Length;
      dataStart := CopyOutChunks(buffer, dataBuffer, dataStart, bytesToRead);
      availableData := availableData - bytesToRead;
      bytesRead := bytesToRead;
      r := SUCCESS;
    }
  }
}
