/**
 * The FIFO protocol's callback batch: data accumulated while a batching window is open, delivered in one callback by a
 * flush. A flush is two critical sections, with the callback reading the buffer itself after the second has ended.
 */
module CallbackBatches {
  import opened Results
  import opened Bytes
  import Rings = ByteRings

  class CallbackBatch {
    const batchBuffer: array<byte>
    const receiverRegistered: bool
    var accumulatedDataSize: nat
    var isBatchWindowOpen: bool
    ghost var accepted: seq<byte>     // all bytes taken in
    ghost var delivered: seq<byte>    // all bytes given to callbacks

    ghost function Accumulated(): (s: seq<byte>)
      requires accumulatedDataSize <= batchBuffer.Length
      reads this, batchBuffer
    {
      batchBuffer[..accumulatedDataSize]
    }

    /** Nothing lost, nothing doubled, nothing out of order, and the buffer never overrun. */
    ghost predicate Valid()
      reads this, batchBuffer
    {
      accumulatedDataSize <= batchBuffer.Length && (receiverRegistered ==> accepted == delivered + Accumulated())
    }

    constructor (batchBufferSize: nat, receiverRegistered: bool)
      ensures Valid() && fresh(batchBuffer) && batchBuffer.Length == batchBufferSize
      ensures this.receiverRegistered == receiverRegistered && Accumulated() == [] && !isBatchWindowOpen
      ensures accepted == [] && delivered == []
    {
      batchBuffer := new byte[batchBufferSize](_ => 0);
      this.receiverRegistered := receiverRegistered;
      accumulatedDataSize, isBatchWindowOpen := 0, false;
      accepted, delivered := [], [];
    }

    method OpenWindow()
      requires Valid()
      modifies this`isBatchWindowOpen
      ensures Valid() && isBatchWindowOpen
    {
      isBatchWindowOpen := true;
    }

    /** `expired` is the clock's answer about the open window. */
    method AddDataToBatch(data: seq<byte>, expired: bool) returns (r: Code)
      requires Valid()
      modifies this`accumulatedDataSize, this`accepted, batchBuffer
      ensures Valid()
      ensures r == if |data| == 0 then INVALID_PARAM
                   else if !isBatchWindowOpen || expired then NOT_SUPPORT
                   else if |old(Accumulated())| + |data| <= batchBuffer.Length then SUCCESS
                   else BUFFER_FULL
      ensures isBatchWindowOpen && !expired ==> (r == SUCCESS <==> Fits(old(batchBuffer[..]), old(accumulatedDataSize), data))
      ensures Accumulated() == old(Accumulated()) + if r == SUCCESS then data else []
      ensures accepted == old(accepted) + if r == SUCCESS then data else []
    {
      if |data| == 0 {
        return INVALID_PARAM;
      }
      if !isBatchWindowOpen || expired {
        return NOT_SUPPORT;
      }
      var availableSpace := batchBuffer.Length - accumulatedDataSize;
      if |data| <= availableSpace {
        forall i | 0 <= i < |data| {
          batchBuffer[accumulatedDataSize + i] := data[i];
        }
        accumulatedDataSize := accumulatedDataSize + |data|;
        accepted := accepted + data;
        r := SUCCESS;
      } else {
        r := BUFFER_FULL;
      }
    }

    /** A flush that nothing comes between: one callback with all that has accumulated, or none if there is nothing. */
    method FlushCallbackBatch(callbackResult: Code) returns (r: Code)
      requires Valid()
      modifies this`accumulatedDataSize, this`delivered
      ensures Valid() && accumulatedDataSize == 0 && Accumulated() == []
      ensures r == if old(Accumulated()) != [] && receiverRegistered then callbackResult else SUCCESS
      ensures delivered == old(delivered) + if receiverRegistered then old(Accumulated()) else []
    {
      if accumulatedDataSize == 0 {
        return SUCCESS;
      }
      var batchSize := accumulatedDataSize;
      accumulatedDataSize := 0;
      if receiverRegistered {
        delivered := delivered + batchBuffer[..batchSize];
        return callbackResult;
      }
      r := SUCCESS;
    }

    method CloseBatchWindow(callbackResult: Code)
      requires Valid()
      modifies this`isBatchWindowOpen, this`accumulatedDataSize, this`delivered
      ensures Valid() && !isBatchWindowOpen && Accumulated() == []
      ensures receiverRegistered ==> delivered == old(delivered) + old(Accumulated()) == accepted
    {
      if isBatchWindowOpen {
        isBatchWindowOpen := false;
      }
      var ignored := FlushCallbackBatch(callbackResult);
    }

    /** IOC_flushDAT: after it nothing is left, whether or not the window was open. */
    method FlushData(callbackResult: Code) returns (r: Code)
      requires Valid()
      modifies this`isBatchWindowOpen, this`accumulatedDataSize, this`delivered
      ensures Valid() && r == SUCCESS && !isBatchWindowOpen && Accumulated() == []
      ensures receiverRegistered ==> delivered == old(delivered) + old(Accumulated()) == accepted
    {
      if isBatchWindowOpen || accumulatedDataSize > 0 {
        CloseBatchWindow(callbackResult);
      }
      r := SUCCESS;
    }
  }

  // -------------------------------------------------------------------------------------------------------------
  // Additions between a flush's two halves

  predicate Fits(buffer: seq<byte>, size: nat, data: seq<byte>) {
    |data| > 0 && size + |data| <= |buffer|
  }

  /** The buffer after a run of additions, of which those that fit are accepted. */
  function AfterAdds(buffer: seq<byte>, size: nat, adds: seq<seq<byte>>): (b: seq<byte>)
    requires size <= |buffer|
    ensures |b| == |buffer|
    decreases |adds|
  {
    if adds == [] then buffer
    else if Fits(buffer, size, adds[0]) then AfterAdds(Rings.Over(buffer, size, adds[0]), size + |adds[0]|, adds[1..])
    else AfterAdds(buffer, size, adds[1..])
  }

  /** The bytes those additions brought in. */
  function AcceptedBytes(buffer: seq<byte>, size: nat, adds: seq<seq<byte>>): (s: seq<byte>)
    requires size <= |buffer|
    ensures size + |s| <= |buffer|
    decreases |adds|
  {
    if adds == [] then []
    else if Fits(buffer, size, adds[0]) then
      adds[0] + AcceptedBytes(Rings.Over(buffer, size, adds[0]), size + |adds[0]|, adds[1..])
    else AcceptedBytes(buffer, size, adds[1..])
  }

  lemma {:induction false} AddsLayBytes(buffer: seq<byte>, size: nat, adds: seq<seq<byte>>)
    requires size <= |buffer|
    ensures AfterAdds(buffer, size, adds) == Rings.Over(buffer, size, AcceptedBytes(buffer, size, adds))
    decreases |adds|
  {
    if adds == [] {
      Rings.OverNothing(buffer, size);
    } else if Fits(buffer, size, adds[0]) {
      var once := Rings.Over(buffer, size, adds[0]);
      AddsLayBytes(once, size + |adds[0]|, adds[1..]);
      Rings.OverTwice(buffer, size, adds[0], AcceptedBytes(once, size + |adds[0]|, adds[1..]));
    } else {
      AddsLayBytes(buffer, size, adds[1..]);
    }
  }

  /**
   * The flush has taken `taken` bytes and reset the size; additions come before the callback reads them. The callback
   * gets what was taken if and only if the added bytes repeat it, position by position: in particular if none was added.
   */
  lemma FlushDeliversTakenIff(buffer: seq<byte>, taken: nat, adds: seq<seq<byte>>)
    requires taken <= |buffer|
    ensures AfterAdds(buffer, 0, adds)[..taken] == buffer[..taken]
       <==> var added := AcceptedBytes(buffer, 0, adds);
            forall i :: 0 <= i < taken && i < |added| ==> added[i] == buffer[i]
    ensures AcceptedBytes(buffer, 0, adds) == [] ==> AfterAdds(buffer, 0, adds)[..taken] == buffer[..taken]
  {
    AddsLayBytes(buffer, 0, adds);
    var added := AcceptedBytes(buffer, 0, adds);
    var after := AfterAdds(buffer, 0, adds);
    assert forall i :: 0 <= i < |buffer| ==> after[i] == if i < |added| then added[i] else buffer[i];
    if after[..taken] == buffer[..taken] {
      forall i | 0 <= i < taken && i < |added| ensures added[i] == buffer[i] {
        assert after[..taken][i] == buffer[..taken][i];
      }
    }
  }

  /** One byte added in between is delivered in place of the one taken, which is lost. */
  lemma AddDuringFlushClobbers()
    ensures exists buffer, adds :: |buffer| == 2 && AfterAdds(buffer, 0, adds)[..1] == [2] && buffer[..1] == [1]
  {
    var buffer: seq<byte>, adds: seq<seq<byte>> := [1, 0], [[2]];
    assert Fits(buffer, 0, adds[0]) && adds[1..] == [];
    assert AfterAdds(buffer, 0, adds) == Rings.Over(buffer, 0, [2]);
    assert AfterAdds(buffer, 0, adds)[..1] == [2] && buffer[..1] == [1];
  }
}
