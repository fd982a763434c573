/** Command descriptors: status, and payloads kept embedded up to 64 bytes and on the heap above that. */
module CmdDescs {
  import opened Results
  import opened Bytes

  const STATUS_INVALID: u32 := 0
  const STATUS_INITIALIZED: u32 := 1
  const STATUS_PENDING: u32 := 2
  const STATUS_PROCESSING: u32 := 3
  const STATUS_SUCCESS: u32 := 4
  const STATUS_FAILED: u32 := 5
  const STATUS_TIMEOUT: u32 := 6

  /** sizeof(EmdData), eight 64-bit words. */
  const EMD_SIZE: nat := 64

  type EmdArea = s: seq<byte> | |s| == EMD_SIZE witness seq(EMD_SIZE, _ => 0)

  /**
   * `addr` is the number in pData; only whether it is zero ever matters. `mem` is what this process can read there: the
   * data bytes of a live heap block, and nothing for NULL or for an address that came from the other process.
   * The terminator byte behind a heap block's data is counted in ptrDataSize and not modelled otherwise.
   */
  datatype CmdPayload = CmdPayload(
    addr: u64,
    mem: seq<byte>,
    ptrDataSize: u64,
    ptrDataLen: u64,
    emdDataSize: u64,
    emdData: EmdArea)

  datatype CmdDesc = CmdDesc(
    seqId: u64,
    tvSec: u64,
    tvNsec: u64,
    cmdId: u64,
    status: u32,
    result: Code,
    inPayload: CmdPayload,
    outPayload: CmdPayload,
    timeoutMs: u64,
    execContext: u64)

  const NO_PAYLOAD := CmdPayload(0, [], 0, 0, 0, seq(EMD_SIZE, _ => 0))

  const INITIALIZED_DESC := CmdDesc(0, 0, 0, 0, STATUS_INITIALIZED, SUCCESS, NO_PAYLOAD, NO_PAYLOAD, 0, 0)

  predicate Terminal(status: u32) {
    status == STATUS_SUCCESS || status == STATUS_FAILED || status == STATUS_TIMEOUT
  }

  /** The longest data a payload's 64-bit size fields can describe, terminator included. */
  predicate Storable(data: seq<byte>) {
    |data| + 1 < 0x1_0000_0000_0000_0000
  }

  /** The state the setters leave a payload in, `addr` being where the allocator put a heap block. */
  function Stored(p: CmdPayload, data: seq<byte>, addr: u64): CmdPayload
    requires Storable(data)
  {
    if |data| <= EMD_SIZE then
      p.(emdDataSize := |data|, emdData := data + p.emdData[|data|..], addr := 0, mem := [], ptrDataSize := 0, ptrDataLen := 0)
    else
      p.(addr := addr, mem := data, emdDataSize := 0, ptrDataSize := |data| + 1, ptrDataLen := |data|)
  }

  /** One of the two forms the setters, the initialiser and the cleanup produce. */
  predicate WellFormed(p: CmdPayload) {
    if p.ptrDataLen == 0 then
      p.addr == 0 && p.mem == [] && p.ptrDataSize == 0 && p.emdDataSize <= EMD_SIZE
    else
      p.addr != 0 && p.ptrDataLen > EMD_SIZE && p.ptrDataSize == p.ptrDataLen + 1 && p.emdDataSize == 0 &&
      |p.mem| == p.ptrDataLen
  }

  /** What getInData/getOutData point at. */
  function DataPtr(p: CmdPayload): seq<byte> {
    if p.emdDataSize > 0 then p.emdData else p.mem
  }

  predicate DataPtrIsNull(p: CmdPayload) {
    p.emdDataSize == 0 && p.addr == 0
  }

  function DataLen(p: CmdPayload): nat {
    if p.ptrDataLen > 0 then p.ptrDataLen else p.emdDataSize
  }

  /** The bytes a reader gets through the two getters. */
  function DataBytes(p: CmdPayload): seq<byte> {
    if DataLen(p) <= |DataPtr(p)| then DataPtr(p)[..DataLen(p)] else DataPtr(p)
  }

  /** What is put in is what is read out, for every length on both sides of the embedded/heap threshold. */
  lemma StoredReadsBack(p: CmdPayload, data: seq<byte>, addr: u64)
    requires Storable(data) && addr != 0
    ensures DataBytes(Stored(p, data, addr)) == data
    ensures DataLen(Stored(p, data, addr)) == |data|
    ensures WellFormed(Stored(p, data, addr))
    ensures DataPtrIsNull(Stored(p, data, addr)) <==> data == []
  {
    var p' := Stored(p, data, addr);
    if 0 < |data| <= EMD_SIZE {
      assert p'.emdData[..|data|] == data;
    }
  }

  /** A well-formed payload is determined, as far as any reader can tell, by its bytes: storing them again changes nothing. */
  lemma StoreAgain(p: CmdPayload)
    requires WellFormed(p)
    ensures Storable(DataBytes(p)) && Stored(p, DataBytes(p), p.addr) == p
  {
    if p.ptrDataLen == 0 {
      assert p.emdData == p.emdData[..p.emdDataSize] + p.emdData[p.emdDataSize..];
      if p.emdDataSize == 0 {
        assert DataBytes(p) == [];
      }
    } else {
      assert p.mem[..p.ptrDataLen] == p.mem;
    }
  }

  /** A descriptor variable, written in place through its pointer. */
  class CmdDescVar {
    var desc: CmdDesc

    constructor ()
      ensures desc == INITIALIZED_DESC
      ensures WellFormed(desc.inPayload) && WellFormed(desc.outPayload)
    {
      desc := INITIALIZED_DESC;
    }

    /** `addr` is what malloc returns; None is a NULL data pointer. */
    method SetInPayload(pData: Option<seq<byte>>, dataSize: nat, addr: u64) returns (r: Code)
      requires addr != 0 && (pData.Some? ==> dataSize <= |pData.value| && Storable(pData.value))
      modifies this
      ensures r == if pData.None? && dataSize > 0 then INVALID_PARAM else SUCCESS
      ensures r != SUCCESS ==> desc == old(desc)
      ensures r == SUCCESS ==>
                var data := if pData.Some? then pData.value[..dataSize] else [];
                && desc == old(desc).(inPayload := Stored(old(desc).inPayload, data, addr))
                && DataBytes(desc.inPayload) == data && WellFormed(desc.inPayload)
    {
      if pData.None? && dataSize > 0 {
        return INVALID_PARAM;
      }
      var data := if pData.Some? then pData.value[..dataSize] else [];
      StoredReadsBack(desc.inPayload, data, addr);
      var p := desc.inPayload;
      if dataSize <= EMD_SIZE {
        p := p.(emdDataSize := dataSize);
        p := p.(emdData := data + p.emdData[dataSize..]);
        p := p.(addr := 0, mem := []);
        p := p.(ptrDataSize := 0);
        p := p.(ptrDataLen := 0);
      } else {
        p := p.(addr := addr, mem := data);
        p := p.(emdDataSize := 0);
        p := p.(ptrDataSize := dataSize + 1);
        p := p.(ptrDataLen := dataSize);
      }
      desc := desc.(inPayload := p);
      r := SUCCESS;
    }

    method SetOutPayload(pData: Option<seq<byte>>, dataSize: nat, addr: u64) returns (r: Code)
      requires addr != 0 && (pData.Some? ==> dataSize <= |pData.value| && Storable(pData.value))
      modifies this
      ensures r == if pData.None? && dataSize > 0 then INVALID_PARAM else SUCCESS
      ensures r != SUCCESS ==> desc == old(desc)
      ensures r == SUCCESS ==>
                var data := if pData.Some? then pData.value[..dataSize] else [];
                && desc == old(desc).(outPayload := Stored(old(desc).outPayload, data, addr))
                && DataBytes(desc.outPayload) == data && WellFormed(desc.outPayload)
    {
      if pData.None? && dataSize > 0 {
        return INVALID_PARAM;
      }
      var data := if pData.Some? then pData.value[..dataSize] else [];
      StoredReadsBack(desc.outPayload, data, addr);
      var p := desc.outPayload;
      if dataSize <= EMD_SIZE {
        p := p.(emdDataSize := dataSize);
        p := p.(emdData := data + p.emdData[dataSize..]);
        p := p.(addr := 0, mem := []);
        p := p.(ptrDataSize := 0);
        p := p.(ptrDataLen := 0);
      } else {
        p := p.(addr := addr, mem := data);
        p := p.(emdDataSize := 0);
        p := p.(ptrDataSize := dataSize + 1);
        p := p.(ptrDataLen := dataSize);
      }
      desc := desc.(outPayload := p);
      r := SUCCESS;
    }

    /** Frees the heap blocks only: embedded data stays readable, heap data is gone, and a second call changes nothing. */
    method Cleanup()
      requires WellFormed(desc.inPayload) && WellFormed(desc.outPayload)
      modifies this
      ensures WellFormed(desc.inPayload) && WellFormed(desc.outPayload)
      ensures desc.inPayload.mem == [] && desc.outPayload.mem == []
      ensures DataBytes(desc.inPayload) == if old(desc).inPayload.ptrDataLen == 0 then DataBytes(old(desc).inPayload) else []
      ensures DataBytes(desc.outPayload) == if old(desc).outPayload.ptrDataLen == 0 then DataBytes(old(desc).outPayload) else []
      ensures desc == old(desc).(inPayload := desc.inPayload, outPayload := desc.outPayload)
      ensures old(desc).inPayload.addr == 0 && old(desc).outPayload.addr == 0 ==> desc == old(desc)
    {
      if desc.inPayload.addr != 0 {
        desc := desc.(inPayload := desc.inPayload.(addr := 0, mem := []));
        desc := desc.(inPayload := desc.inPayload.(ptrDataSize := 0));
        desc := desc.(inPayload := desc.inPayload.(ptrDataLen := 0));
      }
      if desc.outPayload.addr != 0 {
        desc := desc.(outPayload := desc.outPayload.(addr := 0, mem := []));
        desc := desc.(outPayload := desc.outPayload.(ptrDataSize := 0));
        desc := desc.(outPayload := desc.outPayload.(ptrDataLen := 0));
      }
    }
  }
}
