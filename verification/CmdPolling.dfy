/** The two rings a FIFO link keeps for its polling RPC, updated in place: commands for it, and responses to it. */
module CmdPollings {
  import opened Results
  import opened CmdDescs
  import Slots

  const RING_SIZE: nat := 64

  /** Where the first response for a sequence number stands; the length if there is none. */
  function FirstFor(resps: seq<CmdDesc>, id: nat): (i: nat)
    ensures i <= |resps|
    ensures i < |resps| ==> resps[i].seqId == id
    ensures forall k :: 0 <= k < i ==> resps[k].seqId != id
  {
    if resps == [] then 0
    else if resps[0].seqId == id then 0
    else 1 + FirstFor(resps[1..], id)
  }

  lemma FirstForIs(resps: seq<CmdDesc>, id: nat, i: nat)
    requires i <= |resps| && (i < |resps| ==> resps[i].seqId == id) && forall k :: 0 <= k < i ==> resps[k].seqId != id
    ensures FirstFor(resps, id) == i
  {
  }

  /** A link's polling state: the commands queued for it as executor, the responses queued for it as initiator. */
  class CmdPolling {
    const queuedCmdDescs: array<CmdDesc>
    const queuedRespDescs: array<CmdDesc>
    var queuedCmdNum: nat
    var procedCmdNum: nat
    var queuedRespNum: nat
    var procedRespNum: nat

    ghost predicate Valid()
      reads this, queuedCmdDescs, queuedRespDescs
    {
      && queuedCmdDescs.Length == RING_SIZE && queuedRespDescs.Length == RING_SIZE
      && queuedCmdDescs != queuedRespDescs
      && procedCmdNum <= queuedCmdNum <= procedCmdNum + RING_SIZE
      && procedRespNum <= queuedRespNum <= procedRespNum + RING_SIZE
    }

    ghost function Cmds(): (s: seq<CmdDesc>)
      requires Valid()
      reads this, queuedCmdDescs, queuedRespDescs
      ensures |s| == queuedCmdNum - procedCmdNum
    {
      Slots.Live(queuedCmdDescs[..], procedCmdNum, queuedCmdNum - procedCmdNum)
    }

    ghost function Resps(): (s: seq<CmdDesc>)
      requires Valid()
      reads this, queuedCmdDescs, queuedRespDescs
      ensures |s| == queuedRespNum - procedRespNum
    {
      Slots.Live(queuedRespDescs[..], procedRespNum, queuedRespNum - procedRespNum)
    }

    constructor ()
      ensures Valid() && fresh(queuedCmdDescs) && fresh(queuedRespDescs)
      ensures Cmds() == [] && Resps() == []
    {
      queuedCmdDescs := new CmdDesc[64](_ => INITIALIZED_DESC);
      queuedRespDescs := new CmdDesc[64](_ => INITIALIZED_DESC);
      queuedCmdNum, procedCmdNum, queuedRespNum, procedRespNum := 0, 0, 0, 0;
    }

    /** The first critical section of exec, on the executor's link. */
    method QueueCmd(d: CmdDesc) returns (r: Code)
      requires Valid()
      modifies this`queuedCmdNum, queuedCmdDescs
      ensures Valid() && Resps() == old(Resps())
      ensures r == if |old(Cmds())| < RING_SIZE then SUCCESS else TOO_MANY
      ensures Cmds() == old(Cmds()) + if r == SUCCESS then [d.(status := STATUS_PENDING)] else []
    {
      var queuedCount := queuedCmdNum - procedCmdNum;
      if queuedCount >= RING_SIZE {
        return TOO_MANY;
      }
      Slots.LiveAfterPut(queuedCmdDescs[..], procedCmdNum, queuedCmdNum - procedCmdNum, d.(status := STATUS_PENDING));
      var queueIndex := queuedCmdNum % RING_SIZE;
      queuedCmdDescs[queueIndex] := d;
      queuedCmdDescs[queueIndex] := queuedCmdDescs[queueIndex].(status := STATUS_PENDING);
      queuedCmdNum := queuedCmdNum + 1;
      r := SUCCESS;
    }

    /**
     * IOC_waitCMD with its wait over. A timed wait that expires is not followed by another look at the queue; one that
     * does not, or none at all, and a queue that is still empty is the non-blocking call's case.
     */
    method WaitCmd(expired: bool) returns (r: Code, d: Option<CmdDesc>)
      requires Valid()
      modifies this`procedCmdNum
      ensures Valid() && Resps() == old(Resps())
      ensures expired || old(Cmds()) == [] ==>
                r == (if expired then TIMEOUT else NO_EVENT_PENDING) && d == None && Cmds() == old(Cmds())
      ensures !expired && old(Cmds()) != [] ==>
                && r == SUCCESS && d == Some(old(Cmds())[0].(status := STATUS_PROCESSING))
                && Cmds() == old(Cmds())[1..]
    {
      if expired {
        return TIMEOUT, None;
      }
      if queuedCmdNum == procedCmdNum {
        return NO_EVENT_PENDING, None;
      }
      Slots.LiveAfterTake(queuedCmdDescs[..], procedCmdNum, queuedCmdNum - procedCmdNum, 1);
      var queueIndex := procedCmdNum % RING_SIZE;
      d := Some(queuedCmdDescs[queueIndex].(status := STATUS_PROCESSING));
      procedCmdNum := procedCmdNum + 1;
      r := SUCCESS;
    }

    /** IOC_ackCMD, on the initiator's link. */
    method QueueResp(d: CmdDesc) returns (r: Code)
      requires Valid()
      modifies this`queuedRespNum, queuedRespDescs
      ensures Valid() && Cmds() == old(Cmds())
      ensures r == if |old(Resps())| < RING_SIZE then SUCCESS else TOO_MANY
      ensures Resps() == old(Resps()) + if r == SUCCESS then [d] else []
    {
      var respQueuedCount := queuedRespNum - procedRespNum;
      if respQueuedCount >= RING_SIZE {
        return TOO_MANY;
      }
      Slots.LiveAfterPut(queuedRespDescs[..], procedRespNum, queuedRespNum - procedRespNum, d);
      queuedRespDescs[queuedRespNum % RING_SIZE] := d;
      queuedRespNum := queuedRespNum + 1;
      r := SUCCESS;
    }

    lemma RespAt(i: nat)
      requires Valid() && procedRespNum <= i < queuedRespNum
      ensures queuedRespDescs[i % RING_SIZE] == Resps()[i - procedRespNum]
    {
      Slots.LiveAt(queuedRespDescs[..], procedRespNum, queuedRespNum - procedRespNum, i - procedRespNum);
    }

    /** The copy of a found response, and the counter moved behind it. */
    method TakeResp(i: nat) returns (d: CmdDesc)
      requires Valid() && procedRespNum <= i < queuedRespNum
      modifies this`procedRespNum
      ensures Valid() && Cmds() == old(Cmds())
      ensures d == old(Resps())[i - old(procedRespNum)] && Resps() == old(Resps())[i - old(procedRespNum) + 1..]
    {
      RespAt(i);
      d := queuedRespDescs[i % RING_SIZE];
      Slots.LiveAfterTake(queuedRespDescs[..], procedRespNum, queuedRespNum - procedRespNum, i + 1 - procedRespNum);
      procedRespNum := i + 1;
    }

    /** One pass of exec's search for its response: the first match is taken, and everything queued before it with it. */
    method ScanResps(id: nat) returns (d: Option<CmdDesc>)
      requires Valid()
      modifies this`procedRespNum
      ensures Valid() && Cmds() == old(Cmds())
      ensures var i := FirstFor(old(Resps()), id);
              if i < |old(Resps())| then d == Some(old(Resps())[i]) && Resps() == old(Resps())[i + 1..]
              else d == None && Resps() == old(Resps())
    {
      ghost var resps := Resps();
      for i := procedRespNum to queuedRespNum
        invariant procedRespNum == old(procedRespNum)
        invariant forall k :: 0 <= k < i - procedRespNum ==> resps[k].seqId != id
      {
        var respIndex := i % RING_SIZE;
        RespAt(i);
        if queuedRespDescs[respIndex].seqId == id {
          FirstForIs(resps, id, i - procedRespNum);
          var found := TakeResp(i);
          return Some(found);
        }
      }
      FirstForIs(resps, id, |resps|);
      d := None;
    }
  }
}
