/** The 64-slot event ring with two monotone counters. */
module EvtDescQueues {
  import opened Results

  const MAX_QUEUING_EVTDESC: nat := 64

  datatype EvtDesc = EvtDesc(seqId: nat, evtId: int, evtValue: int)

  class EvtDescQueue {
    var queuedEvtNum: nat
    var procedEvtNum: nat
    const queuedEvtDescs: array<EvtDesc>

    /** Every event ever enqueued, oldest first. */
    ghost var enqueued: seq<EvtDesc>

    /** The live counters address at most 64 events, and slot i mod 64 holds the i-th enqueued event for every live i. */
    ghost predicate Valid()
      reads this, queuedEvtDescs
    {
      && queuedEvtDescs.Length == MAX_QUEUING_EVTDESC
      && procedEvtNum <= queuedEvtNum <= procedEvtNum + MAX_QUEUING_EVTDESC
      && |enqueued| == queuedEvtNum
      && forall i :: procedEvtNum <= i < queuedEvtNum ==> queuedEvtDescs[i % MAX_QUEUING_EVTDESC] == enqueued[i]
    }

    /** The queued events, oldest first. */
    ghost function Contents(): (s: seq<EvtDesc>)
      requires Valid()
      reads this, queuedEvtDescs
      ensures |s| <= MAX_QUEUING_EVTDESC
    {
      enqueued[procedEvtNum..]
    }

    /** The events handed out so far, in the order they were handed out. */
    ghost function Dequeued(): (s: seq<EvtDesc>)
      requires Valid()
      reads this, queuedEvtDescs
    {
      enqueued[..procedEvtNum]
    }

    constructor (zero: EvtDesc)
      ensures Valid() && fresh(queuedEvtDescs)
      ensures Contents() == [] && Dequeued() == []
    {
      queuedEvtNum, procedEvtNum := 0, 0;
      queuedEvtDescs := new EvtDesc[64](_ => zero);
      enqueued := [];
    }

    method IsEmpty() returns (empty: bool)
      requires Valid()
      ensures empty <==> Contents() == []
    {
      empty := queuedEvtNum == procedEvtNum;
    }

    method EnqueueElementLast(evt: EvtDesc) returns (r: Code)
      requires Valid()
      modifies this, queuedEvtDescs
      ensures Valid()
      ensures Dequeued() == old(Dequeued())
      ensures r == if |old(Contents())| < MAX_QUEUING_EVTDESC then SUCCESS else TOO_MANY
      ensures r == SUCCESS ==> Contents() == old(Contents()) + [evt] && enqueued == old(enqueued) + [evt]
      ensures r != SUCCESS ==> Contents() == old(Contents()) && enqueued == old(enqueued)
    {
      var queuingEvtNum := queuedEvtNum - procedEvtNum;
      assert queuingEvtNum <= MAX_QUEUING_EVTDESC;
      if queuingEvtNum == MAX_QUEUING_EVTDESC {
        return TOO_MANY;
      }
      assert forall i :: procedEvtNum <= i < queuedEvtNum ==> i % MAX_QUEUING_EVTDESC != queuedEvtNum % MAX_QUEUING_EVTDESC;
      queuedEvtDescs[queuedEvtNum % MAX_QUEUING_EVTDESC] := evt;
      queuedEvtNum := queuedEvtNum + 1;
      enqueued := enqueued + [evt];
      r := SUCCESS;
    }

    /** On an empty queue `evt` is the caller's buffer, untouched. */
    method DequeueElementFirst(buffer: EvtDesc) returns (r: Code, evt: EvtDesc)
      requires Valid()
      modifies this
      ensures Valid() && enqueued == old(enqueued)
      ensures r == if old(Contents()) == [] then EVTDESC_QUEUE_EMPTY else SUCCESS
      ensures r == SUCCESS ==> old(Contents()) == [evt] + Contents() && Dequeued() == old(Dequeued()) + [evt]
      ensures r != SUCCESS ==> evt == buffer && Contents() == old(Contents()) && Dequeued() == old(Dequeued())
    {
      var queuingEvtNum := queuedEvtNum - procedEvtNum;
      assert queuingEvtNum <= MAX_QUEUING_EVTDESC;
      if queuingEvtNum == 0 {
        return EVTDESC_QUEUE_EMPTY, buffer;
      }
      evt := queuedEvtDescs[procedEvtNum % MAX_QUEUING_EVTDESC];
      procedEvtNum := procedEvtNum + 1;
      r := SUCCESS;
    }
  }
}
