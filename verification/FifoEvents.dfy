/** Events on the FIFO protocol: callbacks made by the poster, or a polling queue read by IOC_pullEVT. */
module FifoEvents {
  import opened Results
  import opened EvtDescQueues

  /** The receiving side of a link: its one subscription and the events waiting to be pulled. */
  datatype Inbox = Inbox(hasCallback: bool, evtIds: seq<int>, waiting: seq<EvtDesc>)

  /** How often an event ID is listed in a subscription. */
  function Listed(evtIds: seq<int>, id: int): nat {
    if evtIds == [] then 0 else Listed(evtIds[..|evtIds| - 1], id) + if evtIds[|evtIds| - 1] == id then 1 else 0
  }

  lemma {:induction false} ListedIffIn(evtIds: seq<int>, id: int)
    ensures Listed(evtIds, id) > 0 <==> id in evtIds
  {
    if evtIds != [] {
      ListedIffIn(evtIds[..|evtIds| - 1], id);
      assert evtIds == evtIds[..|evtIds| - 1] + [evtIds[|evtIds| - 1]];
    }
  }

  function Repeat(evt: EvtDesc, n: nat): (s: seq<EvtDesc>)
    ensures |s| == n
  {
    seq(n, _ => evt)
  }

  /** The post is queued for pulling: somebody subscribed without a callback, and the queue has room. */
  predicate Admitted(b: Inbox, evt: EvtDesc) {
    !b.hasCallback && evt.evtId in b.evtIds && |b.waiting| < MAX_QUEUING_EVTDESC
  }

  function AfterPost(b: Inbox, evt: EvtDesc): Inbox {
    if Admitted(b, evt) then b.(waiting := b.waiting + [evt]) else b
  }

  /** What a post reports says whether the event is subscribed, not whether the queue took it. */
  function PostResult(b: Inbox, evt: EvtDesc): Code {
    if evt.evtId in b.evtIds then SUCCESS else NO_EVENT_CONSUMER
  }

  /** The callbacks that posting an event makes. */
  function CallsOf(b: Inbox, evt: EvtDesc): seq<EvtDesc> {
    if b.hasCallback then Repeat(evt, Listed(b.evtIds, evt.evtId)) else []
  }

  class FifoEvtLink {
    var hasCallback: bool
    var callback: int                // the callback and its private data, as one identity
    var evtIds: seq<int>
    const evtPollingQueue: EvtDescQueue
    ghost var called: seq<EvtDesc>   // callbacks made

    ghost predicate Valid()
      reads this, evtPollingQueue, evtPollingQueue.queuedEvtDescs
    {
      evtPollingQueue.Valid()
    }

    ghost function Value(): Inbox
      requires Valid()
      reads this, evtPollingQueue, evtPollingQueue.queuedEvtDescs
    {
      Inbox(hasCallback, evtIds, evtPollingQueue.Contents())
    }

    constructor (zero: EvtDesc)
      ensures Valid() && fresh(evtPollingQueue) && fresh(evtPollingQueue.queuedEvtDescs)
      ensures Value() == Inbox(false, [], []) && called == []
    {
      hasCallback, callback, evtIds, called := false, 0, [], [];
      evtPollingQueue := new EvtDescQueue(zero);
    }

    method SubEvt(hasCallback: bool, callback: int, evtIds: seq<int>) returns (r: Code)
      requires Valid()
      modifies this
      ensures Valid() && r == SUCCESS && called == old(called)
      ensures Value() == old(Value()).(hasCallback := hasCallback, evtIds := evtIds) && this.callback == callback
    {
      this.hasCallback, this.callback, this.evtIds := hasCallback, callback, evtIds;
      r := SUCCESS;
    }

    method UnsubEvt(hasCallback: bool, callback: int) returns (r: Code)
      requires Valid()
      modifies this
      ensures Valid() && called == old(called)
      ensures r == if old(this.hasCallback) == hasCallback && old(this.callback) == callback then SUCCESS else NOT_EXIST
      ensures Value() == if r == SUCCESS then old(Value()).(hasCallback := false, evtIds := []) else old(Value())
    {
      if this.hasCallback == hasCallback && this.callback == callback {
        this.hasCallback, this.callback, this.evtIds := false, 0, [];
        return SUCCESS;
      }
      r := NOT_EXIST;
    }

    /** What a poster does with its peer: one callback for each listing of the event's ID, or one entry in the queue. */
    method PostEvt(evt: EvtDesc) returns (r: Code)
      requires Valid()
      modifies this`called, evtPollingQueue, evtPollingQueue.queuedEvtDescs
      ensures Valid()
      ensures r == PostResult(old(Value()), evt)
      ensures hasCallback ==> (r == SUCCESS <==> called != old(called))
      ensures r == SUCCESS || r == NO_EVENT_CONSUMER
      ensures Value() == AfterPost(old(Value()), evt)
      ensures called == old(called) + CallsOf(old(Value()), evt)
      ensures evtPollingQueue.Dequeued() == old(evtPollingQueue.Dequeued())
    {
      var procEvtSuberCnt: nat := 0;
      if hasCallback {
        for i := 0 to |evtIds|
          invariant Valid() && Value() == old(Value()) && evtPollingQueue.Dequeued() == old(evtPollingQueue.Dequeued())
          invariant procEvtSuberCnt == Listed(evtIds[..i], evt.evtId)
          invariant called == old(called) + Repeat(evt, procEvtSuberCnt)
        {
          assert evtIds[..i + 1][..i] == evtIds[..i];
          if evt.evtId == evtIds[i] {
            called := called + [evt];
            procEvtSuberCnt := procEvtSuberCnt + 1;
          }
        }
      } else {
        var i := 0;
        while i < |evtIds| && procEvtSuberCnt == 0
          invariant i <= |evtIds| && procEvtSuberCnt == 0 && evt.evtId !in evtIds[..i]
          invariant Valid() && Value() == old(Value()) && evtPollingQueue.Dequeued() == old(evtPollingQueue.Dequeued())
        {
          if evt.evtId == evtIds[i] {
            var ignored := evtPollingQueue.EnqueueElementLast(evt);
            return SUCCESS;
          }
          i := i + 1;
        }
      }
      assert evtIds[..|evtIds|] == evtIds;
      ListedIffIn(evtIds, evt.evtId);
      r := if procEvtSuberCnt > 0 then SUCCESS else NO_EVENT_CONSUMER;
    }

    /** One attempt of IOC_pullEVT, alone in non-blocking mode and repeated until its time is up otherwise. */
    method PullEvt(buffer: EvtDesc, onEmpty: Code) returns (r: Code, evt: EvtDesc)
      requires Valid() && onEmpty != SUCCESS
      modifies evtPollingQueue
      ensures Valid()
      ensures old(Value()).waiting == [] ==> r == onEmpty && evt == buffer && Value() == old(Value())
      ensures old(Value()).waiting != [] ==>
                r == SUCCESS && evt == old(Value()).waiting[0] && Value() == old(Value()).(waiting := old(Value()).waiting[1..])
    {
      r, evt := evtPollingQueue.DequeueElementFirst(buffer);
      if r == EVTDESC_QUEUE_EMPTY {
        r := onEmpty;
      }
    }
  }

  /** IOC_postEVT on a link, `peer` being what that link points at: nothing, or the side that has subscribed. */
  method PostToPeer(peer: FifoEvtLink?, evt: EvtDesc) returns (r: Code)
    requires peer != null ==> peer.Valid()
    modifies if peer == null then {} else {peer, peer.evtPollingQueue, peer.evtPollingQueue.queuedEvtDescs}
    ensures peer == null ==> r == NO_EVENT_CONSUMER
    ensures peer != null ==>
              && peer.Valid() && r == PostResult(old(peer.Value()), evt) && peer.Value() == AfterPost(old(peer.Value()), evt)
              && peer.called == old(peer.called) + CallsOf(old(peer.Value()), evt)
  {
    r := NO_EVENT_CONSUMER;
    if peer != null {
      r := peer.PostEvt(evt);
    }
  }

  // -------------------------------------------------------------------------------------------------------------
  // Runs of posts, pulls and subscription changes

  datatype Action = Post(evt: EvtDesc) | Pull | Subscribe(hasCallback: bool, evtIds: seq<int>)

  function Apply(b: Inbox, a: Action): Inbox {
    match a
    case Post(evt) => AfterPost(b, evt)
    case Pull => if b.waiting == [] then b else b.(waiting := b.waiting[1..])
    case Subscribe(hasCallback, evtIds) => b.(hasCallback := hasCallback, evtIds := evtIds)
  }

  function Final(b: Inbox, run: seq<Action>): Inbox
    decreases |run|
  {
    if run == [] then b else Final(Apply(b, run[0]), run[1..])
  }

  /** What the pulls of a run returned, in order. */
  function Pulled(b: Inbox, run: seq<Action>): seq<EvtDesc>
    decreases |run|
  {
    if run == [] then []
    else (if run[0].Pull? && b.waiting != [] then [b.waiting[0]] else []) + Pulled(Apply(b, run[0]), run[1..])
  }

  /** The events of the posts of a run that were queued, in order of posting. */
  function Queued(b: Inbox, run: seq<Action>): seq<EvtDesc>
    decreases |run|
  {
    if run == [] then []
    else (if run[0].Post? && Admitted(b, run[0].evt) then [run[0].evt] else []) + Queued(Apply(b, run[0]), run[1..])
  }

  /** The events of the posts of a run that reported success on a link without a callback. */
  function Reported(b: Inbox, run: seq<Action>): seq<EvtDesc>
    decreases |run|
  {
    if run == [] then []
    else
      (if run[0].Post? && !b.hasCallback && PostResult(b, run[0].evt) == SUCCESS then [run[0].evt] else [])
      + Reported(Apply(b, run[0]), run[1..])
  }

  /** The events of the posts of a run that reported success on a link with a callback. */
  function ReportedBack(b: Inbox, run: seq<Action>): seq<EvtDesc>
    decreases |run|
  {
    if run == [] then []
    else
      (if run[0].Post? && b.hasCallback && PostResult(b, run[0].evt) == SUCCESS then [run[0].evt] else [])
      + ReportedBack(Apply(b, run[0]), run[1..])
  }

  /** All callbacks of a run. */
  function CalledBack(b: Inbox, run: seq<Action>): seq<EvtDesc>
    decreases |run|
  {
    if run == [] then []
    else (if run[0].Post? then CallsOf(b, run[0].evt) else []) + CalledBack(Apply(b, run[0]), run[1..])
  }

  /** Some post met a subscription with a callback that lists its event more than once. */
  predicate CalledTwice(b: Inbox, run: seq<Action>)
    decreases |run|
  {
    run != [] &&
    ((run[0].Post? && b.hasCallback && Listed(b.evtIds, run[0].evt.evtId) > 1) || CalledTwice(Apply(b, run[0]), run[1..]))
  }

  /** A post onto a link with a callback reports success if and only if it has called back at least once. */
  lemma ReportedIffCalled(b: Inbox, evt: EvtDesc)
    requires b.hasCallback
    ensures PostResult(b, evt) == SUCCESS <==> CallsOf(b, evt) != []
    ensures PostResult(b, evt) == NO_EVENT_CONSUMER <==> CallsOf(b, evt) == []
  {
    ListedIffIn(b.evtIds, evt.evtId);
  }

  /**
   * Over any run, the events reported as posted on links with a callback are exactly those called back, once each and in
   * order, if and only if no subscription in force listed one of them twice; each is called back at least once anyway.
   */
  lemma {:induction false} ReportedCalledBackIff(b: Inbox, run: seq<Action>)
    ensures |CalledBack(b, run)| >= |ReportedBack(b, run)|
    ensures CalledBack(b, run) == ReportedBack(b, run) <==> !CalledTwice(b, run)
    decreases |run|
  {
    if run != [] {
      var b' := Apply(b, run[0]);
      ReportedCalledBackIff(b', run[1..]);
      var called, reported := CalledBack(b', run[1..]), ReportedBack(b', run[1..]);
      if run[0].Post? && b.hasCallback {
        ReportedIffCalled(b, run[0].evt);
        var n := Listed(b.evtIds, run[0].evt.evtId);
        var calls := CallsOf(b, run[0].evt);
        if n == 1 {
          assert calls == [run[0].evt];
          assert (calls + called)[1..] == called && ([run[0].evt] + reported)[1..] == reported;
        } else if n == 0 {
          assert CalledBack(b, run) == called && ReportedBack(b, run) == reported;
        }
      } else {
        assert CalledBack(b, run) == called && ReportedBack(b, run) == reported;
      }
    }
  }

  /** The queue was full at some post of a subscribed event. */
  predicate Overran(b: Inbox, run: seq<Action>)
    decreases |run|
  {
    run != [] &&
    ((run[0].Post? && !b.hasCallback && run[0].evt.evtId in b.evtIds && |b.waiting| >= MAX_QUEUING_EVTDESC)
     || Overran(Apply(b, run[0]), run[1..]))
  }

  lemma PulledFirst(e: EvtDesc, rest: seq<EvtDesc>, waiting: seq<EvtDesc>, queued: seq<EvtDesc>, pulled: seq<EvtDesc>, left: seq<EvtDesc>)
    requires waiting == [e] + rest && pulled + left == rest + queued
    ensures [e] + pulled + left == waiting + queued
  {
    assert [e] + pulled + left == [e] + (pulled + left);
  }

  lemma QueuedLast(waiting: seq<EvtDesc>, more: seq<EvtDesc>, queued: seq<EvtDesc>)
    ensures waiting + more + queued == waiting + (more + queued)
  {
  }

  /** Pulls return the queued events in order, each once; what has not been pulled is still waiting. */
  lemma {:induction false} PulledInOrder(b: Inbox, run: seq<Action>)
    ensures Pulled(b, run) + Final(b, run).waiting == b.waiting + Queued(b, run)
    ensures |b.waiting| <= MAX_QUEUING_EVTDESC ==> |Final(b, run).waiting| <= MAX_QUEUING_EVTDESC
    decreases |run|
  {
    if run != [] {
      var b' := Apply(b, run[0]);
      PulledInOrder(b', run[1..]);
      var queued, pulled := Queued(b', run[1..]), Pulled(b', run[1..]);
      assert Final(b, run) == Final(b', run[1..]);
      if run[0].Pull? && b.waiting != [] {
        assert Pulled(b, run) == [b.waiting[0]] + pulled && Queued(b, run) == [] + queued == queued;
        PulledFirst(b.waiting[0], b'.waiting, b.waiting, queued, pulled, Final(b', run[1..]).waiting);
      } else {
        assert Pulled(b, run) == [] + pulled == pulled;
        if run[0].Post? && Admitted(b, run[0].evt) {
          QueuedLast(b.waiting, [run[0].evt], queued);
        } else {
          assert Queued(b, run) == [] + queued == queued;
        }
      }
    }
  }

  /** The events reported as posted are exactly those queued if and only if no post found the queue full. */
  lemma {:induction false} AllReportedQueuedIff(b: Inbox, run: seq<Action>)
    ensures |Queued(b, run)| <= |Reported(b, run)|
    ensures Queued(b, run) == Reported(b, run) <==> !Overran(b, run)
    decreases |run|
  {
    if run != [] {
      var b' := Apply(b, run[0]);
      AllReportedQueuedIff(b', run[1..]);
      var queued, reported := Queued(b', run[1..]), Reported(b', run[1..]);
      if run[0].Post? && !b.hasCallback && run[0].evt.evtId in b.evtIds {
        var e := [run[0].evt];
        assert Reported(b, run) == e + reported;
        if Admitted(b, run[0].evt) {
          assert Queued(b, run) == e + queued;
          assert (e + queued)[1..] == queued && (e + reported)[1..] == reported;
        } else {
          assert Queued(b, run) == queued;
        }
      } else {
        assert Queued(b, run) == queued && Reported(b, run) == reported;
      }
    }
  }

  /** A subscribed event posted onto a queue of 64 is reported as posted, and is not queued. */
  lemma FullQueueLosesReported(evt: EvtDesc, waiting: seq<EvtDesc>)
    requires |waiting| == MAX_QUEUING_EVTDESC
    ensures var b := Inbox(false, [evt.evtId], waiting);
            Reported(b, [Post(evt)]) == [evt] && Queued(b, [Post(evt)]) == []
  {
  }
}
