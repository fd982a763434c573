/**
 * The ConlesMode event engine as interleaved atomic steps: any number of posters, subscribers and unsubscribers, the one
 * processing thread, and calls made from inside the processing thread's callbacks.
 *
 * Every API call takes the link mutex before it does anything and gives it back as its last step, so at most one call is
 * past its lock at a time: `caller` is that call and its program point. A call that would wait for the mutex has done
 * nothing yet and needs no state. Each step is one critical section, one atomic load or one atomic add of the code.
 */
module ConlesEngine {
  import opened Results
  import opened EvtDescQueues
  import opened SuberTables
  import opened LinkStates
  import Slots

  datatype Blocking = NonBlock | Timed | MayBlock

  datatype Post = Post(evt: EvtDesc, sync: bool, blocking: Blocking)

  /** A delivery: about to take the snapshot, about to set the busy flag, or with the first `k` callbacks started. */
  datatype Delivery =
    | Collect(evt: EvtDesc)
    | Enter(evt: EvtDesc, who: seq<Consumer>)
    | Call(evt: EvtDesc, who: seq<Consumer>, k: nat)

  /** Program point of the call holding the link mutex. */
  datatype Pc =
    | CheckState(post: Post)
    | CheckSubers(post: Post)
    | TryEnqueue(post: Post)
    | CountUp(post: Post)
    | LoadQueued(post: Post)
    | LoadCallbacked(post: Post, queued: nat)
    | Deliver(post: Post, d: Delivery)
    | PostReturn(post: Post, result: Code)
    | SubEnter(args: SubEvtArgs)
    | SubTable(args: SubEvtArgs)
    | SubLeave(subResult: Code)
    | UnsubEnter(who: Consumer)
    | UnsubTable(who: Consumer)
    | UnsubLeave(unsubResult: Code)

  datatype Caller = NoCall | InCall(byProc: bool, pc: Pc)

  datatype Proc = Waiting | Dispatching(d: Delivery) | Counting

  /** History record of one snapshot: the event, the table as it then stood, and the consumers collected from it. */
  datatype Snapshotted = Snapshotted(evt: EvtDesc, subers: seq<Suber>, who: seq<Consumer>)

  datatype Called = Called(who: Consumer, evt: EvtDesc)

  datatype Returned = Returned(post: Post, result: Code)

  datatype State = State(
    caller: Caller,
    proc: Proc,
    queue: seq<EvtDesc>,            // contents of the 64-slot ring
    queuedEvtNum: nat,
    callbackedEvtNum: nat,
    table: Table,
    link: LinkState,
    // histories
    accepted: seq<EvtDesc>,         // enqueued, or taken on for synchronous delivery
    delivered: seq<Snapshotted>,    // deliveries begun
    calls: seq<Called>,             // callbacks begun
    returned: seq<Returned>)        // posts returned

  datatype Action =
    | StartPost(byProc: bool, post: Post)
    | StartSub(byProc: bool, args: SubEvtArgs)
    | StartUnsub(byProc: bool, who: Consumer)
    | Advance(expired: bool)        // next step of the call in progress; `expired`: its clock has run out
    | Dequeue
    | ProcAdvance

  function Init(subers: seq<Suber>): State {
    State(NoCall, Waiting, [], 0, 0, Table(subers, 0), LinkState(Ready, false, false, false), [], [], [], [])
  }

  /** The processing thread is inside a callback, the only place from which it can make calls of its own. */
  predicate ProcInCallback(s: State) {
    s.proc.Dispatching? && s.proc.d.Call? && s.proc.d.k > 0
  }

  /** The subscriber table's own mutex is held from the entry flag to the exit flag of a subscribe or unsubscribe. */
  predicate TableLocked(s: State) {
    s.caller.InCall? &&
    (s.caller.pc.SubTable? || s.caller.pc.SubLeave? || s.caller.pc.UnsubTable? || s.caller.pc.UnsubLeave?)
  }

  predicate Enabled(s: State, a: Action) {
    match a
    case StartPost(byProc, _) => s.caller.NoCall? && (byProc ==> ProcInCallback(s))
    case StartSub(byProc, _) => s.caller.NoCall? && (byProc ==> ProcInCallback(s))
    case StartUnsub(byProc, _) => s.caller.NoCall? && (byProc ==> ProcInCallback(s))
    case Advance(_) => s.caller.InCall?
    case Dequeue => s.proc.Waiting? && s.queue != []
    case ProcAdvance =>
      && !s.proc.Waiting?
      && !(s.caller.InCall? && s.caller.byProc)
      && (s.proc.Dispatching? && s.proc.d.Collect? ==> !TableLocked(s))
  }

  /** One step of a delivery; None when it is over. */
  function DeliverStep(s: State, d: Delivery): (State, Option<Delivery>) {
    match d
    case Collect(evt) =>
      var who := Snapshot(s.table.subers, evt.evtId);
      (s.(delivered := s.delivered + [Snapshotted(evt, s.table.subers, who)]), Some(Enter(evt, who)))
    case Enter(evt, who) =>
      (s.(link := Transferred(s.link, EnterCbProcEvt)), Some(Call(evt, who, 0)))
    case Call(evt, who, k) =>
      if k < |who| then (s.(calls := s.calls + [Called(who[k], evt)]), Some(Call(evt, who, k + 1)))
      else (s.(link := Transferred(s.link, LeaveCbProcEvt)), None)
  }

  function At(s: State, pc: Pc): State
    requires s.caller.InCall?
  {
    s.(caller := s.caller.(pc := pc))
  }

  function AdvancePost(s: State, expired: bool): State
    requires s.caller.InCall?
  {
    match s.caller.pc
    case CheckState(p) =>
      if p.sync && s.link.main == BusyCbProcEvt then At(s, PostReturn(p, FORBIDDEN)) else At(s, CheckSubers(p))
    case CheckSubers(p) =>
      if s.table.suberNum == 0 then At(s, PostReturn(p, NO_EVENT_CONSUMER))
      else At(s, if p.sync then LoadQueued(p) else TryEnqueue(p))
    case TryEnqueue(p) =>
      if |s.queue| < MAX_QUEUING_EVTDESC then
        At(s, CountUp(p)).(queue := s.queue + [p.evt], accepted := s.accepted + [p.evt])
      else if p.blocking.NonBlock? then At(s, PostReturn(p, TOO_MANY))
      else if p.blocking.Timed? && expired then At(s, PostReturn(p, TIMEOUT))
      else s
    case CountUp(p) => At(s, PostReturn(p, SUCCESS)).(queuedEvtNum := s.queuedEvtNum + 1)
    case LoadQueued(p) => At(s, LoadCallbacked(p, s.queuedEvtNum))
    case LoadCallbacked(p, queued) =>
      if queued == s.callbackedEvtNum then At(s, Deliver(p, Collect(p.evt))).(accepted := s.accepted + [p.evt])
      else if p.blocking.NonBlock? || (p.blocking.Timed? && expired) then
        At(s, PostReturn(p, TOO_LONG_EMPTYING_EVTDESC_QUEUE))
      else At(s, LoadQueued(p))
    case Deliver(p, d) =>
      var (s', d') := DeliverStep(s, d);
      if d'.Some? then At(s', Deliver(p, d'.value)) else At(s', PostReturn(p, SUCCESS))
    case PostReturn(p, r) => s.(caller := NoCall, returned := s.returned + [Returned(p, r)])
    case _ => s
  }

  function AdvanceSub(s: State): State
    requires s.caller.InCall?
  {
    match s.caller.pc
    case SubEnter(args) => At(s, SubTable(args)).(link := Transferred(s.link, EnterSubEvt))
    case SubTable(args) => var (r, t) := Inserted(s.table, args); At(s, SubLeave(r)).(table := t)
    case SubLeave(_) => s.(caller := NoCall, link := Transferred(s.link, LeaveSubEvt))
    case UnsubEnter(who) => At(s, UnsubTable(who)).(link := Transferred(s.link, EnterUnsubEvt))
    case UnsubTable(who) => var (r, t) := Removed(s.table, who); At(s, UnsubLeave(r)).(table := t)
    case UnsubLeave(_) => s.(caller := NoCall, link := Transferred(s.link, LeaveUnsubEvt))
    case _ => s
  }

  predicate IsPosting(pc: Pc) {
    pc.CheckState? || pc.CheckSubers? || pc.TryEnqueue? || pc.CountUp? || pc.LoadQueued? || pc.LoadCallbacked? ||
    pc.Deliver? || pc.PostReturn?
  }

  function ProcStep(s: State): State
    requires !s.proc.Waiting?
  {
    match s.proc
    case Dispatching(d) =>
      var (s', d') := DeliverStep(s, d);
      s'.(proc := if d'.Some? then Dispatching(d'.value) else Counting)
    case Counting => s.(proc := Waiting, callbackedEvtNum := s.callbackedEvtNum + 1)
  }

  function Apply(s: State, a: Action): State
    requires Enabled(s, a)
  {
    match a
    case StartPost(byProc, p) => s.(caller := InCall(byProc, CheckState(p)))
    case StartSub(byProc, args) => s.(caller := InCall(byProc, SubEnter(args)))
    case StartUnsub(byProc, who) => s.(caller := InCall(byProc, UnsubEnter(who)))
    case Advance(expired) => if IsPosting(s.caller.pc) then AdvancePost(s, expired) else AdvanceSub(s)
    case Dequeue => s.(proc := Dispatching(Collect(s.queue[0])), queue := s.queue[1..])
    case ProcAdvance => ProcStep(s)
  }

  /** `s` is what some interleaving `run` of steps leads to from an idle link whose table is empty. */
  ghost predicate Reaches(run: seq<Action>, s: State) {
    if run == [] then
      exists subers: seq<Suber> :: |subers| == MAX_SUBSCRIBER && (forall i :: 0 <= i < |subers| ==> !subers[i].subed) && s == Init(subers)
    else
      var n := |run| - 1;
      exists s0: State :: Reaches(run[..n], s0) && Enabled(s0, run[n]) && s == Apply(s0, run[n])
  }

  // ---------------------------------------------------------------------------------------------------------------
  // Views of a state

  predicate ProcDelivering(s: State) { s.proc.Dispatching? }

  predicate CallerDelivering(s: State) { s.caller.InCall? && s.caller.pc.Deliver? }

  /** The delivery in progress, if any. */
  function InProgress(s: State): Option<Delivery> {
    if s.proc.Dispatching? then Some(s.proc.d)
    else if CallerDelivering(s) then Some(s.caller.pc.d)
    else None
  }

  /** Accepted events whose delivery has been taken on but whose snapshot is still to come. */
  function Uncollected(s: State): seq<EvtDesc> {
    var d := InProgress(s);
    if d.Some? && d.value.Collect? then [d.value.evt] else []
  }

  function EvtsOf(ds: seq<Snapshotted>): (es: seq<EvtDesc>)
    ensures |es| == |ds|
  {
    seq(|ds|, i requires 0 <= i < |ds| => ds[i].evt)
  }

  function ToCalls(who: seq<Consumer>, evt: EvtDesc): (cs: seq<Called>)
    ensures |cs| == |who|
  {
    seq(|who|, i requires 0 <= i < |who| => Called(who[i], evt))
  }

  /** All callbacks that a sequence of snapshots asks for, in order. */
  function CallsOf(ds: seq<Snapshotted>): seq<Called> {
    if ds == [] then [] else CallsOf(ds[..|ds| - 1]) + ToCalls(ds[|ds| - 1].who, ds[|ds| - 1].evt)
  }

  /** Callbacks that the delivery in progress still owes. */
  function OwedCalls(s: State): seq<Called> {
    match InProgress(s)
    case Some(Enter(evt, who)) => ToCalls(who, evt)
    case Some(Call(evt, who, k)) => if k <= |who| then ToCalls(who[k..], evt) else []
    case _ => []
  }

  /** Events of the posts that returned success, in order of return. */
  function Successes(rs: seq<Returned>): seq<EvtDesc> {
    if rs == [] then []
    else
      var last := rs[|rs| - 1];
      Successes(rs[..|rs| - 1]) + if last.result == SUCCESS then [last.post.evt] else []
  }

  /** The event of the call in progress, if that call has already been accepted. */
  function AcceptedUnreturned(s: State): seq<EvtDesc> {
    if s.caller.NoCall? then []
    else
      match s.caller.pc
      case CountUp(p) => [p.evt]
      case Deliver(p, _) => [p.evt]
      case PostReturn(p, r) => if r == SUCCESS then [p.evt] else []
      case _ => []
  }

  // ---------------------------------------------------------------------------------------------------------------
  // The invariant

  /** The two counters, the poster's pending increment, the ring and the event in flight add up. */
  predicate CountersAgree(s: State) {
    s.queuedEvtNum + (if s.caller.InCall? && s.caller.pc.CountUp? then 1 else 0)
      == s.callbackedEvtNum + |s.queue| + (if s.proc.Waiting? then 0 else 1)
  }

  /** A synchronous poster's loaded counter is current, and it delivers only over an empty ring and an idle thread. */
  predicate SyncExclusive(s: State) {
    && (s.caller.InCall? && s.caller.pc.LoadCallbacked? ==> s.caller.pc.queued == s.queuedEvtNum)
    && (CallerDelivering(s) ==> s.queue == [] && s.proc.Waiting?)
  }

  predicate FlagsExact(s: State) {
    && s.link.main == Priority(s.link.isInCbProc, s.link.isInSub, s.link.isInUnsub)
    && (s.link.isInCbProc <==> InProgress(s).Some? && InProgress(s).value.Call?)
    && (s.link.isInSub <==> s.caller.InCall? && (s.caller.pc.SubTable? || s.caller.pc.SubLeave?))
    && (s.link.isInUnsub <==> s.caller.InCall? && (s.caller.pc.UnsubTable? || s.caller.pc.UnsubLeave?))
  }

  /** Posts stay on the path of their mode, and a synchronous one made by the processing thread never gets past its check. */
  predicate PathsKept(s: State) {
    s.caller.InCall? ==>
      && (s.caller.byProc ==> ProcInCallback(s))
      && (s.caller.pc.TryEnqueue? || s.caller.pc.CountUp? ==> !s.caller.pc.post.sync)
      && (s.caller.pc.LoadQueued? || s.caller.pc.LoadCallbacked? || s.caller.pc.Deliver? ==>
            s.caller.pc.post.sync && !s.caller.byProc)
      && (s.caller.pc.CheckSubers? && s.caller.byProc ==> !s.caller.pc.post.sync)
      && (s.caller.pc.PostReturn? && s.caller.byProc && s.caller.pc.post.sync ==> s.caller.pc.result == FORBIDDEN)
      && (s.caller.pc.Deliver? ==> s.caller.pc.d.evt == s.caller.pc.post.evt)
  }

  predicate DeliveredThenQueued(s: State) {
    s.accepted == EvtsOf(s.delivered) + Uncollected(s) + s.queue
  }

  predicate CallsExact(s: State) {
    && s.calls + OwedCalls(s) == CallsOf(s.delivered)
    && (InProgress(s).Some? && InProgress(s).value.Call? ==> InProgress(s).value.k <= |InProgress(s).value.who|)
  }

  predicate HistoryOrdered(s: State) {
    DeliveredThenQueued(s) && s.accepted == Successes(s.returned) + AcceptedUnreturned(s) && CallsExact(s)
  }

  /** Every snapshot was taken from a table without doubles and holds exactly what that table asked for. */
  ghost predicate SnapshotsTrue(s: State) {
    && Consistent(s.table)
    && forall i :: 0 <= i < |s.delivered| ==>
                     && DistinctConsumers(s.delivered[i].subers)
                     && s.delivered[i].who == Snapshot(s.delivered[i].subers, s.delivered[i].evt.evtId)
  }

  predicate Control(s: State) {
    && |s.queue| <= MAX_QUEUING_EVTDESC
    && CountersAgree(s)
    && SyncExclusive(s)
    && FlagsExact(s)
    && PathsKept(s)
  }

  ghost predicate Inv(s: State) {
    Control(s) && HistoryOrdered(s) && SnapshotsTrue(s)
  }

  // ---------------------------------------------------------------------------------------------------------------
  // The invariant holds in every reachable state

  lemma AsyncPostKeepsControl(s: State, expired: bool)
    requires Control(s) && s.caller.InCall?
    requires s.caller.pc.CheckState? || s.caller.pc.CheckSubers? || s.caller.pc.TryEnqueue? || s.caller.pc.CountUp?
    ensures Control(AdvancePost(s, expired))
  {
  }

  lemma SyncPostKeepsControl(s: State, expired: bool)
    requires Control(s) && s.caller.InCall?
    requires s.caller.pc.LoadQueued? || s.caller.pc.LoadCallbacked? || s.caller.pc.PostReturn?
    ensures Control(AdvancePost(s, expired))
  {
  }

  lemma PostKeepsControl(s: State, expired: bool)
    requires Control(s) && s.caller.InCall? && IsPosting(s.caller.pc) && !s.caller.pc.Deliver?
    ensures Control(AdvancePost(s, expired))
  {
    if s.caller.pc.LoadQueued? || s.caller.pc.LoadCallbacked? || s.caller.pc.PostReturn? {
      SyncPostKeepsControl(s, expired);
    } else {
      AsyncPostKeepsControl(s, expired);
    }
  }

  lemma CallerDeliverKeepsControl(s: State, expired: bool)
    requires Control(s) && CallerDelivering(s)
    ensures Control(AdvancePost(s, expired))
  {
    var (s', d') := DeliverStep(s, s.caller.pc.d);
    assert s'.table == s.table && s'.queue == s.queue && s'.caller == s.caller && s'.proc == s.proc;
  }

  lemma ProcKeepsControl(s: State)
    requires Control(s) && Enabled(s, ProcAdvance)
    ensures Control(ProcStep(s))
  {
  }

  /** The middle step of a subscribe or unsubscribe, whatever it makes of the table. */
  lemma TableStepKeepsControl(s: State, pc: Pc, t: Table)
    requires Control(s) && s.caller.InCall?
    requires (s.caller.pc.SubTable? && pc.SubLeave?) || (s.caller.pc.UnsubTable? && pc.UnsubLeave?)
    ensures Control(At(s, pc).(table := t))
  {
  }

  /** Its first and its last step. */
  lemma FlagStepKeepsControl(s: State)
    requires Control(s) && s.caller.InCall?
    requires s.caller.pc.SubEnter? || s.caller.pc.SubLeave? || s.caller.pc.UnsubEnter? || s.caller.pc.UnsubLeave?
    ensures Control(AdvanceSub(s))
  {
  }

  lemma SubKeepsControl(s: State)
    requires Control(s) && s.caller.InCall? && !IsPosting(s.caller.pc)
    ensures Control(AdvanceSub(s))
  {
    match s.caller.pc {
      case SubTable(args) =>
        var (r, t) := Inserted(s.table, args);
        TableStepKeepsControl(s, SubLeave(r), t);
      case UnsubTable(who) =>
        var (r, t) := Removed(s.table, who);
        TableStepKeepsControl(s, UnsubLeave(r), t);
      case _ => FlagStepKeepsControl(s);
    }
  }

  /** A call just begun: nothing but the caller has changed, and it is at its first step. */
  lemma StartKeepsControl(s: State, byProc: bool, pc: Pc)
    requires Control(s) && s.caller.NoCall? && (byProc ==> ProcInCallback(s))
    requires pc.CheckState? || pc.SubEnter? || pc.UnsubEnter?
    ensures Control(s.(caller := InCall(byProc, pc)))
  {
  }

  lemma DequeueKeepsControl(s: State)
    requires Control(s) && Enabled(s, Dequeue)
    ensures Control(Apply(s, Dequeue))
  {
  }

  lemma StepKeepsControl(s: State, a: Action)
    requires Control(s) && Enabled(s, a)
    ensures Control(Apply(s, a))
  {
    match a {
      case StartPost(byProc, p) => StartKeepsControl(s, byProc, CheckState(p));
      case StartSub(byProc, args) => StartKeepsControl(s, byProc, SubEnter(args));
      case StartUnsub(byProc, who) => StartKeepsControl(s, byProc, UnsubEnter(who));
      case Dequeue => DequeueKeepsControl(s);
      case ProcAdvance => ProcKeepsControl(s);
      case Advance(expired) =>
        if s.caller.pc.Deliver? { CallerDeliverKeepsControl(s, expired); }
        else if IsPosting(s.caller.pc) { PostKeepsControl(s, expired); }
        else { SubKeepsControl(s); }
    }
  }

  lemma CallsOfAppend(ds: seq<Snapshotted>, d: Snapshotted)
    ensures CallsOf(ds + [d]) == CallsOf(ds) + ToCalls(d.who, d.evt)
  {
    assert (ds + [d])[..|ds|] == ds;
  }

  lemma SuccessesAppend(rs: seq<Returned>, r: Returned)
    ensures Successes(rs + [r]) == Successes(rs) + if r.result == SUCCESS then [r.post.evt] else []
  {
    assert (rs + [r])[..|rs|] == rs;
  }

  /** One delivery step moves the event from accepted to delivered, or a callback from owed to made; nothing else. */
  lemma DeliverStepHistory(s: State, d: Delivery, owed: seq<Called>)
    requires d.Call? ==> d.k <= |d.who| && owed == ToCalls(d.who[d.k..], d.evt)
    requires d.Enter? ==> owed == ToCalls(d.who, d.evt)
    requires d.Collect? ==> owed == []
    requires s.calls + owed == CallsOf(s.delivered)
    ensures var (s', d') := DeliverStep(s, d);
            && EvtsOf(s'.delivered) == EvtsOf(s.delivered) + (if d.Collect? then [d.evt] else [])
            && (d'.Some? ==> d'.value.evt == d.evt && !d'.value.Collect?)
            && (d'.Some? && d'.value.Enter? ==> s'.calls + ToCalls(d'.value.who, d.evt) == CallsOf(s'.delivered))
            && (d'.Some? && d'.value.Call? ==>
                  d'.value.k <= |d'.value.who| && s'.calls + ToCalls(d'.value.who[d'.value.k..], d.evt) == CallsOf(s'.delivered))
            && (d'.None? ==> s'.calls == CallsOf(s'.delivered))
  {
    match d {
      case Collect(evt) =>
        CallsOfAppend(s.delivered, Snapshotted(evt, s.table.subers, Snapshot(s.table.subers, evt.evtId)));
      case Enter(evt, who) =>
        assert who[0..] == who;
      case Call(evt, who, k) =>
        if k < |who| {
          assert ToCalls(who[k..], evt) == [Called(who[k], evt)] + ToCalls(who[k + 1..], evt);
        }
    }
  }

  /** A step that delivers: it moves the delivery in progress on and touches nothing else that the histories speak of. */
  predicate Delivers(s: State, s': State, d: Delivery, d': Option<Delivery>) {
    && InProgress(s) == Some(d) && DeliverStep(s, d).1 == d' && InProgress(s') == d'
    && s'.delivered == DeliverStep(s, d).0.delivered && s'.calls == DeliverStep(s, d).0.calls
    && s'.queue == s.queue && s'.accepted == s.accepted && s'.returned == s.returned
    && AcceptedUnreturned(s') == AcceptedUnreturned(s)
  }

  lemma DeliveryKeepsHistory(s: State, s': State, d: Delivery, d': Option<Delivery>)
    requires HistoryOrdered(s) && Delivers(s, s', d, d')
    ensures HistoryOrdered(s')
  {
    DeliverStepHistory(s, d, OwedCalls(s));
    DeliveryKeepsQueued(s, s', d, d');
    DeliveryKeepsCalls(s, s', d, d');
  }

  lemma DeliveryKeepsQueued(s: State, s': State, d: Delivery, d': Option<Delivery>)
    requires DeliveredThenQueued(s) && Delivers(s, s', d, d')
    requires EvtsOf(s'.delivered) == EvtsOf(s.delivered) + (if d.Collect? then [d.evt] else [])
    requires d'.Some? ==> !d'.value.Collect?
    ensures DeliveredThenQueued(s')
  {
    assert Uncollected(s) == (if d.Collect? then [d.evt] else []) && Uncollected(s') == [];
    assert EvtsOf(s'.delivered) + [] == EvtsOf(s.delivered) + Uncollected(s);
  }

  lemma DeliveryKeepsCalls(s: State, s': State, d: Delivery, d': Option<Delivery>)
    requires Delivers(s, s', d, d')
    requires d'.Some? ==> d'.value.evt == d.evt && !d'.value.Collect?
    requires d'.Some? && d'.value.Enter? ==> s'.calls + ToCalls(d'.value.who, d.evt) == CallsOf(s'.delivered)
    requires d'.Some? && d'.value.Call? ==>
               d'.value.k <= |d'.value.who| && s'.calls + ToCalls(d'.value.who[d'.value.k..], d.evt) == CallsOf(s'.delivered)
    requires d'.None? ==> s'.calls == CallsOf(s'.delivered)
    ensures CallsExact(s')
  {
    assert s'.calls + [] == s'.calls;
  }

  /** A step that touches neither the queue nor a history nor the delivery in progress. */
  predicate Quietly(s: State, s': State) {
    && InProgress(s') == InProgress(s) && AcceptedUnreturned(s') == AcceptedUnreturned(s)
    && s'.queue == s.queue && s'.accepted == s.accepted && s'.returned == s.returned
    && s'.delivered == s.delivered && s'.calls == s.calls
  }

  lemma QuietKeepsHistory(s: State, s': State)
    requires HistoryOrdered(s) && Quietly(s, s')
    ensures HistoryOrdered(s')
  {
  }

  /** A step that accepts an event of a call not yet returned, for the ring or for delivery. */
  predicate Accepts(s: State, s': State, evt: EvtDesc) {
    && AcceptedUnreturned(s) == [] && AcceptedUnreturned(s') == [evt]
    && s'.accepted == s.accepted + [evt] && s'.returned == s.returned
    && s'.delivered == s.delivered && s'.calls == s.calls
  }

  lemma EnqueuedKeepsHistory(s: State, s': State, evt: EvtDesc)
    requires HistoryOrdered(s) && Accepts(s, s', evt) && InProgress(s') == InProgress(s) && s'.queue == s.queue + [evt]
    ensures HistoryOrdered(s')
  {
    var before := EvtsOf(s.delivered) + Uncollected(s);
    assert before + (s.queue + [evt]) == before + s.queue + [evt];
    assert Successes(s.returned) + [] == Successes(s.returned);
  }

  lemma EnqueueAccepts(s: State, expired: bool)
    requires s.caller.InCall? && s.caller.pc.TryEnqueue?
    ensures var s' := AdvancePost(s, expired);
            if |s.queue| < MAX_QUEUING_EVTDESC then
              var evt := s.caller.pc.post.evt;
              Accepts(s, s', evt) && InProgress(s') == InProgress(s) && s'.queue == s.queue + [evt]
            else Quietly(s, s')
  {
  }

  lemma EnqueueKeepsHistory(s: State, expired: bool)
    requires HistoryOrdered(s) && s.caller.InCall? && s.caller.pc.TryEnqueue?
    ensures HistoryOrdered(AdvancePost(s, expired))
  {
    EnqueueAccepts(s, expired);
    if |s.queue| < MAX_QUEUING_EVTDESC {
      EnqueuedKeepsHistory(s, AdvancePost(s, expired), s.caller.pc.post.evt);
    } else {
      QuietKeepsHistory(s, AdvancePost(s, expired));
    }
  }

  lemma TakenOnKeepsHistory(s: State, s': State, evt: EvtDesc)
    requires HistoryOrdered(s) && Accepts(s, s', evt)
    requires s.queue == [] && InProgress(s).None? && s'.queue == [] && InProgress(s') == Some(Collect(evt))
    ensures HistoryOrdered(s')
  {
  }

  /** Where the two loaded counters agree nothing is queued or in flight. */
  lemma LoadCallbackedAccepts(s: State, expired: bool)
    requires CountersAgree(s) && SyncExclusive(s) && s.caller.InCall? && s.caller.pc.LoadCallbacked?
    ensures var s' := AdvancePost(s, expired);
            if s.caller.pc.queued == s.callbackedEvtNum then
              var evt := s.caller.pc.post.evt;
              && Accepts(s, s', evt)
              && s.queue == [] && InProgress(s).None? && s'.queue == [] && InProgress(s') == Some(Collect(evt))
            else Quietly(s, s')
  {
  }

  /** So the delivery taken on there is the next in order. */
  lemma LoadCallbackedKeepsHistory(s: State, expired: bool)
    requires CountersAgree(s) && SyncExclusive(s) && HistoryOrdered(s)
    requires s.caller.InCall? && s.caller.pc.LoadCallbacked?
    ensures HistoryOrdered(AdvancePost(s, expired))
  {
    LoadCallbackedAccepts(s, expired);
    if s.caller.pc.queued == s.callbackedEvtNum {
      TakenOnKeepsHistory(s, AdvancePost(s, expired), s.caller.pc.post.evt);
    } else {
      QuietKeepsHistory(s, AdvancePost(s, expired));
    }
  }

  /** A post that returns moves its event, if it was accepted, to the successes. */
  predicate Returns(s: State, s': State, r: Returned) {
    && InProgress(s') == InProgress(s)
    && AcceptedUnreturned(s) == (if r.result == SUCCESS then [r.post.evt] else []) && AcceptedUnreturned(s') == []
    && s'.queue == s.queue && s'.accepted == s.accepted && s'.returned == s.returned + [r]
    && s'.delivered == s.delivered && s'.calls == s.calls
  }

  lemma ReturnedKeepsHistory(s: State, s': State, r: Returned)
    requires HistoryOrdered(s) && Returns(s, s', r)
    ensures HistoryOrdered(s')
  {
    SuccessesAppend(s.returned, r);
  }

  lemma PostReturns(s: State, expired: bool)
    requires s.caller.InCall? && s.caller.pc.PostReturn?
    ensures Returns(s, AdvancePost(s, expired), Returned(s.caller.pc.post, s.caller.pc.result))
  {
  }

  lemma ReturnKeepsHistory(s: State, expired: bool)
    requires HistoryOrdered(s) && s.caller.InCall? && s.caller.pc.PostReturn?
    ensures HistoryOrdered(AdvancePost(s, expired))
  {
    PostReturns(s, expired);
    ReturnedKeepsHistory(s, AdvancePost(s, expired), Returned(s.caller.pc.post, s.caller.pc.result));
  }

  lemma CallerDelivers(s: State, expired: bool)
    requires SyncExclusive(s) && CallerDelivering(s)
    ensures Delivers(s, AdvancePost(s, expired), s.caller.pc.d, DeliverStep(s, s.caller.pc.d).1)
  {
  }

  lemma CallerDeliverKeepsHistory(s: State, expired: bool)
    requires SyncExclusive(s) && HistoryOrdered(s) && CallerDelivering(s)
    ensures HistoryOrdered(AdvancePost(s, expired))
  {
    CallerDelivers(s, expired);
    DeliveryKeepsHistory(s, AdvancePost(s, expired), s.caller.pc.d, DeliverStep(s, s.caller.pc.d).1);
  }

  /** The steps of a post that only check or count. */
  predicate OnlyChecks(pc: Pc) {
    pc.CheckState? || pc.CheckSubers? || pc.CountUp? || pc.LoadQueued?
  }

  lemma CheckIsQuiet(s: State, expired: bool)
    requires s.caller.InCall? && OnlyChecks(s.caller.pc)
    ensures Quietly(s, AdvancePost(s, expired))
  {
  }

  lemma CheckKeepsHistory(s: State, expired: bool)
    requires HistoryOrdered(s) && s.caller.InCall? && OnlyChecks(s.caller.pc)
    ensures HistoryOrdered(AdvancePost(s, expired))
  {
    CheckIsQuiet(s, expired);
    QuietKeepsHistory(s, AdvancePost(s, expired));
  }

  lemma CallerKeepsHistory(s: State, expired: bool)
    requires CountersAgree(s) && SyncExclusive(s) && HistoryOrdered(s) && s.caller.InCall? && IsPosting(s.caller.pc)
    ensures HistoryOrdered(AdvancePost(s, expired))
  {
    match s.caller.pc {
      case TryEnqueue(_) => EnqueueKeepsHistory(s, expired);
      case LoadCallbacked(_, _) => LoadCallbackedKeepsHistory(s, expired);
      case PostReturn(_, _) => ReturnKeepsHistory(s, expired);
      case Deliver(_, _) => CallerDeliverKeepsHistory(s, expired);
      case _ => CheckKeepsHistory(s, expired);
    }
  }

  lemma ProcDelivers(s: State)
    requires SyncExclusive(s) && !s.proc.Waiting?
    ensures if s.proc.Dispatching? then Delivers(s, ProcStep(s), s.proc.d, DeliverStep(s, s.proc.d).1)
            else Quietly(s, ProcStep(s))
  {
  }

  lemma ProcKeepsHistory(s: State)
    requires HistoryOrdered(s) && !s.proc.Waiting? && SyncExclusive(s)
    ensures HistoryOrdered(ProcStep(s))
  {
    ProcDelivers(s);
    if s.proc.Dispatching? {
      DeliveryKeepsHistory(s, ProcStep(s), s.proc.d, DeliverStep(s, s.proc.d).1);
    } else {
      QuietKeepsHistory(s, ProcStep(s));
    }
  }

  lemma DequeueKeepsHistory(s: State)
    requires HistoryOrdered(s) && Enabled(s, Dequeue) && SyncExclusive(s)
    ensures HistoryOrdered(Apply(s, Dequeue))
  {
    assert s.queue == [s.queue[0]] + s.queue[1..];
  }

  lemma SubIsQuiet(s: State)
    requires s.caller.InCall? && !IsPosting(s.caller.pc)
    ensures Quietly(s, AdvanceSub(s))
  {
  }

  lemma SubKeepsHistory(s: State)
    requires HistoryOrdered(s) && s.caller.InCall? && !IsPosting(s.caller.pc)
    ensures HistoryOrdered(AdvanceSub(s))
  {
    SubIsQuiet(s);
    QuietKeepsHistory(s, AdvanceSub(s));
  }

  lemma StartKeepsHistory(s: State, byProc: bool, pc: Pc)
    requires HistoryOrdered(s) && s.caller.NoCall? && (pc.CheckState? || pc.SubEnter? || pc.UnsubEnter?)
    ensures HistoryOrdered(s.(caller := InCall(byProc, pc)))
  {
    QuietKeepsHistory(s, s.(caller := InCall(byProc, pc)));
  }

  lemma StepKeepsHistory(s: State, a: Action)
    requires CountersAgree(s) && SyncExclusive(s) && HistoryOrdered(s) && Enabled(s, a)
    ensures HistoryOrdered(Apply(s, a))
  {
    match a {
      case StartPost(byProc, p) => StartKeepsHistory(s, byProc, CheckState(p));
      case StartSub(byProc, args) => StartKeepsHistory(s, byProc, SubEnter(args));
      case StartUnsub(byProc, who) => StartKeepsHistory(s, byProc, UnsubEnter(who));
      case Dequeue => DequeueKeepsHistory(s);
      case ProcAdvance => ProcKeepsHistory(s);
      case Advance(expired) => if IsPosting(s.caller.pc) { CallerKeepsHistory(s, expired); } else { SubKeepsHistory(s); }
    }
  }

  lemma DeliveryKeepsSnapshots(s: State, d: Delivery)
    requires SnapshotsTrue(s)
    ensures SnapshotsTrue(DeliverStep(s, d).0)
  {
  }

  lemma SubKeepsSnapshots(s: State)
    requires SnapshotsTrue(s) && s.caller.InCall?
    ensures SnapshotsTrue(AdvanceSub(s))
  {
    match s.caller.pc {
      case SubTable(args) => InsertRegisters(s.table, args);
      case UnsubTable(who) => RemoveUnregisters(s.table, who);
      case _ =>
    }
  }

  lemma PostKeepsSnapshots(s: State, expired: bool)
    requires SnapshotsTrue(s) && s.caller.InCall? && IsPosting(s.caller.pc)
    ensures SnapshotsTrue(AdvancePost(s, expired))
  {
    if s.caller.pc.Deliver? {
      DeliveryKeepsSnapshots(s, s.caller.pc.d);
    }
  }

  lemma StepKeepsSnapshots(s: State, a: Action)
    requires SnapshotsTrue(s) && Enabled(s, a)
    ensures SnapshotsTrue(Apply(s, a))
  {
    match a {
      case ProcAdvance => if s.proc.Dispatching? { DeliveryKeepsSnapshots(s, s.proc.d); }
      case Advance(expired) => if IsPosting(s.caller.pc) { PostKeepsSnapshots(s, expired); } else { SubKeepsSnapshots(s); }
      case _ =>
    }
  }

  lemma {:induction false} ReachableInv(run: seq<Action>, s: State)
    requires Reaches(run, s)
    ensures Inv(s)
  {
    if run == [] {
      Slots.CountIsZero(s.table.subers, IsSubed);
    } else {
      var n := |run| - 1;
      var s0: State :| Reaches(run[..n], s0) && Enabled(s0, run[n]) && s == Apply(s0, run[n]);
      ReachableInv(run[..n], s0);
      StepKeepsControl(s0, run[n]);
      StepKeepsHistory(s0, run[n]);
      StepKeepsSnapshots(s0, run[n]);
    }
  }

  // ---------------------------------------------------------------------------------------------------------------
  // What follows for every interleaving

  /**
   * Deliveries begin in the order the events were accepted, synchronous posts included, with nothing skipped: the
   * delivered events are a prefix of the accepted ones, and all of them once nothing is queued or in flight. Accepted
   * events are those of the posts that returned success, plus at most the one about to return it.
   */
  lemma DeliveredInAcceptedOrder(run: seq<Action>, s: State)
    requires Reaches(run, s)
    ensures EvtsOf(s.delivered) <= s.accepted
    ensures s.queue == [] && InProgress(s).None? ==> EvtsOf(s.delivered) == s.accepted
    ensures Successes(s.returned) <= s.accepted
    ensures s.caller.NoCall? ==> Successes(s.returned) == s.accepted
    ensures |s.accepted| <= |Successes(s.returned)| + 1
    ensures |s.queue| <= MAX_QUEUING_EVTDESC
  {
    ReachableInv(run, s);
  }

  /** Never two deliveries at once, the callback flag is up exactly from its enter step to its leave step, and Main is exact. */
  lemma AtMostOneDelivery(run: seq<Action>, s: State)
    requires Reaches(run, s)
    ensures !(ProcDelivering(s) && CallerDelivering(s))
    ensures s.link.isInCbProc <==> InProgress(s).Some? && InProgress(s).value.Call?
    ensures s.link.main == Priority(s.link.isInCbProc, s.link.isInSub, s.link.isInUnsub)
    ensures !(s.link.isInSub && s.link.isInUnsub)
  {
    ReachableInv(run, s);
  }

  /**
   * The test a synchronous post makes with two separate loads is exact although the counters move between them: it goes
   * on to deliver if and only if the ring is empty and the processing thread has nothing in flight.
   */
  lemma SyncPostDeliversIffDrained(run: seq<Action>, s: State, expired: bool)
    requires Reaches(run, s) && s.caller.InCall? && s.caller.pc.LoadCallbacked?
    ensures CallerDelivering(AdvancePost(s, expired)) <==> s.queue == [] && s.proc.Waiting?
  {
    ReachableInv(run, s);
  }

  // What each call is answered: the check that decides it, with exactly the condition it decides by

  /** FORBIDDEN: a synchronous post that finds the processing thread calling back. Any other post goes on. */
  lemma ForbiddenIff(run: seq<Action>, s: State, expired: bool)
    requires Reaches(run, s) && s.caller.InCall? && s.caller.pc.CheckState?
    ensures var p := s.caller.pc.post;
            && (Apply(s, Advance(expired)) == At(s, PostReturn(p, FORBIDDEN)) <==> p.sync && s.proc.Dispatching? && s.proc.d.Call?)
            && (Apply(s, Advance(expired)) == At(s, CheckSubers(p)) <==> !(p.sync && s.proc.Dispatching? && s.proc.d.Call?))
  {
    ReachableInv(run, s);
  }

  /** A table's counter is zero exactly when nobody is registered. */
  lemma NobodyIffZero(t: Table)
    requires Consistent(t)
    ensures t.suberNum == 0 <==> forall who :: !Registered(t.subers, who)
  {
    Slots.CountIsZero(t.subers, IsSubed);
    if t.suberNum != 0 {
      var i :| 0 <= i < |t.subers| && IsSubed(t.subers[i]);
      assert Holds(t.subers[i], t.subers[i].args.who);
      assert Registered(t.subers, t.subers[i].args.who);
    }
  }

  /** NO_EVENT_CONSUMER: nobody is registered. Otherwise a post goes on in its own mode. */
  lemma NoConsumerIff(run: seq<Action>, s: State, expired: bool)
    requires Reaches(run, s) && s.caller.InCall? && s.caller.pc.CheckSubers?
    ensures var p := s.caller.pc.post;
            && (Apply(s, Advance(expired)) == At(s, PostReturn(p, NO_EVENT_CONSUMER)) <==> forall w :: !Registered(s.table.subers, w))
            && (Apply(s, Advance(expired)) == At(s, if p.sync then LoadQueued(p) else TryEnqueue(p))
                <==> exists w :: Registered(s.table.subers, w))
  {
    ReachableInv(run, s);
    NobodyIffZero(s.table);
  }

  /**
   * An asynchronous post, each time it tries: accepted exactly if the ring has room; TOO_MANY exactly if it is full and
   * the post may not block; TIMEOUT exactly if it is full and the post's time is up; and otherwise it tries again.
   */
  lemma AsyncPostAnswered(run: seq<Action>, s: State, expired: bool)
    requires Reaches(run, s) && s.caller.InCall? && s.caller.pc.TryEnqueue?
    ensures var p := s.caller.pc.post;
            var s' := Apply(s, Advance(expired));
            && |s.queue| <= MAX_QUEUING_EVTDESC
            && (s'.caller.pc == CountUp(p) <==> |s.queue| < MAX_QUEUING_EVTDESC)
            && (s'.caller.pc == PostReturn(p, TOO_MANY) <==> |s.queue| == MAX_QUEUING_EVTDESC && p.blocking.NonBlock?)
            && (s'.caller.pc == PostReturn(p, TIMEOUT) <==> |s.queue| == MAX_QUEUING_EVTDESC && p.blocking.Timed? && expired)
            && (s' == s <==> |s.queue| == MAX_QUEUING_EVTDESC && (p.blocking.MayBlock? || (p.blocking.Timed? && !expired)))
  {
    ReachableInv(run, s);
  }

  /**
   * A synchronous post, each time it has made its two loads: it delivers exactly if nothing is queued or in flight;
   * TOO_LONG_EMPTYING_EVTDESC_QUEUE exactly if something is and the post may not block or its time is up; and otherwise it
   * loads again.
   */
  lemma SyncPostAnswered(run: seq<Action>, s: State, expired: bool)
    requires Reaches(run, s) && s.caller.InCall? && s.caller.pc.LoadCallbacked?
    ensures var p := s.caller.pc.post;
            var pc' := Apply(s, Advance(expired)).caller.pc;
            var drained := s.queue == [] && s.proc.Waiting?;
            var givesUp := p.blocking.NonBlock? || (p.blocking.Timed? && expired);
            && Apply(s, Advance(expired)).caller.InCall?
            && (pc' == Deliver(p, Collect(p.evt)) <==> drained)
            && (pc' == PostReturn(p, TOO_LONG_EMPTYING_EVTDESC_QUEUE) <==> !drained && givesUp)
            && (pc' == LoadQueued(p) <==> !drained && !givesUp)
  {
    ReachableInv(run, s);
  }

  /**
   * A subscribe call, in its turn at the table: TOO_MANY exactly if the table is full, CONFLICT exactly if it is not and
   * has the consumer, SUCCESS exactly otherwise, and from then on the consumer listens for exactly the events it named.
   */
  lemma SubscribeAnswered(run: seq<Action>, s: State, expired: bool)
    requires Reaches(run, s) && s.caller.InCall? && s.caller.pc.SubTable?
    ensures var args := s.caller.pc.args;
            var s' := Apply(s, Advance(expired));
            && s'.caller.InCall? && s'.caller.pc.SubLeave?
            && (s'.caller.pc.subResult == TOO_MANY <==> CountSubed(s.table.subers) == MAX_SUBSCRIBER)
            && (s'.caller.pc.subResult == CONFLICT
                <==> CountSubed(s.table.subers) < MAX_SUBSCRIBER && Registered(s.table.subers, args.who))
            && (s'.caller.pc.subResult == SUCCESS
                <==> CountSubed(s.table.subers) < MAX_SUBSCRIBER && !Registered(s.table.subers, args.who))
            && (s'.caller.pc.subResult == SUCCESS ==>
                  forall id :: Listens(s'.table.subers, args.who, id) <==> Wants(args, id))
            && (forall w, id :: w != args.who || s'.caller.pc.subResult != SUCCESS ==>
                  (Listens(s'.table.subers, w, id) <==> Listens(s.table.subers, w, id)))
  {
    ReachableInv(run, s);
    InsertListens(s.table, s.caller.pc.args);
  }

  /** An unsubscribe call: from then on the consumer listens for nothing, and everybody else for what they did. */
  lemma UnsubscribeAnswered(run: seq<Action>, s: State, expired: bool)
    requires Reaches(run, s) && s.caller.InCall? && s.caller.pc.UnsubTable?
    ensures var who := s.caller.pc.who;
            var s' := Apply(s, Advance(expired));
            && s'.caller.InCall? && s'.caller.pc.UnsubLeave?
            && (s'.caller.pc.unsubResult == NO_EVENT_CONSUMER <==> forall w :: !Registered(s.table.subers, w))
            && (s'.caller.pc.unsubResult == SUCCESS <==> exists w :: Registered(s.table.subers, w))
            && (forall w, id :: Listens(s'.table.subers, w, id) <==> w != who && Listens(s.table.subers, w, id))
  {
    ReachableInv(run, s);
    NobodyIffZero(s.table);
    RemoveUnregisters(s.table, s.caller.pc.who);
    RemoveListens(s.table, s.caller.pc.who);
  }

  /** A post ends exactly at its return, with the result its check decided, and gives the link back. */
  lemma PostCallReturns(s: State, expired: bool)
    requires s.caller.InCall? && IsPosting(s.caller.pc)
    ensures var s' := Apply(s, Advance(expired));
            && (s'.caller.NoCall? <==> s.caller.pc.PostReturn?)
            && s'.returned == s.returned + if s.caller.pc.PostReturn? then [Returned(s.caller.pc.post, s.caller.pc.result)] else []
  {
    if s.caller.pc.Deliver? {
      assert DeliverStep(s, s.caller.pc.d).0.returned == s.returned;
    }
  }

  /** So do subscribe and unsubscribe. */
  lemma SubCallReturns(s: State, expired: bool)
    requires s.caller.InCall? && !IsPosting(s.caller.pc)
    ensures Apply(s, Advance(expired)).caller.NoCall? <==> s.caller.pc.SubLeave? || s.caller.pc.UnsubLeave?
    ensures Apply(s, Advance(expired)).returned == s.returned
  {
    SubIsQuiet(s);
  }

  // -------------------------------------------------------------------------------------------------------------
  // What can happen: a post and its delivery that nothing comes between, and the one state nothing leads out of

  function Steps(s: State, run: seq<Action>): Option<State>
    decreases |run|
  {
    if run == [] then Some(s)
    else if Enabled(s, run[0]) then Steps(Apply(s, run[0]), run[1..])
    else None
  }

  lemma {:induction false} StepsOn(s: State, run: seq<Action>, a: Action, s': State)
    requires Steps(s, run) == Some(s') && Enabled(s', a)
    ensures Steps(s, run + [a]) == Some(Apply(s', a))
    decreases |run|
  {
    if run == [] {
      assert run + [a] == [a];
    } else {
      assert (run + [a])[1..] == run[1..] + [a];
      StepsOn(Apply(s, run[0]), run[1..], a, s');
    }
  }

  ghost predicate Leads(s: State, s': State) {
    exists run :: Steps(s, run) == Some(s')
  }

  lemma LeadsNowhere(s: State)
    ensures Leads(s, s)
  {
    assert Steps(s, []) == Some(s);
  }

  lemma LeadsOn(s: State, s1: State, a: Action, s2: State)
    requires Leads(s, s1) && Enabled(s1, a) && Apply(s1, a) == s2
    ensures Leads(s, s2)
  {
    var run :| Steps(s, run) == Some(s1);
    StepsOn(s, run, a, s1);
  }

  function Posting(s: State, pc: Pc): State {
    s.(caller := InCall(false, pc))
  }

  /** An asynchronous post with a consumer registered and room in the ring: accepted, counted and returned with SUCCESS. */
  lemma PostRuns(s: State, p: Post)
    requires s.caller.NoCall? && !p.sync && s.table.suberNum > 0 && |s.queue| < MAX_QUEUING_EVTDESC
    ensures Leads(s, Posted(s, p))
  {
    LeadsNowhere(s);
    LeadsOn(s, s, StartPost(false, p), Posting(s, CheckState(p)));
    LeadsOn(s, Posting(s, CheckState(p)), Advance(false), Posting(s, CheckSubers(p)));
    LeadsOn(s, Posting(s, CheckSubers(p)), Advance(false), Posting(s, TryEnqueue(p)));
    var s1 := s.(queue := s.queue + [p.evt], accepted := s.accepted + [p.evt]);
    LeadsOn(s, Posting(s, TryEnqueue(p)), Advance(false), Posting(s1, CountUp(p)));
    var s2 := s1.(queuedEvtNum := s.queuedEvtNum + 1);
    LeadsOn(s, Posting(s1, CountUp(p)), Advance(false), Posting(s2, PostReturn(p, SUCCESS)));
    LeadsOn(s, Posting(s2, PostReturn(p, SUCCESS)), Advance(false), Posted(s, p));
  }

  function Posted(s: State, p: Post): State {
    s.(queue := s.queue + [p.evt], accepted := s.accepted + [p.evt], queuedEvtNum := s.queuedEvtNum + 1,
       returned := s.returned + [Returned(p, SUCCESS)])
  }

  lemma LeadsOnSub(s: State, s1: State)
    requires Leads(s, s1) && s1.caller.InCall? && !IsPosting(s1.caller.pc)
    ensures Leads(s, AdvanceSub(s1))
  {
    LeadsOn(s, s1, Advance(false), AdvanceSub(s1));
  }

  lemma SubscribeSteps(s: State, byProc: bool, args: SubEvtArgs, s1: State, s2: State, s3: State)
    requires s.caller.NoCall? && FlagsExact(s)
    requires s1 == s.(caller := InCall(byProc, SubEnter(args)))
    requires s2 == s1.(caller := InCall(byProc, SubTable(args)), link := Transferred(s.link, EnterSubEvt))
    requires s3 == s2.(caller := InCall(byProc, SubLeave(Inserted(s.table, args).0)), table := Inserted(s.table, args).1)
    ensures AdvanceSub(s1) == s2 && AdvanceSub(s2) == s3 && AdvanceSub(s3) == s.(table := Inserted(s.table, args).1)
  {
    assert Transferred(Transferred(s.link, EnterSubEvt), LeaveSubEvt) == s.link;
  }

  /** A subscription, by anybody, a consumer in its callback included: made in one go, and nothing else changes. */
  lemma SubscribeRuns(s: State, byProc: bool, args: SubEvtArgs)
    requires s.caller.NoCall? && (byProc ==> ProcInCallback(s)) && FlagsExact(s)
    ensures Leads(s, s.(table := Inserted(s.table, args).1))
  {
    var s1 := s.(caller := InCall(byProc, SubEnter(args)));
    var s2 := s1.(caller := InCall(byProc, SubTable(args)), link := Transferred(s.link, EnterSubEvt));
    var s3 := s2.(caller := InCall(byProc, SubLeave(Inserted(s.table, args).0)), table := Inserted(s.table, args).1);
    SubscribeSteps(s, byProc, args, s1, s2, s3);
    LeadsNowhere(s);
    LeadsOn(s, s, StartSub(byProc, args), s1);
    LeadsOnSub(s, s1);
    LeadsOnSub(s, s2);
    LeadsOnSub(s, s3);
  }

  lemma UnsubscribeSteps(s: State, byProc: bool, who: Consumer, s1: State, s2: State, s3: State)
    requires s.caller.NoCall? && FlagsExact(s)
    requires s1 == s.(caller := InCall(byProc, UnsubEnter(who)))
    requires s2 == s1.(caller := InCall(byProc, UnsubTable(who)), link := Transferred(s.link, EnterUnsubEvt))
    requires s3 == s2.(caller := InCall(byProc, UnsubLeave(Removed(s.table, who).0)), table := Removed(s.table, who).1)
    ensures AdvanceSub(s1) == s2 && AdvanceSub(s2) == s3 && AdvanceSub(s3) == s.(table := Removed(s.table, who).1)
  {
    assert Transferred(Transferred(s.link, EnterUnsubEvt), LeaveUnsubEvt) == s.link;
  }

  /** And the end of one. */
  lemma UnsubscribeRuns(s: State, byProc: bool, who: Consumer)
    requires s.caller.NoCall? && (byProc ==> ProcInCallback(s)) && FlagsExact(s)
    ensures Leads(s, s.(table := Removed(s.table, who).1))
  {
    var s1 := s.(caller := InCall(byProc, UnsubEnter(who)));
    var s2 := s1.(caller := InCall(byProc, UnsubTable(who)), link := Transferred(s.link, EnterUnsubEvt));
    var s3 := s2.(caller := InCall(byProc, UnsubLeave(Removed(s.table, who).0)), table := Removed(s.table, who).1);
    UnsubscribeSteps(s, byProc, who, s1, s2, s3);
    LeadsNowhere(s);
    LeadsOn(s, s, StartUnsub(byProc, who), s1);
    LeadsOnSub(s, s1);
    LeadsOnSub(s, s2);
    LeadsOnSub(s, s3);
  }

  /** The processing thread, left to itself in the middle of its callbacks, makes the rest of them. */
  lemma {:induction false} CallbacksRun(s0: State, s: State, evt: EvtDesc, who: seq<Consumer>, k: nat)
    requires Leads(s0, s) && s.caller.NoCall? && s.proc == Dispatching(Call(evt, who, k)) && k <= |who|
    ensures Leads(s0, s.(proc := Dispatching(Call(evt, who, |who|)), calls := s.calls + ToCalls(who[k..], evt)))
    decreases |who| - k
  {
    if k == |who| {
      assert s.calls + ToCalls(who[k..], evt) == s.calls;
    } else {
      LeadsOn(s0, s, ProcAdvance, Apply(s, ProcAdvance));
      CallbacksRun(s0, Apply(s, ProcAdvance), evt, who, k + 1);
      assert s.calls + [Called(who[k], evt)] + ToCalls(who[k + 1..], evt) == s.calls + ToCalls(who[k..], evt);
    }
  }

  /** The oldest queued event, delivered to everybody who listens for it, and counted. */
  lemma DeliveryRuns(s: State) returns (s': State)
    requires s.caller.NoCall? && s.proc.Waiting? && s.queue != []
    ensures Leads(s, s') && s'.proc.Waiting? && s'.caller.NoCall? && s'.queue == s.queue[1..] && s'.table == s.table
    ensures s'.callbackedEvtNum == s.callbackedEvtNum + 1
    ensures s'.calls == s.calls + ToCalls(Snapshot(s.table.subers, s.queue[0].evtId), s.queue[0])
  {
    var evt := s.queue[0];
    var who := Snapshot(s.table.subers, evt.evtId);
    LeadsNowhere(s);
    var s1 := Apply(s, Dequeue);
    LeadsOn(s, s, Dequeue, s1);
    var s2 := Apply(s1, ProcAdvance);
    LeadsOn(s, s1, ProcAdvance, s2);
    var s3 := Apply(s2, ProcAdvance);
    LeadsOn(s, s2, ProcAdvance, s3);
    CallbacksRun(s, s3, evt, who, 0);
    assert who[0..] == who;
    var s4 := s3.(proc := Dispatching(Call(evt, who, |who|)), calls := s3.calls + ToCalls(who, evt));
    var s5 := Apply(s4, ProcAdvance);
    LeadsOn(s, s4, ProcAdvance, s5);
    s' := Apply(s5, ProcAdvance);
    LeadsOn(s, s5, ProcAdvance, s');
  }

  /** A post that may block, made by the processing thread from a callback, with the ring full. */
  predicate SelfBlocked(s: State) {
    && s.caller.InCall? && s.caller.byProc && s.caller.pc.TryEnqueue? && s.caller.pc.post.blocking.MayBlock?
    && |s.queue| == MAX_QUEUING_EVTDESC
  }

  /** Nothing is under way. */
  predicate Idle(s: State) {
    s.caller.NoCall? && s.proc.Waiting? && s.queue == []
  }

  /** Some step of what is under way changes the state, be it only that a call's time runs out. */
  ghost predicate CanMove(s: State) {
    exists a :: !IsStart(a) && Enabled(s, a) && Apply(s, a) != s
  }

  predicate IsStart(a: Action) {
    a.StartPost? || a.StartSub? || a.StartUnsub?
  }

  /**
   * What is under way comes to rest in two ways only: done, and when the processing thread blocks itself. In the second
   * no step at all leads on, not even the start of another call: the post waits for room that only its own thread makes.
   */
  lemma StuckIff(run: seq<Action>, s: State)
    requires Reaches(run, s)
    ensures !CanMove(s) <==> Idle(s) || SelfBlocked(s)
    ensures SelfBlocked(s) ==> forall a :: Enabled(s, a) ==> Apply(s, a) == s
  {
    ReachableInv(run, s);
    if !Idle(s) && !SelfBlocked(s) {
      NextStepMoves(s);
      assert !IsStart(NextStep(s)) && Enabled(s, NextStep(s));
    } else {
      RestsThere(s);
    }
  }

  lemma NextStepMoves(s: State)
    requires Control(s) && !Idle(s) && !SelfBlocked(s)
    ensures Enabled(s, NextStep(s)) && Apply(s, NextStep(s)) != s
  {
    var a := NextStep(s);
    if a.Advance? {
      assert Apply(s, a).caller != s.caller;
    } else {
      assert Apply(s, a).proc != s.proc;
    }
  }

  lemma RestsThere(s: State)
    requires PathsKept(s) && (Idle(s) || SelfBlocked(s))
    ensures forall a :: Enabled(s, a) && !IsStart(a) ==> Apply(s, a) == s
    ensures SelfBlocked(s) ==> forall a :: Enabled(s, a) ==> Apply(s, a) == s
  {
  }

  /** A step that leads on, from a state in which something is under way and the processing thread not blocked by itself. */
  function NextStep(s: State): Action {
    if s.caller.InCall? && !(s.caller.pc.TryEnqueue? && |s.queue| == MAX_QUEUING_EVTDESC && s.caller.pc.post.blocking.MayBlock?)
    then Advance(true)
    else if s.proc.Waiting? then Dequeue
    else ProcAdvance
  }

  ghost predicate Reachable(s: State) {
    exists run :: Reaches(run, s)
  }

  lemma ReachStep(s: State, a: Action)
    requires Reachable(s) && Enabled(s, a)
    ensures Reachable(Apply(s, a))
  {
    var run :| Reaches(run, s);
    assert (run + [a])[..|run|] == run;
    assert Reaches(run + [a], Apply(s, a));
  }

  lemma {:induction false} ReachSteps(s: State, more: seq<Action>, s': State)
    requires Reachable(s) && Steps(s, more) == Some(s')
    ensures Reachable(s')
    decreases |more|
  {
    if more != [] {
      ReachStep(s, more[0]);
      ReachSteps(Apply(s, more[0]), more[1..], s');
    }
  }

  /** Posts fill the ring, whatever the processing thread is at. */
  lemma {:induction false} QueueFills(s: State, p: Post, n: nat) returns (s': State)
    requires Reachable(s) && s.caller.NoCall? && !p.sync && s.table.suberNum > 0 && |s.queue| + n <= MAX_QUEUING_EVTDESC
    ensures Reachable(s') && s'.caller.NoCall? && |s'.queue| == |s.queue| + n && (s.queue != [] ==> s'.queue[0] == s.queue[0])
    ensures s'.table == s.table && s'.proc == s.proc && (n > 0 && s.queue == [] ==> s'.queue[0] == p.evt)
    decreases n
  {
    s' := s;
    if n > 0 {
      PostRuns(s, p);
      s' := Posted(s, p);
      var run :| Steps(s, run) == Some(s');
      ReachSteps(s, run, s');
      s' := QueueFills(s', p, n - 1);
    }
  }

  /** One consumer has subscribed, for all events. */
  lemma SubscribedReachable(who: Consumer) returns (s: State)
    ensures Reachable(s) && s.caller.NoCall? && s.proc.Waiting? && s.queue == []
    ensures s.table.suberNum == 1 && forall id :: Listens(s.table.subers, who, id)
  {
    var args := SubEvtArgs(who, []);
    var subers := seq(MAX_SUBSCRIBER, _ => Suber(false, args));
    var s0 := Init(subers);
    assert Reaches([], s0);
    ReachableInv([], s0);
    Slots.CountIsZero(subers, IsSubed);
    assert !Registered(subers, who);
    InsertListens(s0.table, args);
    SubscribeRuns(s0, false, args);
    s := s0.(table := Inserted(s0.table, args).1);
    var run :| Steps(s0, run) == Some(s);
    ReachSteps(s0, run, s);
  }

  /** The processing thread is in a callback. */
  lemma InCallbackReachable(who: Consumer, p: Post) returns (s: State)
    requires !p.sync
    ensures Reachable(s) && s.caller.NoCall? && ProcInCallback(s) && s.queue == [] && s.table.suberNum == 1
  {
    var s0 := SubscribedReachable(who);
    var s1 := QueueFills(s0, p, 1);
    var s2 := Apply(s1, Dequeue);
    ReachStep(s1, Dequeue);
    var s3 := Apply(s2, ProcAdvance);
    ReachStep(s2, ProcAdvance);
    var run :| Reaches(run, s1);
    ReachableInv(run, s1);
    SnapshotExact(s1.table.subers, p.evt.evtId);
    assert who in Snapshot(s1.table.subers, p.evt.evtId);
    var s4 := Apply(s3, ProcAdvance);
    ReachStep(s3, ProcAdvance);
    s := Apply(s4, ProcAdvance);
    ReachStep(s4, ProcAdvance);
  }

  /** There is such a run: a consumer that posts from its callback, while others have filled the ring. */
  lemma SelfBlockReachable(who: Consumer, evt: EvtDesc) returns (s: State)
    ensures Reachable(s) && SelfBlocked(s)
  {
    var p := Post(evt, false, MayBlock);
    var s0 := InCallbackReachable(who, p);
    var s1 := QueueFills(s0, p, MAX_QUEUING_EVTDESC);
    var s2 := Apply(s1, StartPost(true, p));
    ReachStep(s1, StartPost(true, p));
    var s3 := Apply(s2, Advance(false));
    ReachStep(s2, Advance(false));
    s := Apply(s3, Advance(false));
    ReachStep(s3, Advance(false));
  }

  /** A synchronous post made inside a callback of the processing thread never delivers: it can only return FORBIDDEN. */
  lemma SyncPostInCallbackForbidden(run: seq<Action>, s: State)
    requires Reaches(run, s) && s.caller.InCall? && s.caller.byProc && IsPosting(s.caller.pc) && s.caller.pc.post.sync
    ensures s.caller.pc.CheckState? || s.caller.pc == PostReturn(s.caller.pc.post, FORBIDDEN)
    ensures s.caller.pc.CheckState? ==>
              forall expired :: AdvancePost(s, expired) == At(s, PostReturn(s.caller.pc.post, FORBIDDEN))
  {
    ReachableInv(run, s);
  }

  /**
   * Every delivery calls exactly the consumers that listened for its event in the table it took its snapshot of, each
   * once; the callbacks made so far are those of the deliveries begun, in order, short of what the one in progress owes.
   */
  lemma CallbacksExact(run: seq<Action>, s: State)
    requires Reaches(run, s)
    ensures s.calls <= CallsOf(s.delivered)
    ensures InProgress(s).None? ==> s.calls == CallsOf(s.delivered)
    ensures forall i, w :: 0 <= i < |s.delivered| ==>
                (w in s.delivered[i].who <==> Listens(s.delivered[i].subers, w, s.delivered[i].evt.evtId))
    ensures forall i, j, k :: 0 <= i < |s.delivered| && 0 <= j < k < |s.delivered[i].who| ==>
                s.delivered[i].who[j] != s.delivered[i].who[k]
  {
    ReachableInv(run, s);
    assert InProgress(s).None? ==> s.calls == s.calls + [];
    forall i | 0 <= i < |s.delivered|
      ensures forall w :: w in s.delivered[i].who <==> Listens(s.delivered[i].subers, w, s.delivered[i].evt.evtId)
      ensures forall j, k :: 0 <= j < k < |s.delivered[i].who| ==> s.delivered[i].who[j] != s.delivered[i].who[k]
    {
      SnapshotExact(s.delivered[i].subers, s.delivered[i].evt.evtId);
    }
  }

  /** The snapshot of a delivery is that of the table at the step that takes it; later steps never change it. */
  lemma SnapshotsOnlyAppended(s: State, a: Action)
    requires Enabled(s, a)
    ensures Apply(s, a).delivered == s.delivered ||
            exists evt: EvtDesc :: Apply(s, a).delivered
                       == s.delivered + [Snapshotted(evt, s.table.subers, Snapshot(s.table.subers, evt.evtId))]
  {
    if a.ProcAdvance? && s.proc.Dispatching? && s.proc.d.Collect? {
      var evt := s.proc.d.evt;
      assert Apply(s, a).delivered == s.delivered + [Snapshotted(evt, s.table.subers, Snapshot(s.table.subers, evt.evtId))];
    } else if a.Advance? && CallerDelivering(s) && s.caller.pc.d.Collect? {
      var evt := s.caller.pc.d.evt;
      assert Apply(s, a).delivered == s.delivered + [Snapshotted(evt, s.table.subers, Snapshot(s.table.subers, evt.evtId))];
    }
  }

  /** Events that `who` has been called back with, in order. */
  function ReceivedBy(calls: seq<Called>, who: Consumer): seq<EvtDesc> {
    if calls == [] then []
    else
      var last := calls[|calls| - 1];
      ReceivedBy(calls[..|calls| - 1], who) + if last.who == who then [last.evt] else []
  }

  /** Events delivered while `who` listened for them, in delivery order. */
  function MeantFor(ds: seq<Snapshotted>, who: Consumer): seq<EvtDesc> {
    if ds == [] then []
    else
      var last := ds[|ds| - 1];
      MeantFor(ds[..|ds| - 1], who) + if Listens(last.subers, who, last.evt.evtId) then [last.evt] else []
  }

  lemma {:induction false} ReceivedByConcat(c1: seq<Called>, c2: seq<Called>, who: Consumer)
    ensures ReceivedBy(c1 + c2, who) == ReceivedBy(c1, who) + ReceivedBy(c2, who)
  {
    if c2 == [] {
      assert c1 + c2 == c1;
    } else {
      assert (c1 + c2)[..|c1 + c2| - 1] == c1 + c2[..|c2| - 1];
      ReceivedByConcat(c1, c2[..|c2| - 1], who);
    }
  }

  lemma {:induction false} ReceivedOnce(whos: seq<Consumer>, evt: EvtDesc, who: Consumer)
    requires forall j, k :: 0 <= j < k < |whos| ==> whos[j] != whos[k]
    ensures ReceivedBy(ToCalls(whos, evt), who) == if who in whos then [evt] else []
  {
    if whos != [] {
      var n := |whos| - 1;
      assert ToCalls(whos, evt)[..n] == ToCalls(whos[..n], evt);
      ReceivedOnce(whos[..n], evt, who);
      assert whos == whos[..n] + [whos[n]];
    }
  }

  lemma {:induction false} ReceivedIsMeant(ds: seq<Snapshotted>, who: Consumer)
    requires forall i :: 0 <= i < |ds| ==>
               DistinctConsumers(ds[i].subers) && ds[i].who == Snapshot(ds[i].subers, ds[i].evt.evtId)
    ensures ReceivedBy(CallsOf(ds), who) == MeantFor(ds, who)
  {
    if ds != [] {
      var n := |ds| - 1;
      ReceivedIsMeant(ds[..n], who);
      SnapshotExact(ds[n].subers, ds[n].evt.evtId);
      ReceivedOnce(ds[n].who, ds[n].evt, who);
      ReceivedByConcat(CallsOf(ds[..n]), ToCalls(ds[n].who, ds[n].evt), who);
    }
  }

  /**
   * End to end for one consumer: over any interleaving, what it has been called back with is, in acceptance order and
   * without loss or repetition, the events delivered while it listened for them - all of them when no delivery is in
   * progress, a prefix otherwise.
   */
  lemma ConsumerReceivesExactlyItsEvents(run: seq<Action>, s: State, who: Consumer)
    requires Reaches(run, s)
    ensures ReceivedBy(s.calls, who) <= MeantFor(s.delivered, who)
    ensures InProgress(s).None? ==> ReceivedBy(s.calls, who) == MeantFor(s.delivered, who)
  {
    ReachableInv(run, s);
    ReceivedIsMeant(s.delivered, who);
    ReceivedByConcat(s.calls, OwedCalls(s), who);
  }
}
