/**
 * Runs of the polling RPC between one initiator link and one executor link: any number of exec calls, each drawing its
 * sequence number, queueing its command and scanning for its response in separate critical sections; an executor that
 * takes commands and acknowledges, any number of times and in any order, commands it has taken; and exec calls on other
 * links drawing from the same sequence counter, whose wrap-around is not reached.
 */
module PollingRpc {
  import opened Bytes
  import opened CmdDescs
  import opened CmdPollings

  /**
   * An exec call: its command numbered; its command queued; done with a response, `at` being that response's place among
   * all acknowledged ones, a history; refused by a full ring.
   */
  datatype Exec = Numbered(d: CmdDesc) | Waiting | Done(response: CmdDesc, at: nat) | Refused

  datatype State = State(
    sequenceCounter: nat,
    execs: map<u64, Exec>,          // by the sequence number drawn
    cmds: seq<CmdDesc>,             // the executor link's command ring
    resps: seq<CmdDesc>,            // the initiator link's response ring
    procedRespNum: nat,             // its counter of responses done with
    // histories
    queued: seq<CmdDesc>,           // every command queued, as queued
    taken: seq<CmdDesc>,            // every command handed out by waitCMD, as handed out
    acked: seq<CmdDesc>,            // every response queued
    overlapped: bool,               // some exec began while another was under way
    skipped: set<u64>)              // execs one of whose responses another's scan found before its own match

  datatype Action =
    | Number(d: CmdDesc)
    | NumberElsewhere
    | Queue(id: u64)
    | Take
    | Ack(d: CmdDesc)
    | Scan(id: u64)

  function Init(): State {
    State(1, map[], [], [], 0, [], [], [], false, {})
  }

  predicate UnderWay(execs: map<u64, Exec>, id: u64) {
    id in execs && (execs[id].Numbered? || execs[id].Waiting?)
  }

  predicate Enabled(s: State, a: Action) {
    match a
    case Number(_) => s.sequenceCounter < 0x1_0000_0000_0000_0000
    case NumberElsewhere => true
    case Queue(id) => id in s.execs && s.execs[id].Numbered?
    case Take => s.cmds != []
    case Ack(d) => exists i :: 0 <= i < |s.taken| && s.taken[i].seqId == d.seqId
    case Scan(id) => id in s.execs && s.execs[id].Waiting?
  }

  /** The waiting execs that a scan passing over the first `i` responses passes over one of. */
  function SkippedBy(s: State, i: nat): set<u64> {
    set other | other in s.execs && s.execs[other].Waiting? && FirstFor(s.resps, other) < i
  }

  function Pending(d: CmdDesc): CmdDesc {
    d.(status := STATUS_PENDING)
  }

  function Apply(s: State, a: Action): State
    requires Enabled(s, a)
  {
    match a
    case Number(d) =>
      var id: u64 := s.sequenceCounter;
      s.(sequenceCounter := s.sequenceCounter + 1, execs := s.execs[id := Numbered(d.(seqId := id))],
         overlapped := s.overlapped || exists other :: other in s.execs && UnderWay(s.execs, other))
    case NumberElsewhere => s.(sequenceCounter := s.sequenceCounter + 1)
    case Queue(id) =>
      if |s.cmds| >= RING_SIZE then s.(execs := s.execs[id := Refused])
      else
        var d := Pending(s.execs[id].d);
        s.(execs := s.execs[id := Waiting], cmds := s.cmds + [d], queued := s.queued + [d])
    case Take => s.(cmds := s.cmds[1..], taken := s.taken + [s.cmds[0].(status := STATUS_PROCESSING)])
    case Ack(d) => if |s.resps| >= RING_SIZE then s else s.(resps := s.resps + [d], acked := s.acked + [d])
    case Scan(id) =>
      var i := FirstFor(s.resps, id);
      if i < |s.resps| then
        s.(execs := s.execs[id := Done(s.resps[i], s.procedRespNum + i)],
           resps := s.resps[i + 1..], procedRespNum := s.procedRespNum + i + 1, skipped := s.skipped + SkippedBy(s, i))
      else s
  }

  ghost predicate Reaches(run: seq<Action>, s: State) {
    if run == [] then s == Init()
    else
      var n := |run| - 1;
      exists s0: State :: Reaches(run[..n], s0) && Enabled(s0, run[n]) && s == Apply(s0, run[n])
  }

  /** The responses for one sequence number, in order. */
  function For(ds: seq<CmdDesc>, id: nat): seq<CmdDesc> {
    if ds == [] then []
    else For(ds[..|ds| - 1], id) + if ds[|ds| - 1].seqId == id then [ds[|ds| - 1]] else []
  }

  lemma ForAppend(ds: seq<CmdDesc>, d: CmdDesc, id: nat)
    ensures For(ds + [d], id) == For(ds, id) + if d.seqId == id then [d] else []
  {
    assert (ds + [d])[..|ds|] == ds;
  }

  lemma {:induction false} ForConcat(a: seq<CmdDesc>, b: seq<CmdDesc>, id: nat)
    ensures For(a + b, id) == For(a, id) + For(b, id)
    decreases |b|
  {
    if b == [] {
      assert a + b == a;
    } else {
      var last := b[|b| - 1];
      assert a + b == (a + b[..|b| - 1]) + [last];
      ForConcat(a, b[..|b| - 1], id);
      ForAppend(a + b[..|b| - 1], last, id);
    }
  }

  lemma {:induction false} NoneFor(ds: seq<CmdDesc>, id: nat)
    ensures For(ds, id) == [] <==> forall k :: 0 <= k < |ds| ==> ds[k].seqId != id
    decreases |ds|
  {
    if ds != [] {
      NoneFor(ds[..|ds| - 1], id);
    }
  }

  /** What the scan takes is the first response for its number. */
  lemma FirstForIsFirst(ds: seq<CmdDesc>, id: nat)
    ensures var i := FirstFor(ds, id);
            if i < |ds| then For(ds, id) != [] && ds[i] == For(ds, id)[0] else For(ds, id) == []
  {
    var i := FirstFor(ds, id);
    if i < |ds| {
      assert ds == ds[..i] + ([ds[i]] + ds[i + 1..]);
      ForConcat(ds[..i], [ds[i]] + ds[i + 1..], id);
      ForConcat([ds[i]], ds[i + 1..], id);
      NoneFor(ds[..i], id);
      assert [ds[i]][..0] == [];
    } else {
      NoneFor(ds, id);
    }
  }

  function Processing(ds: seq<CmdDesc>): (r: seq<CmdDesc>)
    ensures |r| == |ds|
  {
    seq(|ds|, i requires 0 <= i < |ds| => ds[i].(status := STATUS_PROCESSING))
  }

  // ---------------------------------------------------------------------------------------------------------------
  // The invariant

  predicate Numbers(s: State) {
    && (forall id :: id in s.execs ==> id < s.sequenceCounter)
    && (forall id :: id in s.execs && s.execs[id].Numbered? ==> s.execs[id].d.seqId == id)
    && (forall i :: 0 <= i < |s.queued| ==>
                      s.queued[i].seqId in s.execs && (s.execs[s.queued[i].seqId].Waiting? || s.execs[s.queued[i].seqId].Done?))
    && (forall i, j :: 0 <= i < j < |s.queued| ==> s.queued[i].seqId != s.queued[j].seqId)
  }

  predicate InOrder(s: State) {
    && |s.queued| == |s.taken| + |s.cmds|
    && s.taken == Processing(s.queued[..|s.taken|]) && s.cmds == s.queued[|s.taken|..]
    && |s.cmds| <= RING_SIZE && |s.resps| <= RING_SIZE
  }

  predicate HasNumber(ds: seq<CmdDesc>, id: nat) {
    exists i :: 0 <= i < |ds| && ds[i].seqId == id
  }

  predicate Acknowledged(s: State) {
    && (forall k :: 0 <= k < |s.acked| ==> HasNumber(s.taken, s.acked[k].seqId))
    && (forall k :: 0 <= k < |s.resps| ==> s.resps[k] in s.acked)
    && (forall id :: id in s.execs && s.execs[id].Done? ==>
                       s.execs[id].response.seqId == id && s.execs[id].response in s.acked)
  }

  predicate OneUnderWay(execs: map<u64, Exec>) {
    forall id, other :: UnderWay(execs, id) && UnderWay(execs, other) ==> id == other
  }

  /** No response for a waiting exec has got lost, and a finished one got the first. */
  predicate NoneLost(s: State, id: u64)
    requires id in s.execs
  {
    && (s.execs[id].Waiting? ==> For(s.resps, id) == For(s.acked, id))
    && (s.execs[id].Done? ==> For(s.acked, id) != [] && s.execs[id].response == For(s.acked, id)[0])
  }

  predicate Lone(s: State) {
    !s.overlapped ==> OneUnderWay(s.execs) && forall id {:trigger NoneLost(s, id)} :: id in s.execs ==> NoneLost(s, id)
  }

  ghost predicate Inv(s: State) {
    Numbers(s) && InOrder(s) && Acknowledged(s) && Lone(s)
  }

  /** The response ring holds the responses not done with. */
  predicate RespsAreRest(s: State) {
    s.procedRespNum <= |s.acked| && s.resps == s.acked[s.procedRespNum..]
  }

  /** An exec has been skipped exactly if the first response for it is done with before it has been served that one. */
  predicate SkipExact(s: State, id: u64)
    requires id in s.execs
  {
    match s.execs[id]
    case Waiting => id !in s.skipped <==> s.procedRespNum <= FirstFor(s.acked, id)
    case Done(response, at) =>
      at < |s.acked| && s.acked[at] == response && response.seqId == id && (id !in s.skipped <==> FirstFor(s.acked, id) == at)
    case _ => id !in s.skipped
  }

  ghost predicate Skips(s: State) {
    && RespsAreRest(s) && s.skipped <= s.execs.Keys
    && forall id {:trigger SkipExact(s, id)} :: id in s.execs ==> SkipExact(s, id)
  }

  lemma FirstForAppend(ds: seq<CmdDesc>, d: CmdDesc, id: nat)
    ensures FirstFor(ds, id) < |ds| ==> FirstFor(ds + [d], id) == FirstFor(ds, id)
    ensures FirstFor(ds, id) == |ds| ==> FirstFor(ds + [d], id) >= |ds|
  {
    var i := FirstFor(ds + [d], id);
    if i < |ds| {
      assert (ds + [d])[i] == ds[i];
    }
    if FirstFor(ds, id) < |ds| {
      assert (ds + [d])[FirstFor(ds, id)] == ds[FirstFor(ds, id)];
    }
  }

  lemma FirstForRest(ds: seq<CmdDesc>, p: nat, id: nat)
    requires p <= |ds|
    ensures p <= FirstFor(ds, id) ==> FirstFor(ds, id) == p + FirstFor(ds[p..], id)
  {
    var i, j := FirstFor(ds, id), FirstFor(ds[p..], id);
    if p <= i {
      if i < |ds| {
        assert ds[p..][i - p] == ds[i];
      }
      if p + j < |ds| {
        assert ds[p..][j] == ds[p + j];
      }
    }
  }

  /** Passing over the first `i` responses: an exec whose first response was still to come loses it exactly if it is among them. */
  lemma SkipStep(ds: seq<CmdDesc>, p: nat, i: nat, id: u64)
    requires p + i < |ds| && ds[p + i].seqId != id
    ensures p + i + 1 <= FirstFor(ds, id) <==> p <= FirstFor(ds, id) && !(FirstFor(ds[p..], id) < i)
  {
    FirstForRest(ds, p, id);
  }

  lemma QueuedSkipExact(s: State, id: u64)
    requires Inv(s) && RespsAreRest(s) && Enabled(s, Queue(id)) && SkipExact(s, id)
    ensures SkipExact(Apply(s, Queue(id)), id)
  {
    UnqueuedUnacked(s, id);
    NoneFor(s.acked, id);
  }

  lemma SkipUnaffected(s: State, s': State, id: u64)
    requires id in s.execs && id in s'.execs && s'.execs[id] == s.execs[id] && SkipExact(s, id)
    requires s'.acked == s.acked && s'.procedRespNum == s.procedRespNum && s'.skipped == s.skipped
    ensures SkipExact(s', id)
  {
  }

  lemma QueueKeepsSkips(s: State, id: u64)
    requires Inv(s) && Skips(s) && Enabled(s, Queue(id))
    ensures Skips(Apply(s, Queue(id)))
  {
    var s' := Apply(s, Queue(id));
    forall other | other in s'.execs ensures SkipExact(s', other) {
      assert SkipExact(s, other);
      if other == id {
        QueuedSkipExact(s, id);
      } else {
        SkipUnaffected(s, s', other);
      }
    }
  }

  lemma AckKeepsSkips(s: State, d: CmdDesc)
    requires Skips(s) && Enabled(s, Ack(d))
    ensures Skips(Apply(s, Ack(d)))
  {
    var s' := Apply(s, Ack(d));
    if |s.resps| < RING_SIZE {
      assert (s.acked + [d])[s.procedRespNum..] == s.acked[s.procedRespNum..] + [d];
      forall id | id in s'.execs ensures SkipExact(s', id) {
        assert SkipExact(s, id);
        FirstForAppend(s.acked, d, id);
      }
    }
  }

  lemma ServedSkipExact(s: State, id: u64)
    requires RespsAreRest(s) && Enabled(s, Scan(id)) && FirstFor(s.resps, id) < |s.resps| && SkipExact(s, id)
    ensures SkipExact(Apply(s, Scan(id)), id)
  {
    var p, i := s.procedRespNum, FirstFor(s.resps, id);
    assert s.resps[i] == s.acked[p + i];
    FirstForRest(s.acked, p, id);
  }

  lemma ScannedSkipExact(s: State, id: u64, other: u64)
    requires RespsAreRest(s) && Enabled(s, Scan(id)) && FirstFor(s.resps, id) < |s.resps|
    requires other != id && other in s.execs && SkipExact(s, other)
    ensures SkipExact(Apply(s, Scan(id)), other)
  {
    if s.execs[other].Waiting? {
      SkipStep(s.acked, s.procedRespNum, FirstFor(s.resps, id), other);
    }
  }

  lemma ScanKeepsSkips(s: State, id: u64)
    requires Skips(s) && Enabled(s, Scan(id))
    ensures Skips(Apply(s, Scan(id)))
  {
    var s' := Apply(s, Scan(id));
    var p, i := s.procedRespNum, FirstFor(s.resps, id);
    if i < |s.resps| {
      assert s.acked[p..][i + 1..] == s.acked[p + i + 1..];
      forall other | other in s'.execs ensures SkipExact(s', other) {
        assert SkipExact(s, other);
        if other == id {
          ServedSkipExact(s, id);
        } else {
          ScannedSkipExact(s, id, other);
        }
      }
    }
  }

  lemma StepKeepsSkips(s: State, a: Action)
    requires Inv(s) && Skips(s) && Enabled(s, a)
    ensures Skips(Apply(s, a))
  {
    match a {
      case Queue(id) => QueueKeepsSkips(s, id);
      case Ack(d) => AckKeepsSkips(s, d);
      case Scan(id) => ScanKeepsSkips(s, id);
      case _ =>
        var s' := Apply(s, a);
        forall id | id in s'.execs ensures SkipExact(s', id) {
          assert id in s.execs ==> SkipExact(s, id);
        }
    }
  }

  lemma NumberKeepsInv(s: State, d: CmdDesc)
    requires Inv(s) && Enabled(s, Number(d))
    ensures Inv(Apply(s, Number(d)))
  {
    var s' := Apply(s, Number(d));
    if !s'.overlapped {
      forall id | id in s'.execs ensures NoneLost(s', id) {
        assert id in s.execs ==> NoneLost(s, id);
      }
    }
  }

  lemma QueueKeepsNumbers(s: State, id: u64)
    requires Numbers(s) && Enabled(s, Queue(id))
    ensures Numbers(Apply(s, Queue(id)))
  {
  }

  lemma QueueKeepsOrder(s: State, id: u64)
    requires InOrder(s) && Enabled(s, Queue(id))
    ensures InOrder(Apply(s, Queue(id)))
  {
    var n := |s.taken|;
    var more := [Pending(s.execs[id].d)];
    assert (s.queued + more)[..n] == s.queued[..n] && (s.queued + more)[n..] == s.queued[n..] + more;
  }

  /** A command not yet queued has not been handed out or acknowledged. */
  lemma UnqueuedUnacked(s: State, id: u64)
    requires Numbers(s) && InOrder(s) && Acknowledged(s) && id in s.execs && (s.execs[id].Numbered? || s.execs[id].Refused?)
    ensures For(s.acked, id) == [] && For(s.resps, id) == []
  {
    forall i | 0 <= i < |s.taken| ensures s.taken[i].seqId != id {
      assert s.queued[i].seqId == s.taken[i].seqId;
    }
    assert !HasNumber(s.taken, id);
    NoneFor(s.acked, id);
    NoneFor(s.resps, id);
  }

  /** An exec for which no response is there or acknowledged has lost none, as long as it is not done. */
  lemma StillNoneLost(s: State, s': State, id: u64)
    requires id in s.execs && id in s'.execs && NoneLost(s, id) && s'.resps == s.resps && s'.acked == s.acked
    requires s'.execs[id] == s.execs[id]
             || (!s'.execs[id].Done? && For(s.acked, id) == [] && For(s.resps, id) == [])
    ensures NoneLost(s', id)
  {
  }

  lemma QueueChangesOne(s: State, id: u64, other: u64)
    requires Enabled(s, Queue(id)) && other in s.execs
    ensures var s' := Apply(s, Queue(id));
            && s'.resps == s.resps && s'.acked == s.acked && other in s'.execs
            && (if other == id then !s'.execs[id].Done? else s'.execs[other] == s.execs[other])
  {
  }

  lemma QueueKeepsOneUnderWay(s: State, id: u64)
    requires Enabled(s, Queue(id)) && OneUnderWay(s.execs)
    ensures OneUnderWay(Apply(s, Queue(id)).execs)
  {
    var execs := Apply(s, Queue(id)).execs;
    forall a, b | UnderWay(execs, a) && UnderWay(execs, b) ensures a == b {
      assert UnderWay(s.execs, a) && UnderWay(s.execs, b);
    }
  }

  lemma QueueKeepsLone(s: State, id: u64)
    requires Lone(s) && Enabled(s, Queue(id)) && For(s.acked, id) == [] && For(s.resps, id) == []
    ensures Lone(Apply(s, Queue(id)))
  {
    var s' := Apply(s, Queue(id));
    if !s.overlapped {
      QueueKeepsOneUnderWay(s, id);
      forall other | other in s'.execs ensures NoneLost(s', other) {
        assert NoneLost(s, other);
        QueueChangesOne(s, id, other);
        StillNoneLost(s, s', other);
      }
    }
  }

  lemma QueueKeepsInv(s: State, id: u64)
    requires Inv(s) && Enabled(s, Queue(id))
    ensures Inv(Apply(s, Queue(id)))
  {
    QueueKeepsNumbers(s, id);
    QueueKeepsOrder(s, id);
    UnqueuedUnacked(s, id);
    QueueKeepsLone(s, id);
  }

  lemma TakeKeepsAcknowledged(s: State)
    requires Acknowledged(s) && Enabled(s, Take)
    ensures Acknowledged(Apply(s, Take))
  {
    var s' := Apply(s, Take);
    forall k | 0 <= k < |s'.acked| ensures HasNumber(s'.taken, s'.acked[k].seqId) {
      assert HasNumber(s.taken, s.acked[k].seqId);
      var i :| 0 <= i < |s.taken| && s.taken[i].seqId == s.acked[k].seqId;
      assert s'.taken[i] == s.taken[i];
    }
  }

  lemma TakeKeepsOrder(s: State)
    requires InOrder(s) && Enabled(s, Take)
    ensures InOrder(Apply(s, Take))
  {
  }

  lemma TakeKeepsLone(s: State)
    requires Lone(s) && Enabled(s, Take)
    ensures Lone(Apply(s, Take))
  {
    var s' := Apply(s, Take);
    if !s.overlapped {
      forall other | other in s'.execs ensures NoneLost(s', other) {
        assert NoneLost(s, other);
        StillNoneLost(s, s', other);
      }
    }
  }

  lemma TakeKeepsInv(s: State)
    requires Inv(s) && Enabled(s, Take)
    ensures Inv(Apply(s, Take))
  {
    TakeKeepsAcknowledged(s);
    TakeKeepsOrder(s);
    TakeKeepsLone(s);
  }

  lemma AckKeepsAcknowledged(s: State, d: CmdDesc)
    requires Acknowledged(s) && Enabled(s, Ack(d))
    ensures Acknowledged(Apply(s, Ack(d)))
  {
    assert HasNumber(s.taken, d.seqId);
  }

  lemma AckedNoneLost(s: State, d: CmdDesc, other: u64)
    requires Enabled(s, Ack(d)) && other in s.execs && NoneLost(s, other)
    ensures NoneLost(Apply(s, Ack(d)), other)
  {
    ForAppend(s.resps, d, other);
    ForAppend(s.acked, d, other);
  }

  lemma AckKeepsInv(s: State, d: CmdDesc)
    requires Inv(s) && Enabled(s, Ack(d))
    ensures Inv(Apply(s, Ack(d)))
  {
    var s' := Apply(s, Ack(d));
    AckKeepsAcknowledged(s, d);
    if !s.overlapped {
      forall other | other in s'.execs ensures NoneLost(s', other) {
        assert NoneLost(s, other);
        AckedNoneLost(s, d, other);
      }
    }
  }

  lemma ScanKeepsLone(s: State, id: u64)
    requires Lone(s) && Enabled(s, Scan(id)) && FirstFor(s.resps, id) < |s.resps|
    ensures Lone(Apply(s, Scan(id)))
  {
    var s' := Apply(s, Scan(id));
    FirstForIsFirst(s.resps, id);
    if !s.overlapped {
      assert NoneLost(s, id) && UnderWay(s.execs, id);
      forall other | other in s'.execs ensures NoneLost(s', other) && (UnderWay(s'.execs, other) ==> UnderWay(s.execs, other)) {
        assert NoneLost(s, other);
        assert UnderWay(s.execs, other) ==> other == id;
      }
    }
  }

  lemma ScanKeepsInv(s: State, id: u64)
    requires Inv(s) && Enabled(s, Scan(id))
    ensures Inv(Apply(s, Scan(id)))
  {
    if FirstFor(s.resps, id) < |s.resps| {
      ScanKeepsLone(s, id);
      ScanKeepsAcknowledged(s, id);
    }
  }

  lemma ScanKeepsAcknowledged(s: State, id: u64)
    requires Acknowledged(s) && Enabled(s, Scan(id)) && FirstFor(s.resps, id) < |s.resps|
    ensures Acknowledged(Apply(s, Scan(id)))
  {
    assert s.resps[FirstFor(s.resps, id)] in s.acked;
  }

  lemma NumberElsewhereKeepsInv(s: State)
    requires Inv(s)
    ensures Inv(Apply(s, NumberElsewhere))
  {
    var s' := Apply(s, NumberElsewhere);
    forall id | id in s'.execs ensures NoneLost(s, id) ==> NoneLost(s', id) {
    }
  }

  lemma {:induction false} ReachableInv(run: seq<Action>, s: State)
    requires Reaches(run, s)
    ensures Inv(s) && Skips(s)
    decreases |run|
  {
    if run != [] {
      var n := |run| - 1;
      var s0 :| Reaches(run[..n], s0) && Enabled(s0, run[n]) && s == Apply(s0, run[n]);
      ReachableInv(run[..n], s0);
      StepKeepsSkips(s0, run[n]);
      match run[n] {
        case Number(d) => NumberKeepsInv(s0, d);
        case NumberElsewhere => NumberElsewhereKeepsInv(s0);
        case Queue(id) => QueueKeepsInv(s0, id);
        case Take => TakeKeepsInv(s0);
        case Ack(d) => AckKeepsInv(s0, d);
        case Scan(id) => ScanKeepsInv(s0, id);
      }
    }
  }

  // ---------------------------------------------------------------------------------------------------------------
  // What holds over every run

  /** Every exec that returns a response returns one acknowledged for its own sequence number. */
  lemma ExecGetsOwnResponse(run: seq<Action>, s: State, id: u64)
    requires Reaches(run, s) && id in s.execs && s.execs[id].Done?
    ensures s.execs[id].response.seqId == id && s.execs[id].response in s.acked
  {
    ReachableInv(run, s);
  }

  /** waitCMD hands out the commands in the order they were queued, each once, with nothing skipped; no ring overflows. */
  lemma CommandsTakenInOrder(run: seq<Action>, s: State)
    requires Reaches(run, s)
    ensures |s.taken| <= |s.queued| && s.taken == Processing(s.queued[..|s.taken|])
    ensures s.cmds == s.queued[|s.taken|..]
    ensures forall i, j :: 0 <= i < j < |s.taken| ==> s.taken[i].seqId != s.taken[j].seqId
    ensures |s.cmds| <= RING_SIZE && |s.resps| <= RING_SIZE
  {
    ReachableInv(run, s);
    forall i, j | 0 <= i < j < |s.taken| ensures s.taken[i].seqId != s.taken[j].seqId {
      assert s.queued[i].seqId == s.taken[i].seqId && s.queued[j].seqId == s.taken[j].seqId;
    }
  }

  /** A command still queued belongs to an exec still waiting for it. */
  lemma QueuedIsWaiting(s: State, k: nat)
    requires Inv(s) && k < |s.cmds|
    ensures s.cmds[k].seqId in s.execs && s.execs[s.cmds[k].seqId].Waiting?
  {
    var n := |s.taken| + k;
    var id := s.cmds[k].seqId;
    assert s.queued[n] == s.cmds[k];
    forall i | 0 <= i < |s.taken| ensures s.taken[i].seqId != id {
      assert s.queued[i].seqId == s.taken[i].seqId;
    }
    assert !HasNumber(s.taken, id);
  }

  lemma LoneCmdRing(s: State)
    requires Inv(s) && !s.overlapped
    ensures |s.cmds| <= 1
  {
    if |s.cmds| > 1 {
      assert s.queued[|s.taken|].seqId != s.queued[|s.taken| + 1].seqId;
      QueuedIsWaiting(s, 0);
      assert UnderWay(s.execs, s.cmds[0].seqId);
      QueuedIsWaiting(s, 1);
      assert UnderWay(s.execs, s.cmds[1].seqId);
    }
  }

  lemma NumberedFindsRoom(s: State, id: u64)
    requires Inv(s) && !s.overlapped && id in s.execs && s.execs[id].Numbered?
    ensures s.cmds == []
  {
    assert UnderWay(s.execs, id);
    if s.cmds != [] {
      QueuedIsWaiting(s, 0);
      assert UnderWay(s.execs, s.cmds[0].seqId);
    }
  }

  lemma ScanGivesFirst(s: State, id: u64)
    requires id in s.execs && s.execs[id].Waiting? && NoneLost(s, id)
    ensures if For(s.acked, id) == [] then Apply(s, Scan(id)) == s
            else Apply(s, Scan(id)).execs[id].Done? && Apply(s, Scan(id)).execs[id].response == For(s.acked, id)[0]
  {
    FirstForIsFirst(s.resps, id);
  }

  /** Execs overlap from the step on in which one draws its number while another is under way, and from no other. */
  lemma OverlapsIff(s: State, a: Action)
    requires Enabled(s, a)
    ensures Apply(s, a).overlapped <==> s.overlapped || (a.Number? && exists other :: UnderWay(s.execs, other))
    ensures Apply(s, a).sequenceCounter == s.sequenceCounter + if a.Number? || a.NumberElsewhere? then 1 else 0
  {
  }

  /** An exec is refused exactly if 64 commands wait, and its command is then nowhere; a response is lost exactly if 64 wait. */
  lemma RefusedIffFull(run: seq<Action>, s: State, id: u64, d: CmdDesc)
    requires Reaches(run, s)
    ensures Enabled(s, Queue(id)) ==>
              var s' := Apply(s, Queue(id));
              && id in s'.execs
              && (s'.execs[id] == Refused <==> |s.cmds| == RING_SIZE)
              && (s'.execs[id] == Waiting <==> |s.cmds| < RING_SIZE)
              && s'.cmds == s.cmds + (if |s.cmds| == RING_SIZE then [] else [s.execs[id].d.(status := STATUS_PENDING)])
    ensures Enabled(s, Ack(d)) ==>
              Apply(s, Ack(d)).resps == s.resps + if |s.resps| == RING_SIZE then [] else [d]
  {
    ReachableInv(run, s);
  }

  /** A waiting exec's look at the responses ends its wait exactly if there is one for it, and with the first of these. */
  lemma ScanEndsWaitIff(s: State, id: u64)
    requires Enabled(s, Scan(id))
    ensures id in Apply(s, Scan(id)).execs
    ensures Apply(s, Scan(id)).execs[id].Done? <==> For(s.resps, id) != []
    ensures For(s.resps, id) != [] ==> Apply(s, Scan(id)).execs[id].response == For(s.resps, id)[0]
    ensures For(s.resps, id) == [] ==> Apply(s, Scan(id)) == s
  {
    FirstForIsFirst(s.resps, id);
  }

  /**
   * With one exec under way at a time: it is never refused for want of room, its command is alone in its ring, and what
   * it returns is the first response acknowledged for it, however many stale ones for earlier commands stand before it.
   */
  lemma LoneExecServed(run: seq<Action>, s: State, id: u64)
    requires Reaches(run, s) && !s.overlapped && id in s.execs
    ensures |s.cmds| <= 1
    ensures s.execs[id].Numbered? ==> s.cmds == [] && Apply(s, Queue(id)).execs[id].Waiting?
    ensures s.execs[id].Done? ==> For(s.acked, id) != [] && s.execs[id].response == For(s.acked, id)[0]
    ensures s.execs[id].Waiting? ==>
              (if For(s.acked, id) == [] then Apply(s, Scan(id)) == s
               else Apply(s, Scan(id)).execs[id].Done? && Apply(s, Scan(id)).execs[id].response == For(s.acked, id)[0])
  {
    ReachableInv(run, s);
    LoneCmdRing(s);
    if s.execs[id].Numbered? {
      NumberedFindsRoom(s, id);
    }
    assert NoneLost(s, id);
    if s.execs[id].Waiting? {
      ScanGivesFirst(s, id);
    }
  }

  /**
   * However execs overlap: one that is done was served the first response acknowledged for it, and one that waits can
   * still be, if and only if no other exec's scan has found one of its responses before that scan's own match.
   */
  lemma ServedFirstIffNotSkipped(run: seq<Action>, s: State, id: u64)
    requires Reaches(run, s) && id in s.execs
    ensures s.execs[id].Done? ==>
              && s.execs[id].at < |s.acked| && s.acked[s.execs[id].at] == s.execs[id].response
              && (FirstFor(s.acked, id) == s.execs[id].at <==> id !in s.skipped)
    ensures s.execs[id].Waiting? ==> (For(s.resps, id) == For(s.acked, id) <==> id !in s.skipped)
  {
    ReachableInv(run, s);
    assert SkipExact(s, id);
    if s.execs[id].Waiting? {
      LostIffDoneWith(s.acked, s.procedRespNum, id);
    }
  }

  lemma LostIffDoneWith(ds: seq<CmdDesc>, p: nat, id: nat)
    requires p <= |ds|
    ensures For(ds[p..], id) == For(ds, id) <==> p <= FirstFor(ds, id)
  {
    assert ds == ds[..p] + ds[p..];
    ForConcat(ds[..p], ds[p..], id);
    NoneFor(ds[..p], id);
    if For(ds[..p], id) == [] {
      forall k | 0 <= k < p ensures ds[k].seqId != id {
        assert ds[..p][k] == ds[k];
      }
    } else {
      assert |For(ds, id)| > |For(ds[p..], id)|;
      var k :| 0 <= k < p && ds[..p][k].seqId == id;
      assert ds[k].seqId == id;
    }
  }

  /** What a step adds to the skipped: the waiting execs a successful scan passes over, and nothing else ever. */
  lemma SkippedOnlyByScans(s: State, a: Action, id: u64)
    requires Enabled(s, a) && id !in s.skipped
    ensures id in Apply(s, a).skipped <==>
            && a.Scan? && FirstFor(s.resps, id) < FirstFor(s.resps, a.id) < |s.resps|
            && id in s.execs && s.execs[id].Waiting?
  {
  }

  /**
   * With several under way, an exec that finds its response drops what stands before it: another exec's responses
   * survive if and only if none of them was queued before the one taken.
   */
  lemma ScanSparesIff(s: State, id: u64, other: u64)
    requires Enabled(s, Scan(id)) && other != id
    ensures var i := FirstFor(s.resps, id);
            i < |s.resps| ==>
              (For(Apply(s, Scan(id)).resps, other) == For(s.resps, other)
               <==> forall k :: 0 <= k < i ==> s.resps[k].seqId != other)
  {
    var i := FirstFor(s.resps, id);
    if i < |s.resps| {
      DropSparesIff(s.resps, i, other);
    }
  }

  lemma DropSparesIff(ds: seq<CmdDesc>, i: nat, other: nat)
    requires i < |ds| && ds[i].seqId != other
    ensures For(ds[i + 1..], other) == For(ds, other) <==> forall k :: 0 <= k < i ==> ds[k].seqId != other
  {
    LostIffDoneWith(ds, i + 1, other);
    if i + 1 <= FirstFor(ds, other) {
    } else {
      assert ds[FirstFor(ds, other)].seqId == other && FirstFor(ds, other) != i;
    }
  }

  lemma ReachOn(run: seq<Action>, s: State, a: Action, s': State) returns (more: seq<Action>)
    requires Reaches(run, s) && Enabled(s, a) && s' == Apply(s, a)
    ensures Reaches(more, s')
  {
    more := run + [a];
    assert more[..|run|] == run;
  }

  /** A state in which the commands of execs 1 and 2 have been taken and acknowledged in that order, and neither has looked. */
  function BothAcked(d: CmdDesc): State {
    var p1, p2 := Pending(d.(seqId := 1)), Pending(d.(seqId := 2));
    var r1, r2 := d.(seqId := 1), d.(seqId := 2);
    State(3, map[1 := Waiting, 2 := Waiting], [], [r1, r2], 0, [p1, p2], Processing([p1, p2]), [r1, r2], true, {})
  }

  function BothQueued(d: CmdDesc): State {
    var p1, p2 := Pending(d.(seqId := 1)), Pending(d.(seqId := 2));
    State(3, map[1 := Waiting, 2 := Waiting], [p1, p2], [], 0, [p1, p2], [], [], true, {})
  }

  function BothNumbered(d: CmdDesc): State {
    Init().(sequenceCounter := 3, execs := map[1 := Numbered(d.(seqId := 1)), 2 := Numbered(d.(seqId := 2))], overlapped := true)
  }

  lemma BothNumberedReachable(d: CmdDesc) returns (run: seq<Action>)
    ensures Reaches(run, BothNumbered(d))
  {
    run := [];
    var s1 := Apply(Init(), Number(d));
    run := ReachOn(run, Init(), Number(d), s1);
    assert UnderWay(s1.execs, 1);
    run := ReachOn(run, s1, Number(d), BothNumbered(d));
  }

  lemma BothQueuedReachable(d: CmdDesc) returns (run: seq<Action>)
    ensures Reaches(run, BothQueued(d))
  {
    run := BothNumberedReachable(d);
    run := ReachOn(run, BothNumbered(d), Queue(1), FirstQueued(d));
    assert Apply(FirstQueued(d), Queue(2)).execs == BothQueued(d).execs;
    run := ReachOn(run, FirstQueued(d), Queue(2), BothQueued(d));
  }

  function FirstQueued(d: CmdDesc): State {
    var p1 := Pending(d.(seqId := 1));
    BothNumbered(d).(execs := map[1 := Waiting, 2 := Numbered(d.(seqId := 2))], cmds := [p1], queued := [p1])
  }

  function BothTaken(d: CmdDesc): State {
    BothQueued(d).(cmds := [], taken := Processing(BothQueued(d).queued))
  }

  lemma BothTakenReachable(d: CmdDesc) returns (run: seq<Action>)
    ensures Reaches(run, BothTaken(d))
  {
    run := BothQueuedReachable(d);
    var s0 := BothQueued(d);
    var s1 := Apply(s0, Take);
    run := ReachOn(run, s0, Take, s1);
    var s2 := Apply(s1, Take);
    run := ReachOn(run, s1, Take, s2);
    assert s2.taken == Processing(s0.queued);
  }

  lemma BothAckedReachable(d: CmdDesc) returns (run: seq<Action>)
    ensures Reaches(run, BothAcked(d))
  {
    run := BothTakenReachable(d);
    var s0 := BothTaken(d);
    var a1, a2 := Ack(d.(seqId := 1)), Ack(d.(seqId := 2));
    assert s0.taken[0].seqId == 1 && s0.taken[1].seqId == 2;
    var s1 := Apply(s0, a1);
    run := ReachOn(run, s0, a1, s1);
    run := ReachOn(run, s1, a2, BothAcked(d));
  }

  /** The second exec has looked. */
  function FirstLost(d: CmdDesc): State {
    BothAcked(d).(execs := map[1 := Waiting, 2 := Done(d.(seqId := 2), 1)], resps := [], procedRespNum := 2, skipped := {1})
  }

  lemma SecondScanDropsBoth(d: CmdDesc)
    ensures Enabled(BothAcked(d), Scan(2)) && Apply(BothAcked(d), Scan(2)) == FirstLost(d)
  {
    var resps := BothAcked(d).resps;
    assert resps[1..] == [d.(seqId := 2)];
    assert FirstFor(resps[1..], 2) == 0;
    assert FirstFor(resps, 2) == 1;
    assert resps[2..] == [];
  }

  lemma ForPair(a: CmdDesc, b: CmdDesc, id: nat)
    ensures For([a, b], id) == (if a.seqId == id then [a] else []) + (if b.seqId == id then [b] else [])
  {
    ForAppend([], a, id);
    assert [] + [a] == [a];
    ForAppend([a], b, id);
    assert [a] + [b] == [a, b];
  }

  /** Two execs under way: the first command's only response is gone, and its exec still waits for it. */
  lemma OverlappingExecsLoseResponse(d: CmdDesc)
    ensures exists run, s ::
              && Reaches(run, s) && 1 in s.execs && s.execs[1].Waiting? && For(s.acked, 1) == [d.(seqId := 1)] && s.resps == []
  {
    var run := BothAckedReachable(d);
    SecondScanDropsBoth(d);
    run := ReachOn(run, BothAcked(d), Scan(2), FirstLost(d));
    ForPair(d.(seqId := 1), d.(seqId := 2), 1);
  }
}
