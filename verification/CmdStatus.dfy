/** The status lifecycle of a command executed through a callback: the FIFO protocol's path and the legacy path. */
module CmdStatuses {
  import opened Results
  import opened Bytes
  import opened CmdDescs
  import opened ObjTables
  import Roles = LinkRoles

  /** How a FIFO exec's callback thread ended. `left` is the descriptor as the callback has written it by then. */
  datatype CallbackRun =
    | NotStarted
    | Completed(result: Code, left: CmdDesc)
    | TimedOut(left: CmdDesc)

  /** Executed to the end, in one of the ways exec reports. */
  predicate Settled(r: Code, d: CmdDesc) {
    && d.result == r
    && d.status == if r == SUCCESS then STATUS_SUCCESS else if r == TIMEOUT then STATUS_TIMEOUT else STATUS_FAILED
  }

  method IsSupported(cmdIds: seq<u64>, cmdId: u64) returns (supported: bool)
    ensures supported <==> cmdId in cmdIds
  {
    supported := false;
    for i := 0 to |cmdIds|
      invariant cmdId !in cmdIds[..i]
    {
      if cmdIds[i] == cmdId {
        return true;
      }
    }
    assert cmdIds[..|cmdIds|] == cmdIds;
  }

  /**
   * The FIFO protocol's exec once it has found a callback; `callbackThread` says what comes of running the callback on
   * the descriptor it is given. A callback that itself returns TIMEOUT is not told apart from one that overran its time.
   */
  method ExecViaFifoCallback(cmd: CmdDescVar, cmdIds: seq<u64>, callbackThread: CmdDesc -> CallbackRun) returns (r: Code)
    modifies cmd
    ensures old(cmd.desc).cmdId !in cmdIds ==> r == NOT_SUPPORT && cmd.desc == old(cmd.desc)
    ensures old(cmd.desc).cmdId in cmdIds ==>
              var given := old(cmd.desc).(status := STATUS_PROCESSING);
              var left := match callbackThread(given) case NotStarted => given case Completed(_, d) => d case TimedOut(d) => d;
              && r == (match callbackThread(given) case NotStarted => BUG case Completed(result, _) => result case TimedOut(_) => TIMEOUT)
              && cmd.desc == left.(status := cmd.desc.status, result := r)
              && Settled(r, cmd.desc) && Terminal(cmd.desc.status)
              && (cmd.desc.status == STATUS_SUCCESS <==> r == SUCCESS) && (cmd.desc.status == STATUS_TIMEOUT <==> r == TIMEOUT)
  {
    var supported := IsSupported(cmdIds, cmd.desc.cmdId);
    if !supported {
      return NOT_SUPPORT;
    }
    cmd.desc := cmd.desc.(status := STATUS_PROCESSING);
    r := TIMEOUT;
    var callbackCompleted := false;
    match callbackThread(cmd.desc) {
      case NotStarted =>
        r := BUG;
      case Completed(result, left) =>
        cmd.desc := left;
        r := result;
        callbackCompleted := true;
      case TimedOut(left) =>
        cmd.desc := left;
        r := TIMEOUT;
    }
    if r == TIMEOUT {
      cmd.desc := cmd.desc.(status := STATUS_TIMEOUT, result := TIMEOUT);
    } else if r == SUCCESS && callbackCompleted {
      cmd.desc := cmd.desc.(status := STATUS_SUCCESS, result := SUCCESS);
    } else {
      cmd.desc := cmd.desc.(status := STATUS_FAILED, result := r);
    }
  }

  // -------------------------------------------------------------------------------------------------------------
  // The legacy path

  type Executor = CmdDesc -> (Code, CmdDesc)

  /** What a link brings to a command: its roles, its path, and the command usage arguments if it has any. */
  datatype CmdUsage = CmdUsage(cmdIds: seq<u64>, callback: Executor)

  datatype CmdLink = CmdLink(initiator: bool, executor: bool, path: string, usage: Option<CmdUsage>)

  const CANDIDATE_END: u64 := 1100

  /** Complementary command roles on the same path. */
  predicate ValidPeer(src: CmdLink, dest: CmdLink) {
    ((src.initiator && dest.executor) || (src.executor && dest.initiator)) && src.path == dest.path
  }

  function RolesOf(l: CmdLink): Roles.Usage {
    (if l.initiator then {Roles.CmdInitiator} else {}) + (if l.executor then {Roles.CmdExecutor} else {})
  }

  /** Two links are peers exactly if they share a path and one has a role that complements one of the other's; both ways. */
  lemma ValidPeerIff(src: CmdLink, dest: CmdLink)
    ensures ValidPeer(src, dest) <==> src.path == dest.path && RolesOf(dest) * Roles.Complements(RolesOf(src)) != {}
    ensures ValidPeer(src, dest) <==> ValidPeer(dest, src)
  {
    assert forall role :: role in Roles.Complements(RolesOf(src)) <==> Roles.Complement(role) in RolesOf(src) by {
      forall role ensures role in Roles.Complements(RolesOf(src)) <==> Roles.Complement(role) in RolesOf(src) {
        assert Roles.Complement(Roles.Complement(role)) == role;
      }
    }
    var both := RolesOf(dest) * Roles.Complements(RolesOf(src));
    assert Roles.CmdExecutor in both <==> src.initiator && dest.executor;
    assert Roles.CmdInitiator in both <==> src.executor && dest.initiator;
    assert forall role :: role in both ==> role == Roles.CmdExecutor || role == Roles.CmdInitiator;
  }

  predicate Candidate(slots: seq<Option<CmdLink>>, srcId: u64, src: CmdLink, id: u64)
    requires |slots| == MAX_OBJ_NUM
  {
    id != srcId && Lookup(slots, id).Some? && ValidPeer(src, Lookup(slots, id).value)
  }

  /** The first valid peer of a link in the whole table, the link itself excepted, or None if there is none. */
  ghost predicate IsDestination(slots: seq<Option<CmdLink>>, srcId: u64, dest: Option<CmdLink>)
    requires |slots| == MAX_OBJ_NUM && Lookup(slots, srcId).Some?
  {
    var src := Lookup(slots, srcId).value;
    if dest.None? then forall i :: 0 <= i < |slots| ==> !Candidate(slots, srcId, src, LinkIdOf(i))
    else
      exists i :: && 0 <= i < |slots| && slots[i] == dest && Candidate(slots, srcId, src, LinkIdOf(i))
                  && forall k :: 0 <= k < i ==> !Candidate(slots, srcId, src, LinkIdOf(k))
  }

  /** The scan of candidate IDs finds the first valid peer in the whole table, the source excepted, if there is one. */
  method FindDestinationLink(slots: seq<Option<CmdLink>>, srcId: u64) returns (r: Code, dest: Option<CmdLink>)
    requires |slots| == MAX_OBJ_NUM
    ensures Lookup(slots, srcId).None? ==> r == NOT_EXIST && dest == None
    ensures Lookup(slots, srcId).Some? ==>
              IsDestination(slots, srcId, dest) && r == if dest.Some? then SUCCESS else NO_CMD_EXECUTOR
  {
    var srcLink := Lookup(slots, srcId);
    if srcLink.None? {
      return NOT_EXIST, None;
    }
    var src := srcLink.value;
    var candidateId: u64 := 1;
    while candidateId < CANDIDATE_END
      invariant 1 <= candidateId <= CANDIDATE_END
      invariant forall id: u64 :: 1 <= id < candidateId ==> !Candidate(slots, srcId, src, id)
    {
      if candidateId != srcId {
        var link := Lookup(slots, candidateId);
        if link.Some? && ValidPeer(src, link.value) {
          CandidateHasSlot(slots, candidateId);
          return SUCCESS, Some(link.value);
        }
      }
      candidateId := candidateId + 1;
    }
    r, dest := NO_CMD_EXECUTOR, None;
  }

  /** Every ID below the scan's end that finds a link is the ID of that link's slot. */
  lemma CandidateHasSlot(slots: seq<Option<CmdLink>>, id: u64)
    requires |slots| == MAX_OBJ_NUM && 1 <= id < CANDIDATE_END && Lookup(slots, id).Some?
    ensures var i := TblIdxOf(id); 0 <= i < |slots| && LinkIdOf(i) == id && slots[i] == Lookup(slots, id)
  {
  }

  /** What becomes of a command at its destination: the code returned, and the descriptor as the callback leaves it. */
  function RanAt(dest: Option<CmdLink>, d: CmdDesc): (Code, CmdDesc) {
    if dest.None? || !dest.value.executor || dest.value.usage.None? then (NO_CMD_EXECUTOR, d)
    else if d.cmdId !in dest.value.usage.value.cmdIds then (NOT_SUPPORT, d)
    else dest.value.usage.value.callback(d.(status := STATUS_PROCESSING))
  }

  /** Runs the destination's callback on the given descriptor, which ends up settled unless it was not run at all. */
  method ExecuteCommandViaCallback(dest: CmdLink, cmd: CmdDescVar) returns (r: Code)
    modifies cmd
    ensures !dest.executor || dest.usage.None? ==> r == NO_CMD_EXECUTOR && cmd.desc == old(cmd.desc)
    ensures dest.executor && dest.usage.Some? && old(cmd.desc).cmdId !in dest.usage.value.cmdIds ==>
              r == NOT_SUPPORT && cmd.desc == old(cmd.desc)
    ensures dest.executor && dest.usage.Some? && old(cmd.desc).cmdId in dest.usage.value.cmdIds ==>
              var (result, left) := dest.usage.value.callback(old(cmd.desc).(status := STATUS_PROCESSING));
              && r == result
              && cmd.desc == left.(status := if r == SUCCESS then STATUS_SUCCESS else STATUS_FAILED, result := r)
  {
    if !dest.executor || dest.usage.None? {
      return NO_CMD_EXECUTOR;
    }
    var supported := IsSupported(dest.usage.value.cmdIds, cmd.desc.cmdId);
    if !supported {
      return NOT_SUPPORT;
    }
    cmd.desc := cmd.desc.(status := STATUS_PROCESSING);
    var (callbackResult, left) := dest.usage.value.callback(cmd.desc);
    cmd.desc := left;
    if callbackResult == SUCCESS {
      cmd.desc := cmd.desc.(status := STATUS_SUCCESS);
    } else {
      cmd.desc := cmd.desc.(status := STATUS_FAILED);
    }
    cmd.desc := cmd.desc.(result := callbackResult);
    r := callbackResult;
  }

  /**
   * The legacy exec: for a link that exists, the status ends up SUCCESS exactly when the call returns success and FAILED
   * otherwise, with the returned code as result. A failed command leaves everything else of the caller's descriptor as it
   * was; for an unknown link not even the status changes.
   */
  method ExecLegacy(slots: seq<Option<CmdLink>>, linkId: u64, cmd: CmdDescVar) returns (r: Code)
    requires |slots| == MAX_OBJ_NUM
    modifies cmd
    ensures Lookup(slots, linkId).None? ==> r == NOT_EXIST && cmd.desc == old(cmd.desc)
    ensures Lookup(slots, linkId).Some? ==>
              && cmd.desc.status == (if r == SUCCESS then STATUS_SUCCESS else STATUS_FAILED)
              && cmd.desc.result == r
              && (r != SUCCESS ==> cmd.desc == old(cmd.desc).(status := STATUS_FAILED, result := r))
              && exists dest ::
                   && IsDestination(slots, linkId, dest)
                   && var (result, left) := RanAt(dest, old(cmd.desc).(status := STATUS_PENDING));
                      r == result && (r == SUCCESS ==> cmd.desc == left.(status := STATUS_SUCCESS, result := SUCCESS))
  {
    if Lookup(slots, linkId).None? {
      return NOT_EXIST;
    }
    cmd.desc := cmd.desc.(status := STATUS_PENDING);
    var findResult, dest := FindDestinationLink(slots, linkId);
    if findResult != SUCCESS {
      cmd.desc := cmd.desc.(status := STATUS_FAILED);
      cmd.desc := cmd.desc.(result := findResult);
      return findResult;
    }
    var context := new CmdDescVar();
    context.desc := cmd.desc;
    r := ExecuteCommandViaCallback(dest.value, context);
    if r == SUCCESS {
      cmd.desc := context.desc;
    } else {
      cmd.desc := cmd.desc.(status := STATUS_FAILED);
      cmd.desc := cmd.desc.(result := r);
    }
  }
}
