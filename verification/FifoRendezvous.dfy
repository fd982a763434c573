/**
 * The FIFO protocol's connect/accept rendezvous and the closing of paired links, as interleaved atomic steps of any
 * number of connect, accept and close calls on one service. ConnMutex is an owner field. A critical section under
 * WaitAccptedMutex is one step, the condition wait being the boundary between two, except that connect, which holds it
 * while it looks at its peer twice, does so in two: the peer is not guarded by it. Waits end only when signalled.
 */
module FifoRendezvous {
  import opened Results
  import opened LinkRoles

  /** A link object: the one the c-th connect call made, or the one the a-th accept call made. */
  datatype Name = AtCli(c: nat) | AtSrv(a: nat)

  /**
   * Closing: its own mutex held and its own peer pointer cleared, `target` being what that pointed to.
   * Freed(missed): gone; `missed` when the trylock on the target's mutex failed.
   */
  datatype Phase = Open | Closing(target: Option<Name>) | Freed(missed: bool)

  datatype Link = Link(usage: Usage, peer: Option<Name>, phase: Phase)

  datatype ConnectPc = WantConn | HasConn | Waiting | Woken | Asserting | Leaving(result: Code) | Returned(result: Code)

  /** What an acceptor has decided about a client; history. */
  datatype Verdict = Undecided | Rejected | AcceptedBy(a: nat)

  datatype Client = Client(pc: ConnectPc, verdict: Verdict)

  datatype AcceptPc = Polling | SawNone | Accepted(c: nat) | TimedOut

  datatype State = State(
    capabilities: Usage,
    clients: map<nat, Client>,
    acceptors: map<nat, AcceptPc>,
    links: map<Name, Link>,
    connHolder: Option<nat>,     // who holds ConnMutex
    slot: Option<nat>,           // pConnLinkObj
    busy: set<Name>)             // links whose mutex some other operation holds

  datatype Action =
    | StartConnect(c: nat, usage: Usage)
    | LockConn(c: nat)
    | Announce(c: nat)
    | Check(c: nat)
    | Confirm(c: nat)
    | LeaveConn(c: nat)
    | StartAccept(a: nat)
    | Poll(a: nat)
    | PollAgain(a: nat)
    | GiveUp(a: nat)
    | LockLink(n: Name)
    | UnlockLink(n: Name)
    | CloseBegin(n: Name)
    | CloseEnd(n: Name)

  function Init(capabilities: Usage): State {
    State(capabilities, map[], map[], map[], None, None, {})
  }

  /** The call that made a link has returned it to its caller. */
  predicate Published(s: State, n: Name) {
    match n
    case AtCli(c) => c in s.clients && s.clients[c].pc == Returned(SUCCESS)
    case AtSrv(a) => a in s.acceptors && s.acceptors[a].Accepted?
  }

  /** Every connect and every accept call has its link object. */
  predicate LinksExist(s: State) {
    && (forall c :: c in s.clients ==> AtCli(c) in s.links)
    && (forall a :: a in s.acceptors ==> AtSrv(a) in s.links)
    && (s.slot.Some? ==> s.slot.value in s.clients)
    && (forall n {:trigger TargetExists(s, n)} :: n in s.links ==> TargetExists(s, n))
  }

  predicate TargetExists(s: State, n: Name)
    requires n in s.links
  {
    s.links[n].phase.Closing? && s.links[n].phase.target.Some? ==> s.links[n].phase.target.value in s.links
  }

  /** Connect keeps WaitAccptedMutex from its check to its assertion; links are paired up under it, but not closed. */
  predicate WaitMutexTaken(s: State) {
    s.connHolder.Some? && s.connHolder.value in s.clients && s.clients[s.connHolder.value].pc.Asserting?
  }

  predicate Enabled(s: State, action: Action) {
    match action
    case StartConnect(c, _) => c !in s.clients
    case LockConn(c) => c in s.clients && s.clients[c].pc.WantConn? && s.connHolder.None?
    case Announce(c) => c in s.clients && s.clients[c].pc.HasConn?
    case Check(c) => c in s.clients && s.clients[c].pc.Woken?
    case Confirm(c) => c in s.clients && s.clients[c].pc.Asserting?
    case LeaveConn(c) => c in s.clients && s.clients[c].pc.Leaving?
    case StartAccept(a) => a !in s.acceptors
    case Poll(a) => a in s.acceptors && s.acceptors[a].Polling? && !WaitMutexTaken(s)
    case PollAgain(a) => a in s.acceptors && s.acceptors[a].SawNone?
    case GiveUp(a) => a in s.acceptors && s.acceptors[a].SawNone?
    case LockLink(n) => n in s.links && s.links[n].phase.Open? && n !in s.busy
    case UnlockLink(n) => n in s.busy
    case CloseBegin(n) => n in s.links && Published(s, n) && s.links[n].phase.Open? && n !in s.busy
    case CloseEnd(n) => n in s.links && s.links[n].phase.Closing?
  }

  /** What connect's check decides by the slot and a first load of the peer, after the wait. */
  function ConnectResult(s: State, c: nat): Code
    requires AtCli(c) in s.links
  {
    if s.slot.None? && s.links[AtCli(c)].peer.None? then INCOMPATIBLE_USAGE else SUCCESS
  }

  /** The assertion that follows, on a second load of the peer: the connection was accepted. */
  predicate ConnectAssert(s: State, c: nat)
    requires AtCli(c) in s.links
  {
    s.links[AtCli(c)].peer.Some?
  }

  /** The signal to the waiting client. */
  function Decided(client: Client, verdict: Verdict): Client {
    Client(if client.pc.Waiting? then Woken else client.pc, verdict)
  }

  /** An acceptor's turn under WaitAccptedMutex: nothing there, or a client to refuse or to pair up with. */
  function Polled(s: State, a: nat): State
    requires LinksExist(s) && a in s.acceptors
  {
    if s.slot.None? then s.(acceptors := s.acceptors[a := SawNone])
    else
      var c := s.slot.value;
      var role := Negotiated(s.capabilities, s.links[AtCli(c)].usage);
      if role == {} then s.(slot := None, clients := s.clients[c := Decided(s.clients[c], Rejected)])
      else
        s.(slot := None,
           clients := s.clients[c := Decided(s.clients[c], AcceptedBy(a))],
           acceptors := s.acceptors[a := Accepted(c)],
           links := s.links[AtCli(c) := s.links[AtCli(c)].(peer := Some(AtSrv(a)))]
                           [AtSrv(a) := s.links[AtSrv(a)].(usage := role, peer := Some(AtCli(c)))])
  }

  /** A trylock on a link's mutex succeeds unless an operation or the link's own close holds it. */
  predicate TryLock(s: State, n: Name)
    requires n in s.links
  {
    n !in s.busy && !s.links[n].phase.Closing?
  }

  function CloseEnded(s: State, n: Name): State
    requires LinksExist(s) && n in s.links && s.links[n].phase.Closing?
  {
    assert TargetExists(s, n);
    var target := s.links[n].phase.target;
    var locked := target.Some? && TryLock(s, target.value);
    var cleared := if locked && s.links[target.value].phase.Open?
                   then s.links[target.value := s.links[target.value].(peer := None)] else s.links;
    s.(links := cleared[n := s.links[n].(phase := Freed(target.Some? && !locked))])
  }

  function WithLink(s: State, n: Name, l: Link): State {
    s.(links := s.links[n := l])
  }

  function WithPc(s: State, c: nat, pc: ConnectPc): State
    requires c in s.clients
  {
    s.(clients := s.clients[c := s.clients[c].(pc := pc)])
  }

  function Checked(s: State, c: nat): State
    requires c in s.clients && AtCli(c) in s.links
  {
    var r := ConnectResult(s, c);
    if r == SUCCESS then WithPc(s, c, Asserting)
    else
      WithLink(WithPc(s, c, Leaving(r)), AtCli(c), s.links[AtCli(c)].(phase := Freed(false)))
  }

  /** Confirm is the step over the assertion, taken where it holds, and where it fails in a build without assertions. */
  function Apply(s: State, action: Action): State
    requires LinksExist(s) && Enabled(s, action)
  {
    match action
    case StartConnect(c, usage) =>
      WithLink(s, AtCli(c), Link(usage, None, Open)).(clients := s.clients[c := Client(WantConn, Undecided)])
    case LockConn(c) => WithPc(s, c, HasConn).(connHolder := Some(c))
    case Announce(c) => WithPc(s, c, Waiting).(slot := Some(c))
    case Check(c) => Checked(s, c)
    case Confirm(c) => WithPc(s, c, Leaving(SUCCESS))
    case LeaveConn(c) => WithPc(s, c, Returned(s.clients[c].pc.result)).(connHolder := None)
    case StartAccept(a) => WithLink(s, AtSrv(a), Link(s.capabilities, None, Open)).(acceptors := s.acceptors[a := Polling])
    case Poll(a) => Polled(s, a)
    case PollAgain(a) => s.(acceptors := s.acceptors[a := Polling])
    case GiveUp(a) =>
      WithLink(s, AtSrv(a), s.links[AtSrv(a)].(phase := Freed(false))).(acceptors := s.acceptors[a := TimedOut])
    case LockLink(n) => s.(busy := s.busy + {n})
    case UnlockLink(n) => s.(busy := s.busy - {n})
    case CloseBegin(n) => WithLink(s, n, s.links[n].(peer := None, phase := Closing(s.links[n].peer)))
    case CloseEnd(n) => CloseEnded(s, n)
  }

  /** Where an interleaving leads, if each of its steps is one the code can take. */
  function Run(s: State, run: seq<Action>): Option<State>
    decreases |run|
  {
    if run == [] then Some(s)
    else if LinksExist(s) && Enabled(s, run[0]) then Run(Apply(s, run[0]), run[1..])
    else None
  }

  predicate Reaches(capabilities: Usage, run: seq<Action>, s: State) {
    Run(Init(capabilities), run) == Some(s)
  }

  // ---------------------------------------------------------------------------------------------------------------
  // The invariant

  /** Whom a link was paired with by its accept, for ever. */
  function Partner(s: State, n: Name): Option<Name> {
    match n
    case AtCli(c) =>
      if c in s.clients && s.clients[c].verdict.AcceptedBy? then Some(AtSrv(s.clients[c].verdict.a)) else None
    case AtSrv(a) => if a in s.acceptors && s.acceptors[a].Accepted? then Some(AtCli(s.acceptors[a].c)) else None
  }

  /** The close of `n` got through: whoever pointed at `n` no longer does. */
  predicate ClosedCleanly(s: State, n: Name) {
    n in s.links && s.links[n].phase == Freed(false)
  }

  predicate HoldsConn(pc: ConnectPc) {
    pc.HasConn? || pc.Waiting? || pc.Woken? || pc.Asserting? || pc.Leaving?
  }

  predicate OneConnects(s: State) {
    && (s.connHolder.Some? ==> s.connHolder.value in s.clients)
    && (forall c :: c in s.clients ==> (HoldsConn(s.clients[c].pc) <==> s.connHolder == Some(c)))
    && (s.slot.Some? ==> s.slot.value in s.clients)
    && (forall c :: c in s.clients ==> (s.clients[c].pc.Waiting? <==> s.slot == Some(c)))
  }

  predicate ClientOk(s: State, c: nat)
    requires c in s.clients && AtCli(c) in s.links
  {
    var client := s.clients[c];
    var l := s.links[AtCli(c)];
    && (client.verdict.Undecided? <==> client.pc.WantConn? || client.pc.HasConn? || client.pc.Waiting?)
    && (client.verdict.Rejected? ==> Negotiated(s.capabilities, l.usage) == {})
    && (if client.pc.Leaving? || client.pc.Returned? then
          if client.pc.result == SUCCESS then client.verdict.AcceptedBy? && (client.pc.Leaving? ==> l.phase.Open?)
          else
            && client.pc.result == INCOMPATIBLE_USAGE && l.phase == Freed(false)
            && (client.verdict.AcceptedBy? ==> ClosedCleanly(s, AtSrv(client.verdict.a)))
        else l.phase.Open? && (client.pc.Asserting? ==> client.verdict.AcceptedBy?))
  }

  predicate AcceptorOk(s: State, a: nat)
    requires a in s.acceptors && AtSrv(a) in s.links
  {
    match s.acceptors[a]
    case TimedOut => s.links[AtSrv(a)].phase == Freed(false)
    case Accepted(c) =>
      && AtCli(c) in s.links
      && s.links[AtSrv(a)].usage == Negotiated(s.capabilities, s.links[AtCli(c)].usage) && s.links[AtSrv(a)].usage != {}
    case _ => s.links[AtSrv(a)].phase.Open?
  }

  /** Pairs are mutual. */
  predicate Paired(s: State, n: Name)
    requires n in s.links
  {
    var p := Partner(s, n);
    p.Some? ==> p.value in s.links && Partner(s, p.value) == Some(n)
  }

  /** An open link points at its partner until the partner's close has cleared the pointer; a closing one has let go. */
  predicate PeerExact(s: State, n: Name)
    requires n in s.links
  {
    var l := s.links[n];
    var p := Partner(s, n);
    && (l.phase.Open? ==> l.peer == if p.Some? && !ClosedCleanly(s, p.value) then p else None)
    && (l.phase.Closing? ==> l.peer.None? && p.Some?)
    && (l.phase.Closing? ==> if l.phase.target.Some? then l.phase.target == p else ClosedCleanly(s, p.value))
  }

  predicate NameOk(s: State, n: Name) {
    && (n in s.links ==> PeerExact(s, n) && Paired(s, n) && TargetExists(s, n))
    && (n.AtCli? && n.c in s.clients ==> n in s.links && ClientOk(s, n.c))
    && (n.AtSrv? && n.a in s.acceptors ==> n in s.links && AcceptorOk(s, n.a))
  }

  ghost predicate Inv(s: State) {
    LinksExist(s) && OneConnects(s) && forall n :: NameOk(s, n)
  }

  predicate SameRecord(s: State, s': State, m: Name) {
    match m
    case AtCli(c) => (c in s.clients <==> c in s'.clients) && (c in s.clients ==> s'.clients[c] == s.clients[c])
    case AtSrv(a) => (a in s.acceptors <==> a in s'.acceptors) && (a in s.acceptors ==> s'.acceptors[a] == s.acceptors[a])
  }

  predicate SameLink(s: State, s': State, m: Name) {
    (m in s.links <==> m in s'.links) && (m in s.links ==> s'.links[m] == s.links[m])
  }

  /** A step that leaves a name's record and link and its partner's link alone keeps what the invariant says of the name. */
  lemma NameUntouched(s: State, s': State, m: Name)
    requires NameOk(s, m) && s'.capabilities == s.capabilities && s.links.Keys <= s'.links.Keys
    requires SameRecord(s, s', m) && SameLink(s, s', m)
    requires Partner(s, m).Some? ==>
               && NameOk(s, Partner(s, m).value) && SameLink(s, s', Partner(s, m).value)
               && Partner(s', Partner(s, m).value) == Partner(s, Partner(s, m).value)
    ensures NameOk(s', m)
  {
  }

  lemma StartKeepsName(s: State, action: Action, m: Name)
    requires Inv(s) && Enabled(s, action) && (action.StartConnect? || action.StartAccept?)
    ensures NameOk(Apply(s, action), m)
  {
    var made := if action.StartConnect? then AtCli(action.c) else AtSrv(action.a);
    assert NameOk(s, m) && NameOk(s, made);
    if Partner(s, m).Some? {
      assert NameOk(s, Partner(s, m).value);
    }
    if m != made {
      NameUntouched(s, Apply(s, action), m);
    }
  }

  lemma ConnectPcKeepsName(s: State, action: Action, m: Name)
    requires Inv(s) && Enabled(s, action) && (action.LockConn? || action.Announce? || action.Confirm? || action.LeaveConn?)
    ensures NameOk(Apply(s, action), m)
  {
    assert NameOk(s, m);
    if Partner(s, m).Some? {
      assert NameOk(s, Partner(s, m).value);
    }
    if m == AtCli(action.c) {
      PcKeepsOwnName(s, action.c, Apply(s, action).clients[action.c].pc, Apply(s, action));
    } else {
      NameUntouched(s, Apply(s, action), m);
    }
  }

  /** A client's own name, when only its program counter moves on, without its verdict or its link. */
  lemma PcKeepsOwnName(s: State, c: nat, pc: ConnectPc, s': State)
    requires NameOk(s, AtCli(c)) && c in s.clients
    requires Partner(s, AtCli(c)).Some? ==> NameOk(s, Partner(s, AtCli(c)).value)
    requires s'.capabilities == s.capabilities && s'.links == s.links && s'.acceptors == s.acceptors
    requires s'.clients == s.clients[c := s.clients[c].(pc := pc)] && ClientOk(s', c)
    ensures NameOk(s', AtCli(c))
  {
  }

  lemma CheckKeepsName(s: State, c: nat, m: Name)
    requires Inv(s) && Enabled(s, Check(c))
    ensures NameOk(Checked(s, c), m)
  {
    assert NameOk(s, m) && NameOk(s, AtCli(c));
    if Partner(s, m).Some? {
      assert NameOk(s, Partner(s, m).value);
    }
    if m == AtCli(c) || Partner(s, m) == Some(AtCli(c)) {
      CheckKeepsPair(s, c, m);
    } else {
      NameUntouched(s, Checked(s, c), m);
    }
  }

  lemma CheckKeepsPair(s: State, c: nat, m: Name)
    requires LinksExist(s) && OneConnects(s) && Enabled(s, Check(c)) && NameOk(s, m) && NameOk(s, AtCli(c))
    requires m == AtCli(c) || Partner(s, m) == Some(AtCli(c))
    ensures NameOk(Checked(s, c), m)
  {
    assert Partner(Checked(s, c), m) == Partner(s, m);
  }

  lemma AcceptPcKeepsName(s: State, action: Action, m: Name)
    requires Inv(s) && Enabled(s, action) && (action.PollAgain? || action.GiveUp?)
    ensures NameOk(Apply(s, action), m)
  {
    assert NameOk(s, m);
    if Partner(s, m).Some? {
      assert NameOk(s, Partner(s, m).value);
    }
    if m != AtSrv(action.a) {
      NameUntouched(s, Apply(s, action), m);
    }
  }

  lemma PollKeepsName(s: State, a: nat, m: Name)
    requires Inv(s) && Enabled(s, Poll(a))
    ensures NameOk(Polled(s, a), m)
  {
    assert NameOk(s, m) && NameOk(s, AtSrv(a));
    if s.slot.Some? {
      assert NameOk(s, AtCli(s.slot.value));
    }
    if m == AtSrv(a) || (s.slot.Some? && m == AtCli(s.slot.value)) {
      PollKeepsPair(s, a, m);
    } else {
      PollLeavesOthers(s, a, m);
      if Partner(s, m).Some? {
        assert NameOk(s, Partner(s, m).value);
        PollLeavesOthers(s, a, Partner(s, m).value);
      }
      NameUntouched(s, Polled(s, a), m);
    }
  }

  lemma PollLeavesOthers(s: State, a: nat, m: Name)
    requires LinksExist(s) && Enabled(s, Poll(a)) && m != AtSrv(a) && (s.slot.Some? ==> m != AtCli(s.slot.value))
    ensures SameLink(s, Polled(s, a), m) && SameRecord(s, Polled(s, a), m) && s.links.Keys <= Polled(s, a).links.Keys
    ensures Polled(s, a).capabilities == s.capabilities
  {
  }

  lemma PollKeepsPair(s: State, a: nat, m: Name)
    requires LinksExist(s) && OneConnects(s) && Enabled(s, Poll(a)) && NameOk(s, AtSrv(a))
    requires s.slot.Some? ==> NameOk(s, AtCli(s.slot.value))
    requires m == AtSrv(a) || (s.slot.Some? && m == AtCli(s.slot.value))
    ensures NameOk(Polled(s, a), m)
  {
  }

  lemma LockKeepsName(s: State, action: Action, m: Name)
    requires Inv(s) && Enabled(s, action) && (action.LockLink? || action.UnlockLink?)
    ensures NameOk(Apply(s, action), m)
  {
    assert NameOk(s, m);
    if Partner(s, m).Some? {
      assert NameOk(s, Partner(s, m).value);
    }
    NameUntouched(s, Apply(s, action), m);
  }

  lemma CloseBeginKeepsName(s: State, n: Name, m: Name)
    requires Inv(s) && Enabled(s, CloseBegin(n))
    ensures NameOk(Apply(s, CloseBegin(n)), m)
  {
    assert NameOk(s, m) && NameOk(s, n);
    if Partner(s, m).Some? {
      assert NameOk(s, Partner(s, m).value);
    }
    if m != n && Partner(s, m) != Some(n) {
      NameUntouched(s, Apply(s, CloseBegin(n)), m);
    }
  }

  lemma CloseEndKeepsName(s: State, n: Name, m: Name)
    requires Inv(s) && Enabled(s, CloseEnd(n))
    ensures NameOk(CloseEnded(s, n), m)
  {
    assert NameOk(s, m) && NameOk(s, n);
    var p := Partner(s, m);
    if p.Some? {
      assert NameOk(s, p.value);
    }
    if m == n {
      CloseEndKeepsSelf(s, n, p.value);
    } else if p == Some(n) {
      CloseEndKeepsPartner(s, n, m);
    } else {
      CloseEndLeavesOthers(s, n, m);
      if p.Some? {
        CloseEndLeavesOthers(s, n, p.value);
      }
      NameUntouched(s, CloseEnded(s, n), m);
    }
  }

  lemma CloseEndLeavesOthers(s: State, n: Name, m: Name)
    requires LinksExist(s) && Enabled(s, CloseEnd(n)) && NameOk(s, n) && m != n && Partner(s, n) != Some(m)
    ensures SameLink(s, CloseEnded(s, n), m) && s.links.Keys <= CloseEnded(s, n).links.Keys
  {
  }

  lemma CloseEndKeepsSelf(s: State, n: Name, p: Name)
    requires LinksExist(s) && Enabled(s, CloseEnd(n)) && Partner(s, n) == Some(p) && NameOk(s, n) && NameOk(s, p)
    ensures NameOk(CloseEnded(s, n), n)
  {
    var s' := CloseEnded(s, n);
    assert Partner(s', n) == Some(p) && Partner(s', p) == Some(n);
    assert s'.links[n].phase.Freed? && ClosedCleanly(s', p) == ClosedCleanly(s, p);
    assert s'.links[n].usage == s.links[n].usage && s'.links[p].usage == s.links[p].usage;
  }

  lemma CloseEndKeepsPartner(s: State, n: Name, p: Name)
    requires LinksExist(s) && Enabled(s, CloseEnd(n)) && Partner(s, n) == Some(p) && NameOk(s, n) && NameOk(s, p)
    ensures NameOk(CloseEnded(s, n), p)
  {
    var s' := CloseEnded(s, n);
    assert Partner(s', n) == Some(p) && Partner(s', p) == Some(n);
    assert s'.links[p].phase == s.links[p].phase;
    assert s'.links[n].usage == s.links[n].usage && s'.links[p].usage == s.links[p].usage;
  }

  lemma StepKeepsName(s: State, action: Action, m: Name)
    requires Inv(s) && Enabled(s, action)
    ensures NameOk(Apply(s, action), m)
  {
    match action {
      case StartConnect(_, _) => StartKeepsName(s, action, m);
      case LockConn(_) => ConnectPcKeepsName(s, action, m);
      case Announce(_) => ConnectPcKeepsName(s, action, m);
      case Check(c) => CheckKeepsName(s, c, m);
      case Confirm(_) => ConnectPcKeepsName(s, action, m);
      case LeaveConn(_) => ConnectPcKeepsName(s, action, m);
      case StartAccept(_) => StartKeepsName(s, action, m);
      case Poll(a) => PollKeepsName(s, a, m);
      case PollAgain(_) => AcceptPcKeepsName(s, action, m);
      case GiveUp(_) => AcceptPcKeepsName(s, action, m);
      case LockLink(_) => LockKeepsName(s, action, m);
      case UnlockLink(_) => LockKeepsName(s, action, m);
      case CloseBegin(n) => CloseBeginKeepsName(s, n, m);
      case CloseEnd(n) => CloseEndKeepsName(s, n, m);
    }
  }

  predicate ConnectStep(action: Action) {
    action.StartConnect? || action.LockConn? || action.Announce? || action.Check? || action.Confirm? || action.LeaveConn?
  }

  lemma ConnectKeepsOneConnects(s: State, action: Action)
    requires LinksExist(s) && OneConnects(s) && Enabled(s, action) && ConnectStep(action)
    ensures OneConnects(Apply(s, action))
  {
  }

  lemma PollKeepsOneConnects(s: State, a: nat)
    requires LinksExist(s) && OneConnects(s) && Enabled(s, Poll(a))
    ensures OneConnects(Polled(s, a))
  {
  }

  lemma StepKeepsOneConnects(s: State, action: Action)
    requires LinksExist(s) && OneConnects(s) && Enabled(s, action)
    ensures OneConnects(Apply(s, action))
  {
    if ConnectStep(action) {
      ConnectKeepsOneConnects(s, action);
    } else if action.Poll? {
      PollKeepsOneConnects(s, action.a);
    } else {
      var s' := Apply(s, action);
      assert s'.clients == s.clients && s'.connHolder == s.connHolder && s'.slot == s.slot;
    }
  }

  lemma StepKeepsInv(s: State, action: Action)
    requires Inv(s) && Enabled(s, action)
    ensures Inv(Apply(s, action)) && Apply(s, action).capabilities == s.capabilities
  {
    var s' := Apply(s, action);
    StepKeepsOneConnects(s, action);
    forall m ensures NameOk(s', m) {
      StepKeepsName(s, action, m);
    }
    forall c | c in s'.clients ensures AtCli(c) in s'.links { assert NameOk(s', AtCli(c)); }
    forall a | a in s'.acceptors ensures AtSrv(a) in s'.links { assert NameOk(s', AtSrv(a)); }
    forall n | n in s'.links ensures TargetExists(s', n) { assert NameOk(s', n); }
  }

  lemma {:induction false} RunKeepsInv(s: State, run: seq<Action>, s': State)
    requires Inv(s) && Run(s, run) == Some(s')
    ensures Inv(s') && s'.capabilities == s.capabilities
    decreases |run|
  {
    if run != [] {
      StepKeepsInv(s, run[0]);
      RunKeepsInv(Apply(s, run[0]), run[1..], s');
    }
  }

  lemma ReachableInv(capabilities: Usage, run: seq<Action>, s: State)
    requires Reaches(capabilities, run, s)
    ensures Inv(s) && s.capabilities == capabilities
  {
    RunKeepsInv(Init(capabilities), run, s);
  }

  // ---------------------------------------------------------------------------------------------------------------
  // What holds in every reachable state

  /** The slot is filled exactly while the client holding ConnMutex waits, and it is then filled with that client. */
  lemma SlotHeldByWaiter(capabilities: Usage, run: seq<Action>, s: State, c: nat)
    requires Reaches(capabilities, run, s)
    ensures s.slot == Some(c) <==> c in s.clients && s.clients[c].pc.Waiting?
    ensures s.slot == Some(c) ==> s.connHolder == Some(c)
    ensures c in s.clients ==> (HoldsConn(s.clients[c].pc) <==> s.connHolder == Some(c))
  {
    ReachableInv(capabilities, run, s);
  }

  /** The first assertion of connect holds: the slot is empty when its ConnMutex is taken. */
  lemma FirstAssertionHolds(capabilities: Usage, run: seq<Action>, s: State, c: nat)
    requires Reaches(capabilities, run, s) && c in s.clients && s.clients[c].pc.HasConn?
    ensures s.slot.None?
  {
    ReachableInv(capabilities, run, s);
  }

  /**
   * What an acceptor does in its turn: with nobody in the slot it has seen none; a client there is always answered, and
   * taken out of the slot: refused exactly if its usage complements none of the capabilities, the acceptor polling on, and
   * otherwise paired up with the acceptor's link, which then has the negotiated usage.
   */
  lemma AcceptorAnswers(capabilities: Usage, run: seq<Action>, s: State, a: nat)
    requires Reaches(capabilities, run, s) && LinksExist(s) && Enabled(s, Poll(a))
    ensures s.slot.None? ==> Apply(s, Poll(a)) == s.(acceptors := s.acceptors[a := SawNone])
    ensures s.slot.Some? ==>
              var c := s.slot.value;
              var s' := Apply(s, Poll(a));
              && c in s.clients && s.clients[c].pc.Waiting? && AtCli(c) in s.links
              && s'.slot.None? && c in s'.clients && s'.clients[c].pc.Woken?
              && AtCli(c) in s'.links && AtSrv(a) in s'.links && a in s'.acceptors
              && var role := capabilities * Complements(s.links[AtCli(c)].usage);
              && (s'.clients[c].verdict == Rejected <==> role == {})
              && (s'.clients[c].verdict == AcceptedBy(a) <==> role != {})
              && (role == {} ==> s'.acceptors == s.acceptors && s'.links == s.links)
              && (role != {} ==>
                    && s'.acceptors[a] == Accepted(c) && s'.links[AtSrv(a)].usage == role
                    && s'.links[AtCli(c)].peer == Some(AtSrv(a)) && s'.links[AtSrv(a)].peer == Some(AtCli(c)))
  {
    ReachableInv(capabilities, run, s);
    if s.slot.Some? {
      assert NameOk(s, AtCli(s.slot.value));
    }
  }

  /** How a woken client's connect goes on: to its assertion, or out with INCOMPATIBLE_USAGE, its link gone. */
  lemma CheckDecides(capabilities: Usage, run: seq<Action>, s: State, c: nat)
    requires Reaches(capabilities, run, s) && LinksExist(s) && Enabled(s, Check(c))
    ensures var s' := Apply(s, Check(c));
            var paired := s.clients[c].verdict.AcceptedBy? && !ClosedCleanly(s, AtSrv(s.clients[c].verdict.a));
            && c in s'.clients && AtCli(c) in s'.links
            && (s'.clients[c].pc == Asserting <==> paired)
            && (s'.clients[c].pc == Leaving(INCOMPATIBLE_USAGE) <==> !paired)
            && (s'.links[AtCli(c)].phase.Freed? <==> !paired)
  {
    ReachableInv(capabilities, run, s);
    assert NameOk(s, AtCli(c));
    if s.clients[c].verdict.AcceptedBy? {
      assert NameOk(s, AtSrv(s.clients[c].verdict.a));
    }
  }

  /** What connect returns is what it has decided, and the next one may then begin. */
  lemma ConnectReturns(capabilities: Usage, run: seq<Action>, s: State, c: nat)
    requires Reaches(capabilities, run, s) && LinksExist(s) && Enabled(s, LeaveConn(c))
    ensures var s' := Apply(s, LeaveConn(c));
            && c in s'.clients && s'.connHolder.None? && s'.links == s.links
            && s'.clients[c].pc == Returned(s.clients[c].pc.result) && s.clients[c].pc.result in {SUCCESS, INCOMPATIBLE_USAGE}
            && (s.clients[c].pc.result == SUCCESS ==> s.clients[c].verdict.AcceptedBy?)
  {
    ReachableInv(capabilities, run, s);
    assert NameOk(s, AtCli(c));
  }

  /**
   * The check, connect's first load of its peer, passes exactly when an acceptor has paired the client up and that
   * acceptor's link has not been closed in the meantime; a client without a role to offer is refused, and no other is
   * refused by an acceptor. A wait that no signal has ended would have passed the check as well, without a peer.
   */
  lemma ConnectSucceedsIff(capabilities: Usage, run: seq<Action>, s: State, c: nat)
    requires Reaches(capabilities, run, s) && c in s.clients
    ensures AtCli(c) in s.links
    ensures s.clients[c].pc.Woken? ==>
              && !s.clients[c].verdict.Undecided?
              && (ConnectResult(s, c) == SUCCESS
                  <==> s.clients[c].verdict.AcceptedBy? && !ClosedCleanly(s, AtSrv(s.clients[c].verdict.a)))
              && (s.clients[c].verdict.AcceptedBy? <==> capabilities * Complements(s.links[AtCli(c)].usage) != {})
    ensures s.clients[c].pc.Waiting? ==> ConnectResult(s, c) == SUCCESS && !ConnectAssert(s, c)
  {
    ReachableInv(capabilities, run, s);
    assert NameOk(s, AtCli(c));
    if s.clients[c].verdict.AcceptedBy? {
      assert NameOk(s, AtSrv(s.clients[c].verdict.a));
    }
  }

  /**
   * The second assertion, the second load: after a check that passed it holds, and connect then returns a link with a
   * peer, exactly as long as the acceptor's link has not been closed, clearing the client's pointer, since the check.
   */
  lemma SecondAssertionHoldsIff(capabilities: Usage, run: seq<Action>, s: State, c: nat)
    requires Reaches(capabilities, run, s) && c in s.clients
    requires s.clients[c].pc.Asserting? || s.clients[c].pc == Leaving(SUCCESS)
    ensures AtCli(c) in s.links && s.clients[c].verdict.AcceptedBy?
    ensures ConnectAssert(s, c) <==> !ClosedCleanly(s, AtSrv(s.clients[c].verdict.a))
  {
    ReachableInv(capabilities, run, s);
    assert NameOk(s, AtCli(c));
  }

  /** The step by which the other side's close clears this link's pointer. */
  predicate Severs(s: State, action: Action, n: Name)
    requires LinksExist(s) && Enabled(s, action)
  {
    && action.CloseEnd? && s.links[action.n].phase.target == Some(n)
    && n in s.links && TryLock(s, n) && s.links[n].phase.Open?
  }

  predicate SeveredIn(s: State, run: seq<Action>, n: Name)
    requires Run(s, run).Some?
    decreases |run|
  {
    run != [] && (Severs(s, run[0], n) || SeveredIn(Apply(s, run[0]), run[1..], n))
  }

  predicate AtAssertion(s: State, c: nat) {
    c in s.clients && s.clients[c].pc.Asserting?
  }

  lemma StepSevers(s: State, action: Action, c: nat)
    requires Inv(s) && Enabled(s, action) && AtAssertion(s, c) && action != Confirm(c)
    ensures AtAssertion(Apply(s, action), c) && AtCli(c) in s.links && AtCli(c) in Apply(s, action).links
    ensures ConnectAssert(Apply(s, action), c) <==> ConnectAssert(s, c) && !Severs(s, action, AtCli(c))
  {
    assert NameOk(s, AtCli(c));
    if action.CloseEnd? {
      assert NameOk(s, action.n);
    }
  }

  /** From a check to its assertion, over any run: the peer is still there exactly if it was and no close severed the link. */
  lemma {:induction false} AssertionHoldsIffNotSevered(s: State, c: nat, run: seq<Action>, s': State)
    requires Inv(s) && AtAssertion(s, c) && Run(s, run) == Some(s') && Confirm(c) !in run
    ensures AtAssertion(s', c) && AtCli(c) in s.links && AtCli(c) in s'.links
    ensures ConnectAssert(s', c) <==> ConnectAssert(s, c) && !SeveredIn(s, run, AtCli(c))
    decreases |run|
  {
    assert NameOk(s, AtCli(c));
    if run != [] {
      assert run[0] in run;
      StepKeepsInv(s, run[0]);
      StepSevers(s, run[0], c);
      AssertionHoldsIffNotSevered(Apply(s, run[0]), c, run[1..], s');
    }
  }

  /** No close has failed to get the other side's mutex. */
  predicate EveryTryLockSucceeded(s: State) {
    forall n :: n in s.links ==> s.links[n].phase != Freed(true)
  }

  /** Peers point at each other, or at a link just letting go of them; and never at one that is gone. */
  lemma PeersPointAtEachOther(capabilities: Usage, run: seq<Action>, s: State, n: Name)
    requires Reaches(capabilities, run, s) && EveryTryLockSucceeded(s)
    requires n in s.links && s.links[n].phase.Open? && s.links[n].peer.Some?
    ensures var p := s.links[n].peer.value;
            && p in s.links && !s.links[p].phase.Freed?
            && (if s.links[p].phase.Open? then s.links[p].peer == Some(n) else s.links[p].phase.target == Some(n))
            && (n.AtSrv? <==> p.AtCli?)
  {
    ReachableInv(capabilities, run, s);
    var p := s.links[n].peer.value;
    assert NameOk(s, n);
    assert NameOk(s, p);
    assert n.AtCli? ==> NameOk(s, AtCli(n.c));
    assert n.AtSrv? ==> NameOk(s, AtSrv(n.a));
  }

  /** A pointer to a freed link: exactly what a failed trylock leaves behind on a link that is still open. */
  lemma DanglingIffTryLockFailed(capabilities: Usage, run: seq<Action>, s: State, n: Name, p: Name)
    requires Reaches(capabilities, run, s) && n in s.links && s.links[n].phase.Open? && Partner(s, n) == Some(p)
    ensures p in s.links
    ensures s.links[n].peer == Some(p) && s.links[p].phase.Freed? <==> s.links[p].phase == Freed(true)
  {
    ReachableInv(capabilities, run, s);
    assert NameOk(s, n);
  }

  /** A server link's usage is the non-empty intersection of the service's capabilities with what complements its peer. */
  lemma ServerUsageNegotiated(capabilities: Usage, run: seq<Action>, s: State, a: nat)
    requires Reaches(capabilities, run, s)
    requires AtSrv(a) in s.links && s.links[AtSrv(a)].phase.Open? && s.links[AtSrv(a)].peer.Some?
    ensures var p := s.links[AtSrv(a)].peer.value;
            && p.AtCli? && p in s.links
            && s.links[AtSrv(a)].usage == capabilities * Complements(s.links[p].usage)
            && s.links[AtSrv(a)].usage != {}
  {
    ReachableInv(capabilities, run, s);
    assert NameOk(s, AtSrv(a));
  }

  /** What exec relies on: whoever a client that is only an initiator has for a peer is an executor and nothing else. */
  lemma InitiatorHasExecutorPeer(capabilities: Usage, run: seq<Action>, s: State, c: nat)
    requires Reaches(capabilities, run, s) && AtCli(c) in s.links && s.links[AtCli(c)].phase.Open?
    requires s.links[AtCli(c)].usage == {CmdInitiator} && s.links[AtCli(c)].peer.Some?
    ensures var p := s.links[AtCli(c)].peer.value; p in s.links && s.links[p].usage == {CmdExecutor}
  {
    ReachableInv(capabilities, run, s);
    var p := s.links[AtCli(c)].peer.value;
    assert NameOk(s, AtCli(c));
    assert NameOk(s, p);
    InitiatorGetsExecutor(capabilities);
  }

  // ---------------------------------------------------------------------------------------------------------------
  // What is under way never comes to rest but for want of an acceptor

  /** Steps of the calls under way, as against new calls and the locking of links by other operations. */
  predicate GoesOn(action: Action) {
    match action
    case StartConnect(_, _) => false
    case StartAccept(_) => false
    case LockLink(_) => false
    case UnlockLink(_) => false
    case CloseBegin(_) => false
    case _ => true
  }

  ghost predicate CanMove(s: State) {
    exists action :: GoesOn(action) && Enabled(s, action)
  }

  /** Every accept call has returned, no close is under way, and connects have returned or are held up by one that waits. */
  predicate NobodyAccepts(s: State) {
    && (forall a :: a in s.acceptors ==> s.acceptors[a].Accepted? || s.acceptors[a].TimedOut?)
    && (forall n :: n in s.links ==> !s.links[n].phase.Closing?)
    && (forall c :: c in s.clients ==>
          || s.clients[c].pc.Returned?
          || (s.slot == Some(c) && s.clients[c].pc.Waiting?)
          || (s.slot.Some? && s.clients[c].pc.WantConn?))
  }

  lemma ConnectGoesOn(s: State, c: nat)
    requires Inv(s) && c in s.clients && !s.clients[c].pc.Returned? && s.slot.None?
    ensures CanMove(s)
  {
    var d := if s.connHolder.Some? then s.connHolder.value else c;
    var pc := s.clients[d].pc;
    var action := if pc.WantConn? then LockConn(d)
                  else if pc.HasConn? then Announce(d)
                  else if pc.Woken? then Check(d)
                  else if pc.Asserting? then Confirm(d)
                  else LeaveConn(d);
    assert GoesOn(action) && Enabled(s, action);
  }

  lemma AcceptGoesOn(s: State, a: nat)
    requires Inv(s) && a in s.acceptors && (s.acceptors[a].Polling? || s.acceptors[a].SawNone?)
    ensures CanMove(s)
  {
    if s.acceptors[a].SawNone? {
      assert GoesOn(PollAgain(a)) && Enabled(s, PollAgain(a));
    } else if WaitMutexTaken(s) {
      assert GoesOn(Confirm(s.connHolder.value)) && Enabled(s, Confirm(s.connHolder.value));
    } else {
      assert GoesOn(Poll(a)) && Enabled(s, Poll(a));
    }
  }

  /** So a connect that finds an acceptor at work, or a connect, an accept or a close before its end, can always go on. */
  lemma StuckIff(capabilities: Usage, run: seq<Action>, s: State)
    requires Reaches(capabilities, run, s)
    ensures !CanMove(s) <==> NobodyAccepts(s)
  {
    ReachableInv(capabilities, run, s);
    if !NobodyAccepts(s) {
      if a :| a in s.acceptors && (s.acceptors[a].Polling? || s.acceptors[a].SawNone?) {
        AcceptGoesOn(s, a);
      } else if n :| n in s.links && s.links[n].phase.Closing? {
        assert GoesOn(CloseEnd(n)) && Enabled(s, CloseEnd(n));
      } else if s.slot.None? {
        var c :| c in s.clients && !s.clients[c].pc.Returned?;
        ConnectGoesOn(s, c);
      }
    }
  }

  /**
   * Closing, by the user of a connected or accepted link, with nobody else holding its mutex or its peer's: the link is
   * gone, the other side no longer points at it, and everything else is as it was.
   */
  lemma CloseRuns(capabilities: Usage, run: seq<Action>, s: State, n: Name)
    requires Reaches(capabilities, run, s) && n in s.links && s.links[n].phase.Open? && n !in s.busy
    requires match n
             case AtCli(c) => c in s.clients && s.clients[c].pc == Returned(SUCCESS)
             case AtSrv(a) => a in s.acceptors && s.acceptors[a].Accepted?
    requires s.links[n].peer.Some? ==>
               var p := s.links[n].peer.value; p in s.links && p != n && s.links[p].phase.Open? && p !in s.busy
    ensures LinksExist(s) && Enabled(s, CloseBegin(n))
    ensures var s1 := Apply(s, CloseBegin(n));
            && LinksExist(s1) && Enabled(s1, CloseEnd(n))
            && var s2 := Apply(s1, CloseEnd(n));
            && ClosedCleanly(s2, n) && s2 == s.(links := s2.links) && s2.links.Keys == s.links.Keys
            && forall m :: m in s.links && m != n ==>
                 s2.links[m] == if s.links[n].peer == Some(m) then s.links[m].(peer := None) else s.links[m]
  {
    ReachableInv(capabilities, run, s);
    StepKeepsInv(s, CloseBegin(n));
    assert NameOk(s, n);
  }

  /** An acceptor that has seen nobody may look again, or give up with its link freed; a link locked may be unlocked. */
  lemma OtherSteps(s: State, a: nat, n: Name)
    requires LinksExist(s)
    ensures a in s.acceptors && s.acceptors[a].SawNone? ==>
              && Enabled(s, PollAgain(a)) && Apply(s, PollAgain(a)) == s.(acceptors := s.acceptors[a := Polling])
              && Enabled(s, GiveUp(a)) && AtSrv(a) in Apply(s, GiveUp(a)).links
              && Apply(s, GiveUp(a)).acceptors == s.acceptors[a := TimedOut]
              && Apply(s, GiveUp(a)).links[AtSrv(a)].phase == Freed(false)
    ensures n in s.links && s.links[n].phase.Open? && n !in s.busy ==>
              && Enabled(s, LockLink(n)) && LinksExist(Apply(s, LockLink(n))) && Enabled(Apply(s, LockLink(n)), UnlockLink(n))
              && Apply(Apply(s, LockLink(n)), UnlockLink(n)) == s
  {
    if n in s.links && n !in s.busy {
      assert s.busy + {n} - {n} == s.busy;
      forall m | m in s.links ensures TargetExists(s.(busy := s.busy + {n}), m) {
        assert TargetExists(s, m);
      }
    }
  }

  // ---------------------------------------------------------------------------------------------------------------
  // Runs that end as one would not expect

  ghost predicate Reachable(capabilities: Usage, s: State) {
    exists run :: Reaches(capabilities, run, s)
  }

  lemma {:induction false} RunOn(s: State, run: seq<Action>, action: Action, s': State)
    requires Run(s, run) == Some(s') && LinksExist(s') && Enabled(s', action)
    ensures Run(s, run + [action]) == Some(Apply(s', action))
    decreases |run|
  {
    if run == [] {
      assert run + [action] == [action];
    } else {
      assert (run + [action])[1..] == run[1..] + [action];
      RunOn(Apply(s, run[0]), run[1..], action, s');
    }
  }

  lemma ReachOn(s: State, action: Action, s': State)
    requires Reachable(s.capabilities, s) && LinksExist(s) && Enabled(s, action) && Apply(s, action) == s'
    ensures Reachable(s.capabilities, s')
  {
    var run :| Reaches(s.capabilities, run, s);
    RunOn(Init(s.capabilities), run, action, s);
    assert Reaches(s.capabilities, run + [action], s');
  }

  /** An initiator waits on an executor service. */
  function Connecting(): State {
    State({CmdExecutor}, map[0 := Client(Waiting, Undecided)], map[], map[AtCli(0) := Link({CmdInitiator}, None, Open)],
          Some(0), Some(0), {})
  }

  /** An acceptor has paired it up. */
  function PairedUp(): State {
    State({CmdExecutor}, map[0 := Client(Woken, AcceptedBy(0))], map[0 := Accepted(0)],
          map[AtCli(0) := Link({CmdInitiator}, Some(AtSrv(0)), Open), AtSrv(0) := Link({CmdExecutor}, Some(AtCli(0)), Open)],
          Some(0), None, {})
  }

  lemma ConnectingReachable()
    ensures Reachable({CmdExecutor}, Connecting())
  {
    var s0 := Init({CmdExecutor});
    assert Reaches({CmdExecutor}, [], s0);
    var s1 := Apply(s0, StartConnect(0, {CmdInitiator}));
    ReachOn(s0, StartConnect(0, {CmdInitiator}), s1);
    var s2 := Apply(s1, LockConn(0));
    ReachOn(s1, LockConn(0), s2);
    var s3 := Apply(s2, Announce(0));
    ReachOn(s2, Announce(0), s3);
    assert s3.clients == Connecting().clients && s3.links == Connecting().links;
  }

  /** An acceptor polls beside it. */
  function Announced(): State {
    Connecting().(acceptors := map[0 := Polling], links := Connecting().links[AtSrv(0) := Link({CmdExecutor}, None, Open)])
  }

  lemma PollPairsUp()
    ensures LinksExist(Announced()) && Enabled(Announced(), Poll(0)) && Polled(Announced(), 0) == PairedUp()
  {
    InitiatorGetsExecutor({CmdExecutor});
    assert Decided(Announced().clients[0], AcceptedBy(0)) == PairedUp().clients[0];
    var s := Polled(Announced(), 0);
    assert s.clients == PairedUp().clients;
    assert s.acceptors == PairedUp().acceptors;
    assert s.links == PairedUp().links;
  }

  lemma PairedUpReachable()
    ensures Reachable({CmdExecutor}, PairedUp())
  {
    ConnectingReachable();
    ReachOn(Connecting(), StartAccept(0), Announced());
    PollPairsUp();
    ReachOn(Announced(), Poll(0), PairedUp());
  }

  /** Paired up with the client at `pc`, `busy` being the links whose mutex somebody holds. */
  function PairedAt(pc: ConnectPc, busy: set<Name>): State {
    PairedUp().(clients := map[0 := Client(pc, AcceptedBy(0))], busy := busy)
  }

  lemma CheckedReachable()
    ensures Reachable({CmdExecutor}, PairedAt(Asserting, {}))
  {
    PairedUpReachable();
    assert Apply(PairedUp(), Check(0)).clients == PairedAt(Asserting, {}).clients;
    ReachOn(PairedUp(), Check(0), PairedAt(Asserting, {}));
  }

  lemma ClientBusyReachable()
    ensures Reachable({CmdExecutor}, PairedAt(Woken, {AtCli(0)}))
  {
    PairedUpReachable();
    ReachOn(PairedUp(), LockLink(AtCli(0)), PairedAt(Woken, {AtCli(0)}));
  }

  /** Then the service's side is closing its link. */
  function ServerClosing(pc: ConnectPc, busy: set<Name>): State {
    PairedAt(pc, busy).(links := map[AtCli(0) := Link({CmdInitiator}, Some(AtSrv(0)), Open),
                                     AtSrv(0) := Link({CmdExecutor}, None, Closing(Some(AtCli(0))))])
  }

  lemma ServerClosingReachable(pc: ConnectPc, busy: set<Name>)
    requires Reachable({CmdExecutor}, PairedAt(pc, busy)) && AtSrv(0) !in busy
    ensures Reachable({CmdExecutor}, ServerClosing(pc, busy))
  {
    var s := PairedAt(pc, busy);
    assert Apply(s, CloseBegin(AtSrv(0))).links == ServerClosing(pc, busy).links;
    ReachOn(s, CloseBegin(AtSrv(0)), ServerClosing(pc, busy));
  }

  /** And then it has closed it. */
  function ServerClosed(pc: ConnectPc): State {
    PairedAt(pc, {}).(links := map[AtCli(0) := Link({CmdInitiator}, None, Open),
                                   AtSrv(0) := Link({CmdExecutor}, None, Freed(false))])
  }

  lemma ServerClosingEnds(pc: ConnectPc)
    ensures var s := ServerClosing(pc, {}); LinksExist(s) && CloseEnded(s, AtSrv(0)) == ServerClosed(pc)
  {
    var s := ServerClosing(pc, {});
    assert TargetExists(s, AtCli(0)) && TargetExists(s, AtSrv(0)) && TryLock(s, AtCli(0));
    var client, server := Link({CmdInitiator}, None, Open), Link({CmdExecutor}, None, Freed(false));
    assert s.links[AtCli(0)].(peer := None) == client && s.links[AtSrv(0)].(phase := Freed(false)) == server;
    assert s.links[AtCli(0) := client][AtSrv(0) := server] == map[AtCli(0) := client, AtSrv(0) := server];
  }

  lemma ServerClosedReachable(pc: ConnectPc)
    requires Reachable({CmdExecutor}, PairedAt(pc, {}))
    ensures Reachable({CmdExecutor}, ServerClosed(pc))
  {
    ServerClosingReachable(pc, {});
    ServerClosingEnds(pc);
    ReachOn(ServerClosing(pc, {}), CloseEnd(AtSrv(0)), ServerClosed(pc));
  }

  /** If that is before its check, the client's connect has nothing to report but an incompatible usage. */
  lemma EarlyCloseReachable()
    ensures exists s :: Reachable({CmdExecutor}, s) && EarlyClosed(s)
  {
    PairedUpReachable();
    assert PairedAt(Woken, {}) == PairedUp();
    ServerClosedReachable(Woken);
    var s := Checked(ServerClosed(Woken), 0);
    ReachOn(ServerClosed(Woken), Check(0), s);
    assert EarlyClosed(s);
  }

  predicate EarlyClosed(s: State) {
    && 0 in s.clients && s.clients[0] == Client(Leaving(INCOMPATIBLE_USAGE), AcceptedBy(0))
    && AtCli(0) in s.links && s.links[AtCli(0)].usage == {CmdInitiator}
  }

  /** A client whose role the service can complement is told that it cannot. */
  lemma EarlyCloseReportsIncompatible()
    ensures exists s ::
              && Reachable({CmdExecutor}, s) && EarlyClosed(s)
              && {CmdExecutor} * Complements(s.links[AtCli(0)].usage) != {}
  {
    EarlyCloseReachable();
    var s :| Reachable({CmdExecutor}, s) && EarlyClosed(s);
    assert CmdExecutor in {CmdExecutor} * Complements({CmdInitiator}) by {
      assert Complement(CmdInitiator) == CmdExecutor;
    }
  }

  /** If it is after its check, the assertion fails. */
  lemma CloseBetweenLoadsFailsAssertion()
    ensures Reachable({CmdExecutor}, ServerClosed(Asserting))
    ensures AtAssertion(ServerClosed(Asserting), 0) && !ConnectAssert(ServerClosed(Asserting), 0)
  {
    CheckedReachable();
    ServerClosedReachable(Asserting);
  }

  /** And where assertions are compiled out, connect returns success and a link without a peer. */
  lemma SuccessWithoutPeer()
    ensures exists s ::
              && Reachable({CmdExecutor}, s) && 0 in s.clients && s.clients[0].pc == Returned(SUCCESS)
              && AtCli(0) in s.links && s.links[AtCli(0)].phase.Open? && s.links[AtCli(0)].peer.None?
  {
    CloseBetweenLoadsFailsAssertion();
    var s1 := Apply(ServerClosed(Asserting), Confirm(0));
    ReachOn(ServerClosed(Asserting), Confirm(0), s1);
    ReachOn(s1, LeaveConn(0), Apply(s1, LeaveConn(0)));
  }

  /** A close that finds its peer's mutex taken leaves that peer pointing at a freed link. */
  lemma FailedTryLockLeavesDangling()
    ensures exists s ::
              && Reachable({CmdExecutor}, s) && AtCli(0) in s.links && AtSrv(0) in s.links
              && s.links[AtCli(0)].phase.Open? && s.links[AtCli(0)].peer == Some(AtSrv(0)) && s.links[AtSrv(0)].phase.Freed?
  {
    ClientBusyReachable();
    ServerClosingReachable(Woken, {AtCli(0)});
    var s := ServerClosing(Woken, {AtCli(0)});
    ReachOn(s, CloseEnd(AtSrv(0)), Apply(s, CloseEnd(AtSrv(0))));
  }
}
