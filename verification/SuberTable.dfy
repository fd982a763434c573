/** The subscriber table of a ConlesMode link, the snapshot a delivery takes of it, and the link's busy flags. */
module SuberTables {
  import opened Results
  import Slots

  const MAX_SUBSCRIBER: nat := 128

  /** A consumer is identified by its callback and its private data. */
  datatype Consumer = Consumer(cbProcEvt: int, cbPrivData: int)

  /** `evtIds` models EvtNum and the copied pEvtIDs array together. */
  datatype SubEvtArgs = SubEvtArgs(who: Consumer, evtIds: seq<int>)

  datatype Suber = Suber(subed: bool, args: SubEvtArgs)

  /** The value of a table: its slots and its separately kept counter. */
  datatype Table = Table(subers: seq<Suber>, suberNum: nat)

  predicate Holds(s: Suber, who: Consumer) {
    s.subed && s.args.who == who
  }

  predicate Wants(args: SubEvtArgs, evtId: int) {
    args.evtIds == [] || evtId in args.evtIds
  }

  predicate Registered(subers: seq<Suber>, who: Consumer) {
    exists i :: 0 <= i < |subers| && Holds(subers[i], who)
  }

  /** `who` is in the table with a subscription that covers `evtId`. */
  predicate Listens(subers: seq<Suber>, who: Consumer, evtId: int) {
    exists i :: 0 <= i < |subers| && Holds(subers[i], who) && Wants(subers[i].args, evtId)
  }

  predicate IsSubed(s: Suber) {
    s.subed
  }

  predicate IsFree(s: Suber) {
    !s.subed
  }

  function CountSubed(subers: seq<Suber>): (n: nat) {
    Slots.CountOf(subers, IsSubed)
  }

  ghost predicate DistinctConsumers(subers: seq<Suber>) {
    forall i, j :: 0 <= i < j < |subers| && subers[i].subed && subers[j].subed ==> subers[i].args.who != subers[j].args.who
  }

  /** What every operation keeps: the counter is exact and no two subscribed slots share a consumer. */
  ghost predicate Consistent(t: Table) {
    |t.subers| == MAX_SUBSCRIBER && t.suberNum == CountSubed(t.subers) && DistinctConsumers(t.subers)
  }

  /** Index of the first slot that is not subscribed, or the table's length. */
  function FirstFree(subers: seq<Suber>): (n: nat)
    ensures n <= |subers|
    ensures forall i :: 0 <= i < n ==> subers[i].subed
    ensures n < |subers| ==> !subers[n].subed
  {
    var n := Slots.FirstOf(subers, IsFree);
    assert forall i :: 0 <= i < n ==> !IsFree(subers[i]);
    n
  }

  /** Index of the first slot subscribed by `who`, or the table's length. */
  function FirstHeldBy(subers: seq<Suber>, who: Consumer): (n: nat)
    ensures n <= |subers|
    ensures forall i :: 0 <= i < n ==> !Holds(subers[i], who)
    ensures n < |subers| ==> Holds(subers[n], who)
  {
    if subers == [] || Holds(subers[0], who) then 0 else 1 + FirstHeldBy(subers[1..], who)
  }

  function Inserted(t: Table, args: SubEvtArgs): (Code, Table) {
    if t.suberNum >= MAX_SUBSCRIBER then (TOO_MANY, t)
    else if FirstHeldBy(t.subers, args.who) < |t.subers| then (CONFLICT, t)
    else
      var i := FirstFree(t.subers);
      if i < |t.subers| then (SUCCESS, Table(t.subers[i := Suber(true, args)], t.suberNum + 1))
      else (SUCCESS, t) // the search found nothing, and the code still reports success
  }

  function Removed(t: Table, who: Consumer): (Code, Table) {
    if t.suberNum == 0 then (NO_EVENT_CONSUMER, t)
    else
      var i := FirstHeldBy(t.subers, who);
      if i < |t.subers| then
        (SUCCESS, Table(t.subers[i := t.subers[i].(subed := false)], t.suberNum - 1))
      else (SUCCESS, t) // nothing removed, and the code still reports success
  }

  /** Slots, in increasing order, whose subscription covers `evtId`. */
  function MatchingSlots(subers: seq<Suber>, evtId: int): (m: seq<nat>)
    ensures forall k :: 0 <= k < |m| ==> m[k] < |subers| && subers[m[k]].subed && Wants(subers[m[k]].args, evtId)
    ensures forall j, k :: 0 <= j < k < |m| ==> m[j] < m[k]
    ensures forall i :: 0 <= i < |subers| && subers[i].subed && Wants(subers[i].args, evtId) ==> i in m
  {
    if subers == [] then []
    else
      var n := |subers| - 1;
      var m := MatchingSlots(subers[..n], evtId);
      if subers[n].subed && Wants(subers[n].args, evtId) then m + [n] else m
  }

  /** The consumers a delivery of `evtId` calls back when it takes its snapshot of `subers`. */
  function Snapshot(subers: seq<Suber>, evtId: int): (who: seq<Consumer>)
    ensures |who| == |MatchingSlots(subers, evtId)|
  {
    var m := MatchingSlots(subers, evtId);
    seq(|m|, k requires 0 <= k < |m| => subers[m[k]].args.who)
  }

  lemma SnapshotAppend(subers: seq<Suber>, suber: Suber, evtId: int)
    ensures Snapshot(subers + [suber], evtId)
         == Snapshot(subers, evtId) + if suber.subed && Wants(suber.args, evtId) then [suber.args.who] else []
  {
    assert (subers + [suber])[..|subers|] == subers;
  }

  /** A count below the number of slots means a free slot, and a free slot means a count below. */
  lemma FullCount(subers: seq<Suber>)
    ensures CountSubed(subers) == |subers| <==> FirstFree(subers) == |subers|
  {
    Slots.CountIsFull(subers, IsSubed);
  }

  /**
   * A subscribe call keeps the table consistent; a full table refuses everybody, a table with room only consumers that it
   * has; success really registers the consumer, for its events, in a slot that was free; and nothing else moves.
   */
  lemma InsertRegisters(t: Table, args: SubEvtArgs)
    requires Consistent(t)
    ensures Consistent(Inserted(t, args).1)
    ensures Inserted(t, args).0 in {SUCCESS, TOO_MANY, CONFLICT}
    ensures Inserted(t, args).0 == SUCCESS <==> CountSubed(t.subers) < MAX_SUBSCRIBER && !Registered(t.subers, args.who)
    ensures Inserted(t, args).0 == TOO_MANY <==> CountSubed(t.subers) == MAX_SUBSCRIBER
    ensures Inserted(t, args).0 == CONFLICT <==> CountSubed(t.subers) < MAX_SUBSCRIBER && Registered(t.subers, args.who)
    ensures Inserted(t, args).0 != SUCCESS ==> Inserted(t, args).1 == t
    ensures Inserted(t, args).0 == SUCCESS ==>
              exists i :: 0 <= i < MAX_SUBSCRIBER && !t.subers[i].subed && Inserted(t, args).1.subers == t.subers[i := Suber(true, args)]
    ensures Inserted(t, args).0 == SUCCESS ==>
              forall who :: Registered(Inserted(t, args).1.subers, who) <==> Registered(t.subers, who) || who == args.who
  {
    FullCount(t.subers);
    var (r, t') := Inserted(t, args);
    if r == SUCCESS {
      var i := FirstFree(t.subers);
      Slots.CountAfterUpdate(t.subers, IsSubed, i, Suber(true, args));
      forall who ensures Registered(t'.subers, who) <==> Registered(t.subers, who) || who == args.who {
        if Registered(t.subers, who) {
          var j :| 0 <= j < |t.subers| && Holds(t.subers[j], who);
          assert Holds(t'.subers[j], who);
        }
        assert Holds(t'.subers[i], args.who);
      }
    }
  }

  /**
   * An unsubscribe call keeps the table consistent and takes out exactly the named consumer. It reports success exactly
   * when somebody is subscribed, whether or not the named consumer was one of them.
   */
  lemma RemoveUnregisters(t: Table, who: Consumer)
    requires Consistent(t)
    ensures Consistent(Removed(t, who).1)
    ensures Removed(t, who).0 == if CountSubed(t.subers) > 0 then SUCCESS else NO_EVENT_CONSUMER
    ensures forall w :: Registered(Removed(t, who).1.subers, w) <==> Registered(t.subers, w) && w != who
    ensures !Registered(t.subers, who) ==> Removed(t, who).1 == t
    ensures forall w, id :: w != who ==> (Listens(Removed(t, who).1.subers, w, id) <==> Listens(t.subers, w, id))
  {
    var t' := Removed(t, who).1;
    var i := FirstHeldBy(t.subers, who);
    if t.suberNum == 0 {
      Slots.CountIsZero(t.subers, IsSubed);
      assert forall j :: 0 <= j < |t.subers| ==> !IsSubed(t.subers[j]);
    } else if i < |t.subers| {
      Slots.CountAfterUpdate(t.subers, IsSubed, i, t.subers[i].(subed := false));
      forall w ensures Registered(t'.subers, w) <==> Registered(t.subers, w) && w != who {
        if Registered(t.subers, w) && w != who {
          var j :| 0 <= j < |t.subers| && Holds(t.subers[j], w);
          assert Holds(t'.subers[j], w);
        }
      }
      forall w, id | w != who && Listens(t.subers, w, id) ensures Listens(t'.subers, w, id) {
        var j :| 0 <= j < |t.subers| && Holds(t.subers[j], w) && Wants(t.subers[j].args, id);
        assert Holds(t'.subers[j], w) && Wants(t'.subers[j].args, id);
      }
    }
  }

  lemma ListensIsRegistered(subers: seq<Suber>, who: Consumer, id: int)
    requires Listens(subers, who, id)
    ensures Registered(subers, who)
  {
    var i :| 0 <= i < |subers| && Holds(subers[i], who) && Wants(subers[i].args, id);
    assert Holds(subers[i], who);
  }

  /** An insert that succeeds makes the consumer listen for exactly the events it named, and changes nobody else's. */
  lemma InsertListens(t: Table, args: SubEvtArgs)
    requires Consistent(t)
    ensures var (r, t') := Inserted(t, args);
            && (r == TOO_MANY <==> CountSubed(t.subers) == MAX_SUBSCRIBER)
            && (r == CONFLICT <==> CountSubed(t.subers) < MAX_SUBSCRIBER && Registered(t.subers, args.who))
            && (r == SUCCESS <==> CountSubed(t.subers) < MAX_SUBSCRIBER && !Registered(t.subers, args.who))
            && (r == SUCCESS ==> forall id :: Listens(t'.subers, args.who, id) <==> Wants(args, id))
            && (forall w, id :: w != args.who || r != SUCCESS ==> (Listens(t'.subers, w, id) <==> Listens(t.subers, w, id)))
  {
    InsertRegisters(t, args);
    var (r, t') := Inserted(t, args);
    if r == SUCCESS {
      var i :| 0 <= i < MAX_SUBSCRIBER && !t.subers[i].subed && t'.subers == t.subers[i := Suber(true, args)];
      PutListens(t.subers, i, args);
    }
  }

  lemma PutListens(subers: seq<Suber>, i: nat, args: SubEvtArgs)
    requires i < |subers| && !subers[i].subed && !Registered(subers, args.who)
    ensures var after := subers[i := Suber(true, args)];
            && (forall id :: Listens(after, args.who, id) <==> Wants(args, id))
            && (forall w, id :: w != args.who ==> (Listens(after, w, id) <==> Listens(subers, w, id)))
  {
    var after := subers[i := Suber(true, args)];
    assert forall j :: 0 <= j < |after| && j != i ==> after[j] == subers[j] && !Holds(after[j], args.who);
    forall id ensures Listens(after, args.who, id) <==> Wants(args, id) {
      assert Holds(after[i], args.who);
    }
    forall w, id | w != args.who ensures Listens(after, w, id) <==> Listens(subers, w, id) {
      if j :| 0 <= j < |after| && Holds(after[j], w) && Wants(after[j].args, id) {
        assert Holds(subers[j], w) && Wants(subers[j].args, id);
      }
      if j :| 0 <= j < |subers| && Holds(subers[j], w) && Wants(subers[j].args, id) {
        assert Holds(after[j], w) && Wants(after[j].args, id);
      }
    }
  }

  lemma RemoveListens(t: Table, who: Consumer)
    requires Consistent(t)
    ensures forall w, id :: Listens(Removed(t, who).1.subers, w, id) <==> w != who && Listens(t.subers, w, id)
  {
    RemoveUnregisters(t, who);
    var t' := Removed(t, who).1;
    forall id ensures !Listens(t'.subers, who, id) {
      if Listens(t'.subers, who, id) {
        ListensIsRegistered(t'.subers, who, id);
      }
    }
  }

  lemma InSnapshotIff(subers: seq<Suber>, evtId: int, w: Consumer)
    ensures w in Snapshot(subers, evtId) <==> Listens(subers, w, evtId)
  {
    var m := MatchingSlots(subers, evtId);
    var s := Snapshot(subers, evtId);
    if w in s {
      var k :| 0 <= k < |s| && s[k] == w;
      assert Holds(subers[m[k]], w) && Wants(subers[m[k]].args, evtId);
    }
    if Listens(subers, w, evtId) {
      var i :| 0 <= i < |subers| && Holds(subers[i], w) && Wants(subers[i].args, evtId);
      var k :| 0 <= k < |m| && m[k] == i;
      assert s[k] == w;
    }
  }

  /** The snapshot of a consistent table names exactly the consumers that listen for the event, each once. */
  lemma SnapshotExact(subers: seq<Suber>, evtId: int)
    requires DistinctConsumers(subers)
    ensures forall w :: w in Snapshot(subers, evtId) <==> Listens(subers, w, evtId)
    ensures forall j, k :: 0 <= j < k < |Snapshot(subers, evtId)| ==> Snapshot(subers, evtId)[j] != Snapshot(subers, evtId)[k]
  {
    forall w ensures w in Snapshot(subers, evtId) <==> Listens(subers, w, evtId) {
      InSnapshotIff(subers, evtId, w);
    }
    var m := MatchingSlots(subers, evtId);
    forall j, k | 0 <= j < k < |m| ensures Snapshot(subers, evtId)[j] != Snapshot(subers, evtId)[k] {
      assert m[j] < m[k] && subers[m[j]].subed && subers[m[k]].subed;
    }
  }

  /** And in the order of their slots. */
  lemma SnapshotInSlotOrder(subers: seq<Suber>, evtId: int, j: nat, k: nat, a: nat, b: nat)
    requires DistinctConsumers(subers) && j < k < |Snapshot(subers, evtId)| && a < |subers| && b < |subers|
    requires Holds(subers[a], Snapshot(subers, evtId)[j]) && Holds(subers[b], Snapshot(subers, evtId)[k])
    ensures a < b
  {
    var m := MatchingSlots(subers, evtId);
    assert Holds(subers[m[j]], Snapshot(subers, evtId)[j]) && Holds(subers[m[k]], Snapshot(subers, evtId)[k]);
    assert a == m[j] && b == m[k];
  }

  /** The table as the link object holds it: an array updated in place beside its counter. */
  class SuberList {
    const subers: array<Suber>
    var suberNum: nat

    ghost function Value(): Table
      reads this, subers
    {
      Table(subers[..], suberNum)
    }

    constructor (blank: SubEvtArgs)
      ensures fresh(subers)
      ensures Consistent(Value()) && suberNum == 0
    {
      suberNum := 0;
      subers := new Suber[128](_ => Suber(false, blank));
      new;
      Slots.CountIsZero(subers[..], IsSubed);
    }

    method InsertSuber(args: SubEvtArgs) returns (r: Code)
      requires Consistent(Value())
      modifies this, subers
      ensures Consistent(Value())
      ensures (r, Value()) == Inserted(old(Value()), args)
    {
      InsertRegisters(Value(), args);
      if suberNum >= MAX_SUBSCRIBER {
        return TOO_MANY;
      }
      for i := 0 to MAX_SUBSCRIBER
        invariant forall j :: 0 <= j < i ==> !Holds(subers[j], args.who)
      {
        if subers[i].subed {
          if subers[i].args.who == args.who {
            return CONFLICT;
          }
        }
      }
      for i := 0 to MAX_SUBSCRIBER
        invariant subers[..] == old(subers[..]) && suberNum == old(suberNum)
        invariant forall j :: 0 <= j < i ==> subers[j].subed
      {
        if !subers[i].subed {
          subers[i] := Suber(true, args);
          suberNum := suberNum + 1;
          assert FirstFree(old(subers[..])) == i;
          break;
        }
      }
      r := SUCCESS;
    }

    method RemoveSuber(who: Consumer) returns (r: Code)
      requires Consistent(Value())
      modifies this, subers
      ensures Consistent(Value())
      ensures (r, Value()) == Removed(old(Value()), who)
    {
      RemoveUnregisters(Value(), who);
      if suberNum == 0 {
        return NO_EVENT_CONSUMER;
      }
      for i := 0 to MAX_SUBSCRIBER
        invariant subers[..] == old(subers[..]) && suberNum == old(suberNum)
        invariant forall j :: 0 <= j < i ==> !Holds(subers[j], who)
      {
        if subers[i].subed {
          if subers[i].args.who == who {
            subers[i] := subers[i].(subed := false);
            suberNum := suberNum - 1;
            assert FirstHeldBy(old(subers[..]), who) == i;
            break;
          }
        }
      }
      r := SUCCESS;
    }

    /** The search for an event in a subscription; one without event IDs takes them all. */
    method IsMatched(args: SubEvtArgs, evtId: int) returns (isMatched: bool)
      ensures isMatched <==> Wants(args, evtId)
    {
      isMatched := false;
      if |args.evtIds| == 0 {
        return true;
      }
      for j := 0 to |args.evtIds|
        invariant evtId !in args.evtIds[..j]
      {
        if evtId == args.evtIds[j] {
          return true;
        }
      }
      assert args.evtIds[..|args.evtIds|] == args.evtIds;
    }

    /** First phase of a delivery: collect the consumers to call, under the table's lock. */
    method CollectMatching(evtId: int) returns (active: seq<Consumer>)
      requires subers.Length == MAX_SUBSCRIBER
      ensures active == Snapshot(subers[..], evtId)
    {
      active := [];
      for i := 0 to MAX_SUBSCRIBER
        invariant active == Snapshot(subers[..i], evtId)
      {
        assert subers[..i + 1] == subers[..i] + [subers[i]];
        SnapshotAppend(subers[..i], subers[i], evtId);
        if subers[i].subed {
          var isMatched := IsMatched(subers[i].args, evtId);
          if isMatched {
            active := active + [subers[i].args.who];
          }
        }
      }
      assert subers[..MAX_SUBSCRIBER] == subers[..];
    }
  }
}

/** The busy flags of a link and the main state derived from them. */
module LinkStates {
  datatype MainState = Ready | BusyCbProcEvt | BusySubEvt | BusyUnsubEvt

  datatype Behavior = EnterCbProcEvt | LeaveCbProcEvt | EnterSubEvt | LeaveSubEvt | EnterUnsubEvt | LeaveUnsubEvt

  datatype LinkState = LinkState(main: MainState, isInCbProc: bool, isInSub: bool, isInUnsub: bool)

  /** Callback beats subscribe beats unsubscribe beats ready. */
  function Priority(isInCbProc: bool, isInSub: bool, isInUnsub: bool): MainState {
    if isInCbProc then BusyCbProcEvt
    else if isInSub then BusySubEvt
    else if isInUnsub then BusyUnsubEvt
    else Ready
  }

  function Transferred(s: LinkState, b: Behavior): LinkState {
    var t := match b
      case EnterCbProcEvt => s.(isInCbProc := true)
      case LeaveCbProcEvt => s.(isInCbProc := false)
      case EnterSubEvt => s.(isInSub := true)
      case LeaveSubEvt => s.(isInSub := false)
      case EnterUnsubEvt => s.(isInUnsub := true)
      case LeaveUnsubEvt => s.(isInUnsub := false);
    t.(main := Priority(t.isInCbProc, t.isInSub, t.isInUnsub))
  }

  class LinkStateObj {
    var main: MainState
    var isInCbProc: bool
    var isInSub: bool
    var isInUnsub: bool

    ghost function Value(): LinkState
      reads this
    {
      LinkState(main, isInCbProc, isInSub, isInUnsub)
    }

    method TransferByBehavior(b: Behavior)
      modifies this
      ensures Value() == Transferred(old(Value()), b)
      ensures main == Priority(isInCbProc, isInSub, isInUnsub)
    {
      match b {
        case EnterCbProcEvt => isInCbProc := true;
        case LeaveCbProcEvt => isInCbProc := false;
        case EnterSubEvt => isInSub := true;
        case LeaveSubEvt => isInSub := false;
        case EnterUnsubEvt => isInUnsub := true;
        case LeaveUnsubEvt => isInUnsub := false;
      }
      if isInCbProc {
        main := BusyCbProcEvt;
      } else if isInSub {
        main := BusySubEvt;
      } else if isInUnsub {
        main := BusyUnsubEvt;
      } else {
        main := Ready;
      }
    }
  }
}
