/** The global tables of service and link objects, with their activity counters. */
module ObjTables {
  import opened Results
  import opened Bytes
  import Slots

  const MAX_OBJ_NUM: nat := 32
  const AUTO_LINK_ID_MAX: nat := 1024
  const ID_INVALID: u64 := 0xFFFF_FFFF_FFFF_FFFF

  datatype SrvUri = SrvUri(protocol: string, host: string, path: string, port: int)

  datatype Service = Service(id: nat, uri: SrvUri, usage: int)

  datatype LinkObj = LinkObj(id: u64, tag: int)

  // -------------------------------------------------------------------------------------------------------------
  // Slots

  predicate IsUsed<T>(slot: Option<T>) {
    slot.Some?
  }

  predicate IsFree<T>(slot: Option<T>) {
    slot.None?
  }

  function Occupied<T>(slots: seq<Option<T>>): (n: nat) {
    Slots.CountOf(slots, IsUsed)
  }

  lemma OccupiedAfterUpdate<T>(slots: seq<Option<T>>, i: nat, v: Option<T>)
    requires i < |slots|
    ensures Occupied(slots[i := v]) == Occupied(slots) + (if v.Some? then 1 else 0) - (if slots[i].Some? then 1 else 0)
  {
    Slots.CountAfterUpdate(slots, IsUsed, i, v);
  }

  /** The table is full exactly when the count says so: a table that is not has a free slot. */
  lemma FullIffOccupied<T>(slots: seq<Option<T>>)
    ensures Occupied(slots) == |slots| <==> forall i :: 0 <= i < |slots| ==> slots[i].Some?
  {
    Slots.CountIsFull(slots, IsUsed);
    assert forall i :: 0 <= i < |slots| ==> (IsUsed(slots[i]) <==> slots[i].Some?);
  }

  lemma EmptyUnoccupied<T>(slots: seq<Option<T>>)
    requires forall i :: 0 <= i < |slots| ==> slots[i].None?
    ensures Occupied(slots) == 0
  {
    Slots.CountIsZero(slots, IsUsed);
  }

  /** The lowest free slot; the length if there is none. */
  function FirstFree<T>(slots: seq<Option<T>>): (i: nat)
    ensures i <= |slots|
    ensures i < |slots| ==> slots[i].None?
    ensures forall k :: 0 <= k < i ==> slots[k].Some?
  {
    var i := Slots.FirstOf(slots, IsFree);
    assert forall k :: 0 <= k < i ==> !IsFree(slots[k]);
    i
  }

  // -------------------------------------------------------------------------------------------------------------
  // Services

  predicate Conflicted(slots: seq<Option<Service>>, uri: SrvUri) {
    exists i :: 0 <= i < |slots| && slots[i].Some? && slots[i].value.uri == uri
  }

  ghost predicate ServicesOk(slots: seq<Option<Service>>) {
    && (forall i :: 0 <= i < |slots| && slots[i].Some? ==> slots[i].value.id == i)
    && (forall i, j :: 0 <= i < j < |slots| && slots[i].Some? && slots[j].Some? ==> slots[i].value.uri != slots[j].value.uri)
  }

  class ServiceTable {
    const tbl: array<Option<Service>>
    var serviceCount: nat
    ghost var freeing: nat    // frees that have cleared their slot and not yet counted down

    ghost predicate Valid()
      reads this, tbl
    {
      tbl.Length == MAX_OBJ_NUM && ServicesOk(tbl[..]) && serviceCount == Occupied(tbl[..]) + freeing
    }

    constructor ()
      ensures Valid() && fresh(tbl) && serviceCount == 0 && freeing == 0
      ensures forall i :: 0 <= i < tbl.Length ==> tbl[i].None?
    {
      tbl := new Option<Service>[32](_ => None);
      serviceCount, freeing := 0, 0;
      new;
      EmptyUnoccupied(tbl[..]);
    }

    method IsSrvObjConflicted(uri: SrvUri) returns (conflicted: bool)
      requires Valid()
      ensures conflicted == Conflicted(tbl[..], uri)
    {
      conflicted := false;
      for i := 0 to tbl.Length
        invariant forall k :: 0 <= k < i ==> !(tbl[k].Some? && tbl[k].value.uri == uri)
      {
        if tbl[i].Some? && tbl[i].value.uri == uri {
          assert tbl[..][i].value.uri == uri;
          return true;
        }
      }
    }

    method AllocSrvObj(uri: SrvUri, usage: int) returns (r: Code, id: nat)
      requires Valid()
      modifies this`serviceCount, tbl
      ensures Valid()
      ensures r == if Conflicted(old(tbl[..]), uri) then CONFLICT
                   else if Occupied(old(tbl[..])) == MAX_OBJ_NUM then TOO_MANY
                   else SUCCESS
      ensures r == SUCCESS ==>
                && id == FirstFree(old(tbl[..])) < MAX_OBJ_NUM
                && tbl[..] == old(tbl[..])[id := Some(Service(id, uri, usage))]
      ensures r != SUCCESS ==> tbl[..] == old(tbl[..])
    {
      id := 0;
      var conflicted := IsSrvObjConflicted(uri);
      if conflicted {
        return CONFLICT, 0;
      }
      FullIffOccupied(tbl[..]);
      for i := 0 to tbl.Length
        invariant tbl[..] == old(tbl[..]) && Valid()
        invariant forall k :: 0 <= k < i ==> tbl[k].Some?
      {
        if tbl[i].None? {
          assert FirstFree(tbl[..]) == i;
          OccupiedAfterUpdate(tbl[..], i, Some(Service(i, uri, usage)));
          ServicesAfterAlloc(tbl[..], i, uri, usage);
          tbl[i] := Some(Service(i, uri, usage));
          serviceCount := serviceCount + 1;
          return SUCCESS, i;
        }
      }
      r := TOO_MANY;
    }

    /** The first half of a free, under the table's mutex. */
    method ClearSrvObj(srv: Service)
      requires Valid() && srv.id < MAX_OBJ_NUM && tbl[srv.id] == Some(srv)
      modifies this`freeing, tbl
      ensures Valid() && tbl[..] == old(tbl[..])[srv.id := None] && freeing == old(freeing) + 1
    {
      OccupiedAfterUpdate(tbl[..], srv.id, None);
      tbl[srv.id] := None;
      freeing := freeing + 1;
    }

    /** The second half, under the counter's mutex. */
    method CountDown()
      requires Valid() && freeing > 0
      modifies this`serviceCount, this`freeing
      ensures Valid() && freeing == old(freeing) - 1 && serviceCount == old(serviceCount) - 1
    {
      if serviceCount > 0 {
        serviceCount := serviceCount - 1;
      }
      freeing := freeing - 1;
    }

    method GetSrvObjBySrvID(srvId: u64) returns (srv: Option<Service>)
      requires Valid()
      ensures srv == if srvId < MAX_OBJ_NUM then tbl[srvId] else None
      ensures srv.Some? ==> srv.value.id == srvId
    {
      srv := if srvId < MAX_OBJ_NUM then tbl[srvId] else None;
    }
  }

  /** Uniqueness of URIs and agreement of IDs with slots survive an allocation that found no conflict. */
  lemma ServicesAfterAlloc(slots: seq<Option<Service>>, i: nat, uri: SrvUri, usage: int)
    requires ServicesOk(slots) && i < |slots| && slots[i].None? && !Conflicted(slots, uri)
    ensures ServicesOk(slots[i := Some(Service(i, uri, usage))])
  {
    var slots' := slots[i := Some(Service(i, uri, usage))];
    forall j, k | 0 <= j < k < |slots'| && slots'[j].Some? && slots'[k].Some? ensures slots'[j].value.uri != slots'[k].value.uri {
      if j == i {
        assert slots[k].value.uri != uri;
      } else if k == i {
        assert slots[j].value.uri != uri;
      }
    }
  }

  // -------------------------------------------------------------------------------------------------------------
  // Links

  function LinkIdOf(idx: nat): u64
    requires idx < MAX_OBJ_NUM
  {
    idx + AUTO_LINK_ID_MAX + 1
  }

  /** The subtraction is 64 bits wide and unsigned, its result assigned to a 32-bit signed int. */
  function TblIdxOf(linkId: u64): int {
    var low := (linkId - AUTO_LINK_ID_MAX - 1) % 0x1_0000_0000;
    if low >= 0x8000_0000 then low - 0x1_0000_0000 else low
  }

  function Lookup<T>(slots: seq<Option<T>>, linkId: u64): Option<T>
    requires |slots| == MAX_OBJ_NUM
  {
    if linkId == ID_INVALID then None
    else if TblIdxOf(linkId) < 0 || TblIdxOf(linkId) >= MAX_OBJ_NUM then None
    else slots[TblIdxOf(linkId)]
  }

  ghost predicate LinksOk(slots: seq<Option<LinkObj>>) {
    |slots| == MAX_OBJ_NUM && forall i :: 0 <= i < |slots| && slots[i].Some? ==> slots[i].value.id == LinkIdOf(i)
  }

  /** Live link IDs are distinct and look up their own objects. */
  lemma LiveLinksFound(slots: seq<Option<LinkObj>>, i: nat, j: nat)
    requires LinksOk(slots) && i < MAX_OBJ_NUM && j < MAX_OBJ_NUM && slots[i].Some? && slots[j].Some?
    ensures Lookup(slots, slots[i].value.id) == slots[i]
    ensures slots[i].value.id == slots[j].value.id <==> i == j
  {
    assert TblIdxOf(LinkIdOf(i)) == i;
  }

  /** An object found is the one asked for exactly when the ID is one the table gives out: IDs 2^32 apart find the same slot. */
  lemma FoundIsAskedForIff(slots: seq<Option<LinkObj>>, linkId: u64)
    requires LinksOk(slots) && Lookup(slots, linkId).Some?
    ensures Lookup(slots, linkId).value.id == linkId <==> AUTO_LINK_ID_MAX < linkId <= AUTO_LINK_ID_MAX + MAX_OBJ_NUM
    ensures (linkId - Lookup(slots, linkId).value.id) % 0x1_0000_0000 == 0
  {
    var idx := TblIdxOf(linkId);
    assert idx == (linkId - AUTO_LINK_ID_MAX - 1) % 0x1_0000_0000;
    assert slots[idx].value.id == LinkIdOf(idx);
  }

  lemma LookupAliases(slots: seq<Option<LinkObj>>, linkId: u64)
    requires |slots| == MAX_OBJ_NUM && AUTO_LINK_ID_MAX < linkId <= AUTO_LINK_ID_MAX + MAX_OBJ_NUM
    ensures Lookup(slots, linkId + 0x1_0000_0000) == Lookup(slots, linkId)
  {
    assert (linkId + 0x1_0000_0000 - AUTO_LINK_ID_MAX - 1) % 0x1_0000_0000 == linkId - AUTO_LINK_ID_MAX - 1;
  }

  class LinkTable {
    const tbl: array<Option<LinkObj>>
    var linkCount: nat
    ghost var freeing: nat

    ghost predicate Valid()
      reads this, tbl
    {
      tbl.Length == MAX_OBJ_NUM && LinksOk(tbl[..]) && linkCount == Occupied(tbl[..]) + freeing
    }

    constructor ()
      ensures Valid() && fresh(tbl) && linkCount == 0 && freeing == 0
      ensures forall i :: 0 <= i < tbl.Length ==> tbl[i].None?
    {
      tbl := new Option<LinkObj>[32](_ => None);
      linkCount, freeing := 0, 0;
      new;
      EmptyUnoccupied(tbl[..]);
    }

    /** None when the table is full; otherwise a link no live link shares its ID with. */
    method AllocLinkObj(tag: int) returns (link: Option<LinkObj>)
      requires Valid()
      modifies this`linkCount, tbl
      ensures Valid()
      ensures link.None? <==> Occupied(old(tbl[..])) == MAX_OBJ_NUM
      ensures link.None? ==> tbl[..] == old(tbl[..])
      ensures link.Some? ==>
                var i := FirstFree(old(tbl[..]));
                && i < MAX_OBJ_NUM && link.value == LinkObj(LinkIdOf(i), tag) && tbl[..] == old(tbl[..])[i := link]
                && Lookup(tbl[..], link.value.id) == link
                && forall k :: 0 <= k < |old(tbl[..])| && old(tbl[..])[k].Some? ==> old(tbl[..])[k].value.id != link.value.id
    {
      FullIffOccupied(tbl[..]);
      link := None;
      for i := 0 to tbl.Length
        invariant tbl[..] == old(tbl[..]) && Valid() && link.None?
        invariant forall k :: 0 <= k < i ==> tbl[k].Some?
      {
        if tbl[i].None? {
          assert FirstFree(tbl[..]) == i;
          link := Some(LinkObj(LinkIdOf(i), tag));
          OccupiedAfterUpdate(tbl[..], i, link);
          tbl[i] := link;
          linkCount := linkCount + 1;
          LiveLinksFound(tbl[..], i, i);
          return;
        }
      }
    }

    /** The first half of a free, under the table's mutex. */
    method ClearLinkObj(link: LinkObj)
      requires Valid() && Lookup(tbl[..], link.id) == Some(link)
      modifies this`freeing, tbl
      ensures Valid() && freeing == old(freeing) + 1
      ensures tbl[..] == old(tbl[..])[TblIdxOf(link.id) := None] && Lookup(tbl[..], link.id) == None
    {
      var idx := TblIdxOf(link.id);
      OccupiedAfterUpdate(tbl[..], idx, None);
      tbl[idx] := None;
      freeing := freeing + 1;
    }

    /** The second half, under the counter's mutex. */
    method CountDown()
      requires Valid() && freeing > 0
      modifies this`linkCount, this`freeing
      ensures Valid() && freeing == old(freeing) - 1 && linkCount == old(linkCount) - 1
    {
      if linkCount > 0 {
        linkCount := linkCount - 1;
      }
      freeing := freeing - 1;
    }

    method GetLinkObjByLinkID(linkId: u64) returns (link: Option<LinkObj>)
      requires Valid()
      ensures link == Lookup(tbl[..], linkId)
    {
      if linkId == ID_INVALID {
        return None;
      }
      var idx := TblIdxOf(linkId);
      if idx < 0 || idx >= MAX_OBJ_NUM {
        return None;
      }
      link := tbl[idx];
    }
  }
}
