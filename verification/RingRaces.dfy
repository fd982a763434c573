/**
 * The FIFO protocol's polling buffer as its threads use it. A sender stores without any lock, in five steps: it loads the
 * end position, checks for room, copies and moves the end, loads the count, and writes it back increased. The reader
 * holds its link's mutex, which no store takes: it copies and moves the start, loads the count, and writes it back
 * decreased. Any number of senders and one reader at a time, in every interleaving of these steps.
 */
module RingRaces {
  import opened Results
  import opened Bytes
  import opened ByteRings

  const WORD: nat := 0x1_0000_0000_0000_0000

  /** The bytes of one send; an empty one is refused before anything happens. */
  type Chunk = data: seq<byte> | 0 < |data| < WORD witness [0]

  datatype Store =
    | EndLoaded(data: Chunk, end: nat)
    | Loaded(data: Chunk, end: nat)
    | Refused
    | CopiedIn(data: Chunk)
    | CountLoaded(data: Chunk, count: nat)
    | Finished

  datatype Reader = Idle | CopiedOut(n: nat) | ReaderLoaded(n: nat, count: nat)

  datatype State = State(
    ring: Ring,
    stores: seq<Store>,       // every store begun, by its number
    reader: Reader,
    // histories
    accepted: seq<byte>,      // bytes of the stores that have copied, in the order of their copies
    handedOut: seq<byte>)     // bytes the reader has copied out

  datatype Action =
    | Begin(data: Chunk)
    | CheckRoom(t: nat)
    | Lay(t: nat)
    | LoadCount(t: nat)
    | StoreCount(t: nat)
    | TakeOut(room: nat)
    | ReaderLoad
    | ReaderStore

  function Init(bufferSize: nat): State
    requires bufferSize > 0
  {
    State(Ring(seq(bufferSize, _ => 0), 0, 0, 0), [], Idle, [], [])
  }

  /** The unsigned difference. */
  function Minus(a: nat, b: nat): nat
    requires b <= WORD
  {
    if a >= b then a - b else WORD + a - b
  }

  /**
   * A copy longer than the buffer is the one step the code can take and the model cannot. From a sound state it would be
   * one for which there is no room, the first condition of `Disturbs`.
   */
  predicate Enabled(s: State, a: Action) {
    match a
    case Begin(_) => true
    case CheckRoom(t) => t < |s.stores| && s.stores[t].EndLoaded? && s.ring.available <= WORD
    case Lay(t) =>
      t < |s.stores| && s.stores[t].Loaded? && s.stores[t].end < |s.ring.buf| && |s.stores[t].data| <= |s.ring.buf|
    case LoadCount(t) => t < |s.stores| && s.stores[t].CopiedIn?
    case StoreCount(t) => t < |s.stores| && s.stores[t].CountLoaded?
    case TakeOut(room) =>
      s.reader.Idle? && 0 < room && 0 < s.ring.available && s.ring.start < |s.ring.buf| && ReadCount(s.ring, room) <= |s.ring.buf|
    case ReaderLoad => s.reader.CopiedOut?
    case ReaderStore => s.reader.ReaderLoaded? && s.reader.n <= WORD
  }

  function Apply(s: State, a: Action): State
    requires Enabled(s, a)
  {
    var r := s.ring;
    match a
    case Begin(data) => s.(stores := s.stores + [EndLoaded(data, r.end)])
    case CheckRoom(t) =>
      var st := s.stores[t];
      s.(stores := s.stores[t := if |st.data| > Minus(|r.buf|, r.available) then Refused else Loaded(st.data, st.end)])
    case Lay(t) =>
      var st := s.stores[t];
      s.(ring := r.(buf := Laid(r.buf, st.end, st.data), end := (st.end + |st.data|) % |r.buf|),
         stores := s.stores[t := CopiedIn(st.data)],
         accepted := s.accepted + st.data)
    case LoadCount(t) => s.(stores := s.stores[t := CountLoaded(s.stores[t].data, r.available)])
    case StoreCount(t) =>
      s.(ring := r.(available := s.stores[t].count + |s.stores[t].data|), stores := s.stores[t := Finished])
    case TakeOut(room) =>
      var n := ReadCount(r, room);
      s.(ring := r.(start := (r.start + n) % |r.buf|), reader := CopiedOut(n),
         handedOut := s.handedOut + Taken(r.buf, r.start, n))
    case ReaderLoad => s.(reader := ReaderLoaded(s.reader.n, r.available))
    case ReaderStore => s.(ring := r.(available := Minus(s.reader.count, s.reader.n)), reader := Idle)
  }

  // -------------------------------------------------------------------------------------------------------------
  // What the buffer is to keep

  function Uncounted(st: Store): nat {
    if st.CopiedIn? || st.CountLoaded? then |st.data| else 0
  }

  /** Bytes copied in and not yet counted. */
  function UncountedIn(stores: seq<Store>): nat {
    if stores == [] then 0 else UncountedIn(stores[..|stores| - 1]) + Uncounted(stores[|stores| - 1])
  }

  /** Bytes copied out and not yet taken off the count. */
  function PendingOut(reader: Reader): nat {
    if reader.Idle? then 0 else reader.n
  }

  /** The bytes the ring really holds. */
  function Held(s: State): int {
    s.ring.available + UncountedIn(s.stores) - PendingOut(s.reader)
  }

  /**
   * With the steps under way accounted for, the positions and the count describe one stretch of the buffer, and that
   * stretch is what has come in and not gone out. With none under way this is `RingOk` and the conservation of bytes.
   */
  predicate Sound(s: State) {
    && 0 <= Held(s) <= |s.ring.buf|
    && PendingOut(s.reader) <= s.ring.available
    && (s.reader.ReaderLoaded? ==> s.reader.n <= s.reader.count)
    && var held := s.ring.(available := Held(s));
       RingOk(held) && s.accepted == s.handedOut + Buffered(held)
  }

  predicate Quiet(s: State) {
    s.reader.Idle? && forall t :: 0 <= t < |s.stores| ==> s.stores[t].Refused? || s.stores[t].Finished?
  }

  /**
   * The steps that break it: a copy to an end that has moved since it was loaded, or over bytes that have come in since
   * the count was checked; and a count written back that is no longer the one it was computed from.
   */
  predicate Disturbs(s: State, a: Action)
    requires Enabled(s, a)
  {
    match a
    case Lay(t) => s.stores[t].end != s.ring.end || Held(s) + |s.stores[t].data| > |s.ring.buf|
    case StoreCount(t) => s.stores[t].count != s.ring.available
    case ReaderStore => s.reader.count != s.ring.available
    case _ => false
  }

  lemma {:induction false} UncountedAfterUpdate(stores: seq<Store>, t: nat, st: Store)
    requires t < |stores|
    ensures UncountedIn(stores[t := st]) == UncountedIn(stores) - Uncounted(stores[t]) + Uncounted(st)
  {
    var n := |stores| - 1;
    if t == n {
      assert stores[t := st][..n] == stores[..n];
    } else {
      UncountedAfterUpdate(stores[..n], t, st);
      assert stores[t := st][..n] == stores[..n][t := st];
    }
  }

  lemma {:induction false} QuietUncounted(stores: seq<Store>)
    requires forall t :: 0 <= t < |stores| ==> stores[t].Refused? || stores[t].Finished?
    ensures UncountedIn(stores) == 0
  {
    if stores != [] {
      QuietUncounted(stores[..|stores| - 1]);
    }
  }

  /** With nothing under way, soundness is the ring's own condition and the conservation of bytes. */
  lemma SoundWhenQuiet(s: State)
    requires Quiet(s)
    ensures Sound(s) <==> RingOk(s.ring) && s.accepted == s.handedOut + Buffered(s.ring)
  {
    QuietUncounted(s.stores);
    assert s.ring.(available := s.ring.available) == s.ring;
  }

  lemma BeginKeepsSound(s: State, data: Chunk)
    requires Sound(s) && Enabled(s, Begin(data))
    ensures Sound(Apply(s, Begin(data)))
  {
    assert (s.stores + [EndLoaded(data, s.ring.end)])[..|s.stores|] == s.stores;
  }

  lemma CheckRoomKeepsSound(s: State, t: nat)
    requires Sound(s) && Enabled(s, CheckRoom(t))
    ensures Sound(Apply(s, CheckRoom(t)))
  {
    UncountedAfterUpdate(s.stores, t, Apply(s, CheckRoom(t)).stores[t]);
  }

  /** Two positions apart stay apart when the same length is added to both, going round. */
  lemma EndsApart(x: nat, end: nat, d: nat, n: nat)
    requires end < n && d <= n && x + d < 2 * n && x % n != end
    ensures (x + d) % n != (end + d) % n
  {
    WrapIsMod(x, n);
    WrapIsMod(x + d, n);
    WrapIsMod(end + d, n);
  }

  /** A copy to the true end with room for it appends; one to another end, or without room, does not leave a ring. */
  lemma LaidIff(r: Ring, end: nat, data: seq<byte>)
    requires RingOk(r) && end < |r.buf| && 0 < |data| <= |r.buf|
    ensures var r' := Ring(Laid(r.buf, end, data), r.start, (end + |data|) % |r.buf|, r.available + |data|);
            RingOk(r') <==> end == r.end && r.available + |data| <= |r.buf|
    ensures end == r.end && r.available + |data| <= |r.buf| ==>
              var r' := Ring(Laid(r.buf, end, data), r.start, (end + |data|) % |r.buf|, r.available + |data|);
              RingOk(r') && Buffered(r') == Buffered(r) + data
  {
    if r.available + |data| <= |r.buf| {
      if end == r.end {
        StoreAppends(r, data);
      } else {
        EndsApart(r.start + r.available, end, |data|, |r.buf|);
      }
    }
  }

  lemma LaySoundIff(s: State, t: nat)
    requires Sound(s) && Enabled(s, Lay(t))
    ensures Sound(Apply(s, Lay(t))) <==> !Disturbs(s, Lay(t))
  {
    var st := s.stores[t];
    UncountedAfterUpdate(s.stores, t, CopiedIn(st.data));
    var held := s.ring.(available := Held(s));
    LaidIff(held, st.end, st.data);
    assert s.handedOut + Buffered(held) + st.data == s.handedOut + (Buffered(held) + st.data);
  }

  lemma LoadCountKeepsSound(s: State, t: nat)
    requires Sound(s) && Enabled(s, LoadCount(t))
    ensures Sound(Apply(s, LoadCount(t)))
  {
    UncountedAfterUpdate(s.stores, t, CountLoaded(s.stores[t].data, s.ring.available));
  }

  /** Sound states that differ in nothing but the count and the steps under way hold the same number of bytes. */
  lemma SoundFixesHeld(s: State)
    requires Sound(s)
    ensures Held(s) == |s.accepted| - |s.handedOut|
  {
    assert |s.accepted| == |s.handedOut + Buffered(s.ring.(available := Held(s)))|;
  }

  lemma StoreCountSoundIff(s: State, t: nat)
    requires Sound(s) && Enabled(s, StoreCount(t))
    ensures Sound(Apply(s, StoreCount(t))) <==> !Disturbs(s, StoreCount(t))
  {
    var s' := Apply(s, StoreCount(t));
    UncountedAfterUpdate(s.stores, t, Finished);
    SoundFixesHeld(s);
    if Sound(s') {
      SoundFixesHeld(s');
    }
    if !Disturbs(s, StoreCount(t)) {
      assert s'.ring.(available := Held(s')) == s.ring.(available := Held(s));
    }
  }

  lemma TakeOutKeepsSound(s: State, room: nat)
    requires Sound(s) && Enabled(s, TakeOut(room))
    ensures Sound(Apply(s, TakeOut(room)))
  {
    var s' := Apply(s, TakeOut(room));
    var held := s.ring.(available := Held(s));
    var n := ReadCount(s.ring, room);
    ReadTakesFront(held, n);
    assert s'.ring.(available := Held(s')) == AfterRead(held, n);
    var out, rest := Taken(s.ring.buf, s.ring.start, n), Buffered(AfterRead(held, n));
    assert s.handedOut + (out + rest) == s.handedOut + out + rest;
  }

  lemma ReaderStoreSoundIff(s: State)
    requires Sound(s) && Enabled(s, ReaderStore)
    ensures Sound(Apply(s, ReaderStore)) <==> !Disturbs(s, ReaderStore)
  {
    var s' := Apply(s, ReaderStore);
    SoundFixesHeld(s);
    if Sound(s') {
      SoundFixesHeld(s');
    }
    if !Disturbs(s, ReaderStore) {
      assert s'.ring.(available := Held(s')) == s.ring.(available := Held(s));
    }
  }

  /** A step from a sound state leads to a sound one if and only if it is not one of the disturbing ones. */
  lemma StepSoundIff(s: State, a: Action)
    requires Sound(s) && Enabled(s, a)
    ensures Sound(Apply(s, a)) <==> !Disturbs(s, a)
  {
    match a {
      case Begin(data) => BeginKeepsSound(s, data);
      case CheckRoom(t) => CheckRoomKeepsSound(s, t);
      case Lay(t) => LaySoundIff(s, t);
      case LoadCount(t) => LoadCountKeepsSound(s, t);
      case StoreCount(t) => StoreCountSoundIff(s, t);
      case TakeOut(room) => TakeOutKeepsSound(s, room);
      case ReaderLoad =>
        var s' := Apply(s, a);
        assert s'.ring.(available := Held(s')) == s.ring.(available := Held(s));
      case ReaderStore => ReaderStoreSoundIff(s);
    }
  }

  // -------------------------------------------------------------------------------------------------------------
  // Runs

  /** Where an interleaving leads, if each of its steps is one the code can take. */
  function Run(s: State, run: seq<Action>): Option<State>
    decreases |run|
  {
    if run == [] then Some(s)
    else if Enabled(s, run[0]) then Run(Apply(s, run[0]), run[1..])
    else None
  }

  /** Every state of the run is sound. */
  predicate SoundThroughout(s: State, run: seq<Action>)
    requires Run(s, run).Some?
    decreases |run|
  {
    Sound(s) && (run != [] ==> SoundThroughout(Apply(s, run[0]), run[1..]))
  }

  /** Some step of the run is a disturbing one. */
  predicate Disturbed(s: State, run: seq<Action>)
    requires Run(s, run).Some?
    decreases |run|
  {
    run != [] && (Disturbs(s, run[0]) || Disturbed(Apply(s, run[0]), run[1..]))
  }

  /**
   * Over every interleaving: the buffer stays a ring and conserves its bytes throughout if and only if no copy went to a
   * stale end or over bytes come in since its check, and no count written back was stale.
   */
  lemma {:induction false} SoundThroughoutIff(s: State, run: seq<Action>)
    requires Sound(s) && Run(s, run).Some?
    ensures SoundThroughout(s, run) <==> !Disturbed(s, run)
    ensures !Disturbed(s, run) ==> Sound(Run(s, run).value)
    decreases |run|
  {
    if run != [] {
      StepSoundIff(s, run[0]);
      if !Disturbs(s, run[0]) {
        SoundThroughoutIff(Apply(s, run[0]), run[1..]);
      }
    }
  }

  lemma InitSound(bufferSize: nat)
    requires bufferSize > 0
    ensures Sound(Init(bufferSize)) && Quiet(Init(bufferSize))
  {
  }

  // -------------------------------------------------------------------------------------------------------------
  // The two windows of a store, and what a mutex round it would give

  predicate ReaderStep(a: Action) {
    a.TakeOut? || a.ReaderLoad? || a.ReaderStore?
  }

  /** Steps of other stores than number `t`. */
  predicate OtherStoreStep(a: Action, t: nat) {
    a.Begin? || (a.CheckRoom? && a.t != t) || (a.Lay? && a.t != t) || (a.LoadCount? && a.t != t) || (a.StoreCount? && a.t != t)
  }

  /** The reader's loaded count is current. */
  predicate ReaderFresh(s: State) {
    && PendingOut(s.reader) <= s.ring.available
    && (s.reader.ReaderLoaded? ==> s.reader.count == s.ring.available)
  }

  /** While only the reader steps, what it leaves on the count goes down with every read and stays otherwise. */
  lemma {:induction false} ReaderAlone(s: State, run: seq<Action>, s': State)
    requires ReaderFresh(s) && Run(s, run) == Some(s') && forall a :: a in run ==> ReaderStep(a)
    ensures ReaderFresh(s') && s'.stores == s.stores
    ensures s'.ring.available - PendingOut(s'.reader) <= s.ring.available - PendingOut(s.reader)
    ensures s'.ring.available - PendingOut(s'.reader) == s.ring.available - PendingOut(s.reader)
       <==> forall a :: a in run ==> !a.TakeOut?
    decreases |run|
  {
    if run != [] {
      assert run[0] in run;
      assert forall a :: a in run <==> a == run[0] || a in run[1..];
      ReaderAlone(Apply(s, run[0]), run[1..], s');
    }
  }

  /**
   * The window between a store's load of the count and its write-back: if only whole reads come in between, the buffer
   * survives the write-back if and only if none of them takes any bytes.
   */
  lemma CountWindowIff(s: State, t: nat, between: seq<Action>, s': State)
    requires Sound(s) && s.reader.Idle? && Enabled(s, LoadCount(t))
    requires Run(Apply(s, LoadCount(t)), between) == Some(s') && s'.reader.Idle? && forall a :: a in between ==> ReaderStep(a)
    requires !Disturbed(Apply(s, LoadCount(t)), between)
    ensures Enabled(s', StoreCount(t))
    ensures Sound(Apply(s', StoreCount(t))) <==> forall a :: a in between ==> !a.TakeOut?
  {
    var s1 := Apply(s, LoadCount(t));
    LoadCountKeepsSound(s, t);
    SoundThroughoutIff(s1, between);
    ReaderAlone(s1, between, s');
    StoreCountSoundIff(s', t);
  }

  /** While only other stores step, nothing goes out, and more comes in exactly if one of them copies. */
  lemma {:induction false} StoresAlone(s: State, t: nat, run: seq<Action>, s': State)
    requires t < |s.stores| && Run(s, run) == Some(s') && forall a :: a in run ==> OtherStoreStep(a, t)
    ensures t < |s'.stores| && s'.stores[t] == s.stores[t]
    ensures s'.handedOut == s.handedOut && s'.reader == s.reader
    ensures s'.ring.start == s.ring.start && |s'.ring.buf| == |s.ring.buf|
    ensures |s'.accepted| >= |s.accepted|
    ensures |s'.accepted| == |s.accepted| <==> forall a :: a in run ==> !a.Lay?
    ensures |s'.accepted| == |s.accepted| ==> s'.ring.end == s.ring.end
    decreases |run|
  {
    if run != [] {
      assert run[0] in run;
      assert forall a :: a in run <==> a == run[0] || a in run[1..];
      StoresAlone(Apply(s, run[0]), t, run[1..], s');
    }
  }

  lemma EndMoves(start: nat, held: nat, more: nat, n: nat)
    requires start < n && held < more < n
    ensures (start + held) % n != (start + more) % n
  {
    WrapIsMod(start + held, n);
    WrapIsMod(start + more, n);
  }

  /**
   * The window between a store's load of the end position and its copy: if only other stores step in between, the buffer
   * survives the copy if and only if none of them copies anything.
   */
  lemma CopyWindowIff(s: State, t: nat, between: seq<Action>, s': State)
    requires Sound(s) && s.reader.Idle? && UncountedIn(s.stores) == 0
    requires t < |s.stores| && s.stores[t].Loaded? && s.stores[t].end == s.ring.end
    requires |s.stores[t].data| <= |s.ring.buf| - s.ring.available
    requires Run(s, between) == Some(s') && !Disturbed(s, between) && forall a :: a in between ==> OtherStoreStep(a, t)
    ensures Enabled(s', Lay(t))
    ensures Sound(Apply(s', Lay(t))) <==> forall a :: a in between ==> !a.Lay?
  {
    SoundThroughoutIff(s, between);
    StoresAlone(s, t, between, s');
    LaySoundIff(s', t);
    MovedEndDisturbs(s, t, s');
  }

  /** Of two sound states apart by some copies only, the later one has no room at the earlier one's end. */
  lemma MovedEndDisturbs(s: State, t: nat, s': State)
    requires Sound(s) && Sound(s') && s.handedOut == s'.handedOut
    requires s'.ring.start == s.ring.start && |s'.ring.buf| == |s.ring.buf| && |s'.accepted| >= |s.accepted|
    requires t < |s'.stores| && s'.stores[t].Loaded? && s'.stores[t].end == s.ring.end && Enabled(s', Lay(t))
    requires Held(s) + |s'.stores[t].data| <= |s.ring.buf|
    requires |s'.accepted| == |s.accepted| ==> s'.ring.end == s.ring.end
    ensures Disturbs(s', Lay(t)) <==> |s'.accepted| > |s.accepted|
  {
    SoundFixesHeld(s);
    SoundFixesHeld(s');
    if |s'.accepted| > |s.accepted| && Held(s') + |s'.stores[t].data| <= |s.ring.buf| {
      EndMoves(s.ring.start, Held(s), Held(s'), |s.ring.buf|);
    }
  }

  predicate StoreSettled(st: Store) {
    st.Refused? || st.Finished?
  }

  /** No operation steps while another is under way, as if the store took the mutex that the read holds. */
  predicate Exclusive(s: State, a: Action) {
    match a
    case Begin(_) => Quiet(s)
    case TakeOut(_) => Quiet(s)
    case CheckRoom(t) => s.reader.Idle? && forall u :: 0 <= u < |s.stores| && u != t ==> StoreSettled(s.stores[u])
    case Lay(t) => s.reader.Idle? && forall u :: 0 <= u < |s.stores| && u != t ==> StoreSettled(s.stores[u])
    case LoadCount(t) => s.reader.Idle? && forall u :: 0 <= u < |s.stores| && u != t ==> StoreSettled(s.stores[u])
    case StoreCount(t) => s.reader.Idle? && forall u :: 0 <= u < |s.stores| && u != t ==> StoreSettled(s.stores[u])
    case ReaderLoad => forall u :: 0 <= u < |s.stores| ==> StoreSettled(s.stores[u])
    case ReaderStore => forall u :: 0 <= u < |s.stores| ==> StoreSettled(s.stores[u])
  }

  predicate ExclusiveThroughout(s: State, run: seq<Action>)
    requires Run(s, run).Some?
    decreases |run|
  {
    run != [] ==> Exclusive(s, run[0]) && ExclusiveThroughout(Apply(s, run[0]), run[1..])
  }

  /** What an operation has loaded is still so. */
  predicate StoreFresh(s: State, t: nat)
    requires t < |s.stores|
  {
    match s.stores[t]
    case EndLoaded(_, end) => end == s.ring.end
    case Loaded(data, end) => end == s.ring.end && Held(s) + |data| <= |s.ring.buf|
    case CountLoaded(_, count) => count == s.ring.available
    case _ => true
  }

  predicate Fresh(s: State) {
    && (forall t {:trigger StoreFresh(s, t)} :: 0 <= t < |s.stores| ==> StoreFresh(s, t))
    && (s.reader.ReaderLoaded? ==> s.reader.count == s.ring.available)
  }

  lemma ExclusiveKeepsFresh(s: State, a: Action)
    requires Sound(s) && Fresh(s) && Enabled(s, a) && Exclusive(s, a)
    ensures !Disturbs(s, a) && Fresh(Apply(s, a))
  {
    var s' := Apply(s, a);
    if a.Begin? {
      UncountedAppended(s.stores, s'.stores[|s.stores|]);
    } else if a.CheckRoom? {
      AloneUncounted(s.stores, a.t);
      UncountedAfterUpdate(s.stores, a.t, s'.stores[a.t]);
      assert StoreFresh(s, a.t);
    } else if a.Lay? || a.StoreCount? || a.LoadCount? {
      assert StoreFresh(s, a.t);
    }
    forall u | 0 <= u < |s'.stores| ensures StoreFresh(s', u) {
      if u < |s.stores| {
        assert StoreFresh(s, u);
      }
    }
  }

  /** With every other store settled and this one not yet copied, nothing is uncounted. */
  lemma AloneUncounted(stores: seq<Store>, t: nat)
    requires t < |stores| && Uncounted(stores[t]) == 0
    requires forall u :: 0 <= u < |stores| && u != t ==> StoreSettled(stores[u])
    ensures UncountedIn(stores) == 0
  {
    UncountedAfterUpdate(stores, t, Refused);
    QuietUncounted(stores[t := Refused]);
  }

  lemma UncountedAppended(stores: seq<Store>, st: Store)
    ensures UncountedIn(stores + [st]) == UncountedIn(stores) + Uncounted(st)
  {
    assert (stores + [st])[..|stores|] == stores;
  }

  lemma {:induction false} ExclusiveUndisturbed(s: State, run: seq<Action>)
    requires Sound(s) && Fresh(s) && Run(s, run).Some? && ExclusiveThroughout(s, run)
    ensures !Disturbed(s, run) && Sound(Run(s, run).value)
    decreases |run|
  {
    if run != [] {
      StepSoundIff(s, run[0]);
      ExclusiveKeepsFresh(s, run[0]);
      ExclusiveUndisturbed(Apply(s, run[0]), run[1..]);
    }
  }

  /** With stores and reads excluding each other the result holds: whenever nothing is under way, ring and bytes are right. */
  lemma ExclusiveRunsConserve(bufferSize: nat, run: seq<Action>, s: State)
    requires bufferSize > 0 && Run(Init(bufferSize), run) == Some(s) && ExclusiveThroughout(Init(bufferSize), run) && Quiet(s)
    ensures RingOk(s.ring) && s.accepted == s.handedOut + Buffered(s.ring)
  {
    InitSound(bufferSize);
    ExclusiveUndisturbed(Init(bufferSize), run);
    SoundWhenQuiet(s);
  }

  // -------------------------------------------------------------------------------------------------------------
  // The steps taken together are the store and the read of the ring

  function Step(s: Option<State>, a: Action): Option<State> {
    if s.Some? && Enabled(s.value, a) then Some(Apply(s.value, a)) else None
  }

  /** Begun with nothing else under way and not interrupted, the five steps are the store of the ring. */
  lemma UninterruptedStore(s: State, data: Chunk)
    requires RingOk(s.ring) && |s.ring.buf| < WORD && StoreResult(s.ring, data) == SUCCESS
    ensures var t := |s.stores|;
            var s' := Step(Step(Step(Step(Step(Some(s), Begin(data)), CheckRoom(t)), Lay(t)), LoadCount(t)), StoreCount(t));
            s'.Some? && s'.value.ring == Stored(s.ring, data)
  {
  }

  lemma RefusedStore(s: State, data: Chunk)
    requires RingOk(s.ring) && |s.ring.buf| < WORD && StoreResult(s.ring, data) != SUCCESS
    ensures Step(Step(Some(s), Begin(data)), CheckRoom(|s.stores|)) == Some(s.(stores := s.stores + [Refused]))
  {
    assert (s.stores + [EndLoaded(data, s.ring.end)])[|s.stores| := Refused] == s.stores + [Refused];
  }

  /** And the three steps of the reader are the read. */
  lemma UninterruptedRead(s: State, room: nat)
    requires RingOk(s.ring) && s.reader.Idle? && 0 < room && 0 < s.ring.available && |s.ring.buf| < WORD
    ensures var s' := Step(Step(Step(Some(s), TakeOut(room)), ReaderLoad), ReaderStore);
            s'.Some? && s'.value.ring == AfterRead(s.ring, room)
  {
  }

  // -------------------------------------------------------------------------------------------------------------
  // Runs that break the buffer

  ghost predicate Reachable(bufferSize: nat, s: State)
    requires bufferSize > 0
  {
    exists run :: Run(Init(bufferSize), run) == Some(s)
  }

  lemma {:induction false} RunOn(s: State, run: seq<Action>, a: Action, s': State)
    requires Run(s, run) == Some(s') && Enabled(s', a)
    ensures Run(s, run + [a]) == Some(Apply(s', a))
    decreases |run|
  {
    if run == [] {
      assert run + [a] == [a];
    } else {
      assert (run + [a])[1..] == run[1..] + [a];
      RunOn(Apply(s, run[0]), run[1..], a, s');
    }
  }

  lemma ReachOn(bufferSize: nat, s: State, a: Action, s': State)
    requires bufferSize > 0 && Reachable(bufferSize, s) && Enabled(s, a) && Apply(s, a) == s'
    ensures Reachable(bufferSize, s')
  {
    var run :| Run(Init(bufferSize), run) == Some(s);
    RunOn(Init(bufferSize), run, a, s);
    assert Run(Init(bufferSize), run + [a]) == Some(s');
  }

  /** A store begins, finds room and gets no further. */
  lemma BegunAndChecked(bufferSize: nat, s: State, data: Chunk) returns (s': State)
    requires bufferSize > 0 && Reachable(bufferSize, s) && s.ring.available + |data| <= |s.ring.buf| < WORD
    ensures s' == s.(stores := s.stores + [Loaded(data, s.ring.end)]) && Reachable(bufferSize, s')
  {
    var t := |s.stores|;
    var s1 := Apply(s, Begin(data));
    ReachOn(bufferSize, s, Begin(data), s1);
    s' := s.(stores := s.stores + [Loaded(data, s.ring.end)]);
    assert s1.stores[t := Loaded(data, s.ring.end)] == s'.stores;
    ReachOn(bufferSize, s1, CheckRoom(t), s');
  }

  /** Four bytes of room, one byte stored and counted. */
  function OneHeld(): State {
    State(Ring([7, 0, 0, 0], 0, 1, 1), [Finished], Idle, [7], [])
  }

  lemma OneHeldReachable()
    ensures Reachable(4, OneHeld())
  {
    var s0 := Init(4);
    assert Run(s0, []) == Some(s0);
    var s1 := BegunAndChecked(4, s0, [7]);
    var s2 := Apply(s1, Lay(0));
    ReachOn(4, s1, Lay(0), s2);
    assert s2.ring.buf == [7, 0, 0, 0];
    var s3 := Apply(s2, LoadCount(0));
    ReachOn(4, s2, LoadCount(0), s3);
    ReachOn(4, s3, StoreCount(0), OneHeld());
  }

  /** A second byte is copied in and the count loaded. */
  function SecondCopied(): State {
    State(Ring([7, 8, 0, 0], 0, 2, 1), [Finished, CountLoaded([8], 1)], Idle, [7, 8], [])
  }

  lemma SecondCopiedReachable()
    ensures Reachable(4, SecondCopied())
  {
    OneHeldReachable();
    var s0 := OneHeld();
    var s1 := BegunAndChecked(4, s0, [8]);
    var s2 := Apply(s1, Lay(1));
    ReachOn(4, s1, Lay(1), s2);
    assert s2.ring.buf == [7, 8, 0, 0];
    ReachOn(4, s2, LoadCount(1), SecondCopied());
  }

  /** Then the first byte is read. */
  function FirstRead(): State {
    State(Ring([7, 8, 0, 0], 1, 2, 1), [Finished, CountLoaded([8], 1)], CopiedOut(1), [7, 8], [7])
  }

  lemma FirstReadReachable()
    ensures Reachable(4, FirstRead())
  {
    SecondCopiedReachable();
    TakenFlat([7, 8, 0, 0], 0, 1);
    assert SecondCopied().ring.buf[0..1] == [7];
    ReachOn(4, SecondCopied(), TakeOut(1), FirstRead());
  }

  /** Then the count is written back. */
  function CountLost(): State {
    State(Ring([7, 8, 0, 0], 1, 2, 2), [Finished, Finished], Idle, [7, 8], [7])
  }

  /** One sender and one reader: with nothing under way any more, the ring counts a byte that is not there. */
  lemma ReadDuringStoreBreaksRing()
    ensures Reachable(4, CountLost()) && Quiet(CountLost()) && !RingOk(CountLost().ring)
  {
    FirstReadReachable();
    var s1 := Apply(FirstRead(), ReaderLoad);
    ReachOn(4, FirstRead(), ReaderLoad, s1);
    var s2 := Apply(s1, ReaderStore);
    ReachOn(4, s1, ReaderStore, s2);
    ReachOn(4, s2, StoreCount(1), CountLost());
  }

  /** Two senders have loaded the same end; then one has copied; then the other. */
  function BothLoaded(): State {
    State(Ring([0, 0, 0, 0], 0, 0, 0), [Loaded([7], 0), Loaded([8], 0)], Idle, [], [])
  }

  function FirstCopied(): State {
    State(Ring([7, 0, 0, 0], 0, 1, 0), [CopiedIn([7]), Loaded([8], 0)], Idle, [7], [])
  }

  function Overwritten(): State {
    State(Ring([8, 0, 0, 0], 0, 1, 0), [CopiedIn([7]), CopiedIn([8])], Idle, [7, 8], [])
  }

  lemma BothLoadedReachable()
    ensures Reachable(4, BothLoaded())
  {
    var s0 := Init(4);
    assert Run(s0, []) == Some(s0);
    assert s0.ring.buf == [0, 0, 0, 0];
    var s1 := BegunAndChecked(4, s0, [7]);
    var s2 := BegunAndChecked(4, s1, [8]);
    assert s2 == BothLoaded();
  }

  /** The first sender's byte is gone from the buffer although its send will succeed. */
  lemma TwoSendersOverwrite()
    ensures Reachable(4, Overwritten()) && 7 !in Overwritten().ring.buf && !Sound(Overwritten())
  {
    BothLoadedReachable();
    assert Apply(BothLoaded(), Lay(0)).ring.buf == [7, 0, 0, 0];
    ReachOn(4, BothLoaded(), Lay(0), FirstCopied());
    assert Apply(FirstCopied(), Lay(1)).ring.buf == [8, 0, 0, 0];
    ReachOn(4, FirstCopied(), Lay(1), Overwritten());
    TwoUncounted([7], [8]);
  }

  lemma TwoUncounted(a: Chunk, b: Chunk)
    ensures UncountedIn([CopiedIn(a), CopiedIn(b)]) == |a| + |b|
  {
    UncountedAppended([CopiedIn(a)], CopiedIn(b));
    UncountedAppended([], CopiedIn(a));
    assert [CopiedIn(a)] + [CopiedIn(b)] == [CopiedIn(a), CopiedIn(b)] && [] + [CopiedIn(a)] == [CopiedIn(a)];
  }
}
