/**
 * The callback batch as its threads use it: additions, each one critical section, and flushes, which take what has
 * accumulated in one critical section and later hand the callback the buffer's front as it then is. Any number of
 * threads, in every interleaving; additions that are refused change nothing and are not steps.
 */
module BatchRaces {
  import opened Results
  import opened Bytes
  import Rings = ByteRings

  datatype State = State(
    buffer: seq<byte>,
    size: nat,
    pending: seq<seq<byte>>,   // what the flushes under way have taken, in the order in which they took it
    // histories
    accepted: seq<byte>,
    delivered: seq<byte>)

  datatype Action = Add(data: seq<byte>) | TakeBatch | Deliver(i: nat)

  function Init(bufferSize: nat): State {
    State(seq(bufferSize, _ => 0), 0, [], [], [])
  }

  predicate Enabled(s: State, a: Action) {
    match a
    case Add(data) => 0 < |data| && s.size + |data| <= |s.buffer|
    case TakeBatch => 0 < s.size <= |s.buffer|
    case Deliver(i) => i < |s.pending| && |s.pending[i]| <= |s.buffer|
  }

  function Without<T>(s: seq<T>, i: nat): seq<T>
    requires i < |s|
  {
    s[..i] + s[i + 1..]
  }

  function Apply(s: State, a: Action): State
    requires Enabled(s, a)
  {
    match a
    case Add(data) =>
      s.(buffer := Rings.Over(s.buffer, s.size, data), size := s.size + |data|, accepted := s.accepted + data)
    case TakeBatch => s.(size := 0, pending := s.pending + [s.buffer[..s.size]])
    case Deliver(i) =>
      s.(pending := Without(s.pending, i), delivered := s.delivered + s.buffer[..|s.pending[i]|])
  }

  predicate Intact(s: State, i: nat)
    requires i < |s.pending|
  {
    |s.pending[i]| <= |s.buffer| && s.buffer[..|s.pending[i]|] == s.pending[i]
  }

  /**
   * Every flush under way will deliver what it has taken, and what has been delivered, what they are about to deliver and
   * what has accumulated are together, in this order, what has been accepted.
   */
  predicate Sound(s: State) {
    && s.size <= |s.buffer|
    && (forall i {:trigger Intact(s, i)} :: 0 <= i < |s.pending| ==> Intact(s, i))
    && s.accepted == s.delivered + Joined(s.pending) + s.buffer[..s.size]
  }

  /** An addition at `size` puts a different byte in place of one that was taken. */
  predicate Overwrites(taken: seq<byte>, size: nat, data: seq<byte>) {
    exists k :: 0 <= k < |data| && size + k < |taken| && data[k] != taken[size + k]
  }

  /** What breaks it: such an addition, and a delivery that overtakes earlier flushes with other bytes to deliver. */
  predicate Disturbs(s: State, a: Action)
    requires Enabled(s, a)
  {
    match a
    case Add(data) => exists i :: 0 <= i < |s.pending| && Overwrites(s.pending[i], s.size, data)
    case TakeBatch => false
    case Deliver(i) => s.pending[i] + Joined(s.pending[..i]) != Joined(s.pending[..i]) + s.pending[i]
  }

  lemma SoundWhenQuiet(s: State)
    requires s.pending == [] && s.size <= |s.buffer|
    ensures Sound(s) <==> s.accepted == s.delivered + s.buffer[..s.size]
  {
    assert s.delivered + [] == s.delivered;
  }

  lemma IntactIffNotOverwritten(buffer: seq<byte>, size: nat, data: seq<byte>, taken: seq<byte>)
    requires size + |data| <= |buffer| && |taken| <= |buffer| && buffer[..|taken|] == taken
    ensures Rings.Over(buffer, size, data)[..|taken|] == taken <==> !Overwrites(taken, size, data)
  {
    var after := Rings.Over(buffer, size, data);
    forall j | 0 <= j < |taken| ensures after[j] == if size <= j < size + |data| then data[j - size] else taken[j] {
      assert buffer[..|taken|][j] == taken[j];
    }
    if k :| 0 <= k < |data| && size + k < |taken| && data[k] != taken[size + k] {
      assert after[..|taken|][size + k] != taken[size + k];
    } else {
      forall j | 0 <= j < |taken| ensures after[j] == taken[j] {
        if size <= j < size + |data| {
          assert data[j - size] == taken[size + (j - size)];
        }
      }
    }
  }

  lemma AddSoundIff(s: State, data: seq<byte>)
    requires Sound(s) && Enabled(s, Add(data))
    ensures Sound(Apply(s, Add(data))) <==> !Disturbs(s, Add(data))
  {
    var s' := Apply(s, Add(data));
    forall i | 0 <= i < |s.pending| ensures Intact(s', i) <==> !Overwrites(s.pending[i], s.size, data) {
      assert Intact(s, i);
      IntactIffNotOverwritten(s.buffer, s.size, data, s.pending[i]);
    }
    assert s'.buffer[..s'.size] == s.buffer[..s.size] + data;
    var before := s.delivered + Joined(s.pending);
    assert before + (s.buffer[..s.size] + data) == before + s.buffer[..s.size] + data;
  }

  lemma TakeKeepsSound(s: State)
    requires Sound(s) && Enabled(s, TakeBatch)
    ensures Sound(Apply(s, TakeBatch))
  {
    var s' := Apply(s, TakeBatch);
    var taken := s.buffer[..s.size];
    forall i | 0 <= i < |s'.pending| ensures Intact(s', i) {
      if i < |s.pending| {
        assert Intact(s, i);
      }
    }
    JoinedAppended(s.pending, taken);
    assert s.delivered + (Joined(s.pending) + taken) + [] == s.delivered + Joined(s.pending) + taken;
  }

  /** Two stretches may change places before and after the same others exactly if they may by themselves. */
  lemma SwapsIff(before: seq<byte>, a: seq<byte>, b: seq<byte>, after: seq<byte>)
    ensures before + b + (a + after) == before + (a + b + after) <==> b + a == a + b
  {
    var l, r := before + b + (a + after), before + (a + b + after);
    var n := |before|;
    var m := n + |a| + |b|;
    assert l[n..m] == b + a && r[n..m] == a + b;
    if b + a == a + b {
      assert l == before + (b + a) + after && r == before + (a + b) + after;
    }
  }

  lemma DeliverSoundIff(s: State, i: nat)
    requires Sound(s) && Enabled(s, Deliver(i))
    ensures Sound(Apply(s, Deliver(i))) <==> !Disturbs(s, Deliver(i))
  {
    var s' := Apply(s, Deliver(i));
    var before, taken, after := s.pending[..i], s.pending[i], s.pending[i + 1..];
    assert Intact(s, i);
    forall j | 0 <= j < |s'.pending| ensures Intact(s', j) {
      assert Intact(s, if j < i then j else j + 1);
    }
    JoinedConcat(before, after);
    JoinedConcat(before + [taken], after);
    JoinedAppended(before, taken);
    assert s.pending == before + [taken] + after;
    SwapsIff(s.delivered, Joined(before), taken, Joined(after));
    SameEnds(s'.delivered + Joined(s'.pending), s.delivered + Joined(s.pending), s.buffer[..s.size]);
  }

  lemma SameEnds(a: seq<byte>, b: seq<byte>, c: seq<byte>)
    ensures a + c == b + c <==> a == b
  {
    if a + c == b + c {
      assert |a + c| == |b + c|;
      assert (a + c)[..|a|] == a && (b + c)[..|a|] == b;
    }
  }

  /** A step from a sound state leads to a sound one if and only if it is not a disturbing one. */
  lemma StepSoundIff(s: State, a: Action)
    requires Sound(s) && Enabled(s, a)
    ensures Sound(Apply(s, a)) <==> !Disturbs(s, a)
  {
    match a {
      case Add(data) => AddSoundIff(s, data);
      case TakeBatch => TakeKeepsSound(s);
      case Deliver(i) => DeliverSoundIff(s, i);
    }
  }

  /** The two halves taken together, with nothing else under way, are the flush that nothing comes between. */
  lemma UninterruptedFlush(s: State)
    requires s.pending == [] && 0 < s.size <= |s.buffer|
    ensures var taken := Apply(s, TakeBatch);
            && Enabled(taken, Deliver(0))
            && Apply(taken, Deliver(0)) == s.(size := 0, delivered := s.delivered + s.buffer[..s.size])
  {
    assert Without([s.buffer[..s.size]], 0) == [];
  }

  // -------------------------------------------------------------------------------------------------------------
  // Runs

  function Run(s: State, run: seq<Action>): Option<State>
    decreases |run|
  {
    if run == [] then Some(s)
    else if Enabled(s, run[0]) then Run(Apply(s, run[0]), run[1..])
    else None
  }

  predicate SoundThroughout(s: State, run: seq<Action>)
    requires Run(s, run).Some?
    decreases |run|
  {
    Sound(s) && (run != [] ==> SoundThroughout(Apply(s, run[0]), run[1..]))
  }

  predicate Disturbed(s: State, run: seq<Action>)
    requires Run(s, run).Some?
    decreases |run|
  {
    run != [] && (Disturbs(s, run[0]) || Disturbed(Apply(s, run[0]), run[1..]))
  }

  /**
   * Over every interleaving: delivered, about to be delivered and accumulated are what was accepted throughout if and
   * only if no addition overwrote bytes taken and not yet delivered, and no delivery overtook another with other bytes.
   * Whenever no flush is under way then, delivered and accumulated are it by themselves.
   */
  lemma {:induction false} SoundThroughoutIff(s: State, run: seq<Action>)
    requires Sound(s) && Run(s, run).Some?
    ensures SoundThroughout(s, run) <==> !Disturbed(s, run)
    ensures var s' := Run(s, run).value;
            !Disturbed(s, run) ==>
              Sound(s') && (s'.pending == [] ==> s'.accepted == s'.delivered + s'.buffer[..s'.size])
    decreases |run|
  {
    if run == [] {
      if s.pending == [] {
        SoundWhenQuiet(s);
      }
    } else {
      StepSoundIff(s, run[0]);
      if !Disturbs(s, run[0]) {
        SoundThroughoutIff(Apply(s, run[0]), run[1..]);
      }
    }
  }

  /** No addition comes while a flush is under way, and no second flush: as if flushes held the mutex to their end. */
  predicate OneByOne(s: State, run: seq<Action>)
    requires Run(s, run).Some?
    decreases |run|
  {
    run != [] ==> (s.pending == [] || run[0].Deliver?) && OneByOne(Apply(s, run[0]), run[1..])
  }

  lemma {:induction false} OneByOneUndisturbed(s: State, run: seq<Action>)
    requires |s.pending| <= 1 && Run(s, run).Some? && OneByOne(s, run)
    ensures !Disturbed(s, run)
    decreases |run|
  {
    if run != [] {
      if run[0].Deliver? {
        assert s.pending[0] + [] == [] + s.pending[0];
      }
      OneByOneUndisturbed(Apply(s, run[0]), run[1..]);
    }
  }

  /** Then the class's result holds over every run: whenever no flush is under way, nothing is lost, doubled or reordered. */
  lemma OneByOneConserves(bufferSize: nat, run: seq<Action>, s: State)
    requires Run(Init(bufferSize), run) == Some(s) && OneByOne(Init(bufferSize), run) && s.pending == []
    ensures s.size <= |s.buffer| && s.accepted == s.delivered + s.buffer[..s.size]
  {
    SoundWhenQuiet(Init(bufferSize));
    OneByOneUndisturbed(Init(bufferSize), run);
    SoundThroughoutIff(Init(bufferSize), run);
  }

  /** One byte accepted and taken. */
  function OneTaken(): State {
    State([1, 0], 0, [[1]], [1], [])
  }

  lemma OneTakenReached(more: seq<Action>)
    ensures Run(Init(2), [Add([1]), TakeBatch] + more) == Run(OneTaken(), more)
  {
    var s0 := Init(2);
    var s1 := Apply(s0, Add([1]));
    assert s1.buffer == [1, 0] && s1.buffer[..1] == [1];
    assert Apply(s1, TakeBatch) == OneTaken();
    var run := [Add([1]), TakeBatch] + more;
    assert run[1..] == [TakeBatch] + more && run[1..][1..] == more;
  }

  /** A byte added during a flush is delivered twice, and the one taken never. */
  lemma AddedDuringFlush()
    ensures exists s ::
              && Run(Init(2), [Add([1]), TakeBatch] + [Add([2]), Deliver(0)]) == Some(s)
              && s.pending == [] && s.size <= |s.buffer|
              && s.accepted == [1, 2] && s.delivered + s.buffer[..s.size] == [2, 2]
  {
    var more := [Add([2]), Deliver(0)];
    OneTakenReached(more);
    var s1 := Apply(OneTaken(), Add([2]));
    assert s1.buffer == [2, 0] && s1.buffer[..1] == [2];
    var s2 := Apply(s1, Deliver(0));
    assert more[1..] == [Deliver(0)] && more[1..][1..] == [];
    assert Run(OneTaken(), more) == Some(s2);
  }

  /** Two flushes under way: the same byte once more, and another, have been accepted and taken. */
  function TwoTaken(): State {
    State([1, 2], 0, [[1], [1, 2]], [1, 1, 2], [])
  }

  lemma TwoTakenReached()
    ensures var s1 := Apply(OneTaken(), Add([1, 2])); Enabled(s1, TakeBatch) && Apply(s1, TakeBatch) == TwoTaken()
  {
    var s1 := Apply(OneTaken(), Add([1, 2]));
    assert s1.buffer == [1, 2] && s1.buffer[..2] == [1, 2];
    assert s1.accepted == [1] + [1, 2] == [1, 1, 2];
    assert [[1]] + [[1, 2]] == [[1], [1, 2]];
  }

  lemma SecondDeliversFirst()
    ensures Enabled(TwoTaken(), Deliver(1))
    ensures Apply(TwoTaken(), Deliver(1)) == State([1, 2], 0, [[1]], [1, 1, 2], [1, 2])
  {
    assert Without(TwoTaken().pending, 1) == [[1]];
    assert TwoTaken().buffer[..2] == [1, 2] && [] + [1, 2] == [1, 2];
  }

  lemma FirstDeliversSecond()
    ensures var s := State([1, 2], 0, [[1]], [1, 1, 2], [1, 2]);
            Enabled(s, Deliver(0)) && Apply(s, Deliver(0)) == State([1, 2], 0, [], [1, 1, 2], [1, 2, 1])
  {
    var s := State([1, 2], 0, [[1]], [1, 1, 2], [1, 2]);
    assert Without(s.pending, 0) == [] && s.buffer[..1] == [1] && [1, 2] + [1] == [1, 2, 1];
  }

  /** If the second flush's callback comes first, the bytes are delivered out of order. */
  lemma OvertakenFlush()
    ensures exists s ::
              && Run(Init(2), [Add([1]), TakeBatch] + [Add([1, 2]), TakeBatch, Deliver(1), Deliver(0)]) == Some(s)
              && s.pending == [] && s.size <= |s.buffer|
              && s.accepted == [1, 1, 2] && s.delivered + s.buffer[..s.size] == [1, 2, 1]
  {
    var more := [Add([1, 2]), TakeBatch, Deliver(1), Deliver(0)];
    OneTakenReached(more);
    TwoTakenReached();
    SecondDeliversFirst();
    FirstDeliversSecond();
    var s := State([1, 2], 0, [], [1, 1, 2], [1, 2, 1]);
    assert more[1..][1..] == [Deliver(1), Deliver(0)] && more[1..][1..][1..] == [Deliver(0)];
    assert Run(TwoTaken(), [Deliver(1), Deliver(0)]) == Some(s);
    assert Run(OneTaken(), more) == Some(s);
    assert s.delivered + s.buffer[..0] == [1, 2, 1];
  }
}
