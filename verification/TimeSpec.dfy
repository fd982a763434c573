/** Time differences as the helpers compute them, in 64-bit unsigned arithmetic, and the elapsed time of the batch window. */
module TimeSpecs {
  import opened Results
  import opened Bytes

  const NS_PER_SEC: nat := 1_000_000_000

  datatype TimeSpec = TimeSpec(sec: int, nsec: int)

  datatype TimeUnit = MS | US | NS

  predicate Normalised(t: TimeSpec) {
    0 <= t.nsec < NS_PER_SEC
  }

  function Nanos(t: TimeSpec): int {
    t.sec * NS_PER_SEC + t.nsec
  }

  function NsPer(u: TimeUnit): nat {
    match u
    case MS => 1_000_000
    case US => 1000
    case NS => 1
  }

  function PerSec(u: TimeUnit): nat {
    match u
    case MS => 1000
    case US => 1_000_000
    case NS => 1_000_000_000
  }

  /** Whole units up to a time. */
  function Ticks(t: TimeSpec, u: TimeUnit): int {
    Nanos(t) / NsPer(u)
  }

  function Wrapped(x: int): u64 {
    x % 0x1_0000_0000_0000_0000
  }

  /** The accumulator's three assignments. */
  function Accumulated(secondsPart: int, plus: int, minus: int): u64 {
    Wrapped(Wrapped(Wrapped(secondsPart) + plus) - minus)
  }

  /** The three delta functions; None is their failed assertion about the seconds. */
  function Delta(from: TimeSpec, to: TimeSpec, u: TimeUnit): Option<u64>
    requires Normalised(from) && Normalised(to)
  {
    if from.sec > to.sec then None
    else
      var diffSec := Wrapped(to.sec - from.sec);
      Some(Accumulated(diffSec * PerSec(u), to.nsec / NsPer(u), from.nsec / NsPer(u)))
  }

  lemma TicksOf(t: TimeSpec, u: TimeUnit)
    ensures Ticks(t, u) == t.sec * PerSec(u) + t.nsec / NsPer(u)
  {
    match u {
      case MS => assert Nanos(t) == 1_000_000 * (t.sec * 1000) + t.nsec;
      case US => assert Nanos(t) == 1000 * (t.sec * 1_000_000) + t.nsec;
      case NS =>
    }
  }

  lemma WrappedOnce(x: int)
    requires -0x1_0000_0000_0000_0000 < x < 0x1_0000_0000_0000_0000
    ensures Wrapped(x) == if x >= 0 then x else x + 0x1_0000_0000_0000_0000
  {
  }

  lemma WrappedSum(x: int, y: int)
    ensures Wrapped(Wrapped(x) + y) == Wrapped(x + y)
  {
    var m := 0x1_0000_0000_0000_0000;
    assert x == m * (x / m) + x % m;
    assert (x % m + y) % m == (x % m + y + m * (x / m)) % m;
  }

  lemma AccumulatedWrapsOnce(secondsPart: int, plus: int, minus: int)
    ensures Accumulated(secondsPart, plus, minus) == Wrapped(secondsPart + plus - minus)
  {
    WrappedSum(secondsPart, plus);
    WrappedSum(secondsPart + plus, -minus);
  }

  lemma TicksBetween(from: TimeSpec, to: TimeSpec, u: TimeUnit)
    ensures Ticks(to, u) - Ticks(from, u) == (to.sec - from.sec) * PerSec(u) + to.nsec / NsPer(u) - from.nsec / NsPer(u)
  {
    TicksOf(from, u);
    TicksOf(to, u);
  }

  lemma {:induction false} WrappedProduct(x: int, k: nat)
    ensures Wrapped(Wrapped(x) * k) == Wrapped(x * k)
    decreases k
  {
    if k > 0 {
      WrappedProduct(x, k - 1);
      assert Wrapped(x) * k == Wrapped(x) * (k - 1) + Wrapped(x) && x * k == x * (k - 1) + x;
      WrappedSum(Wrapped(x) * (k - 1), Wrapped(x));
      WrappedSum(x * (k - 1), Wrapped(x));
      WrappedSum(x, x * (k - 1));
    }
  }

  lemma AccumulatedProduct(x: int, k: nat, plus: int, minus: int)
    ensures Accumulated(Wrapped(x) * k, plus, minus) == Accumulated(x * k, plus, minus)
  {
    WrappedProduct(x, k);
  }

  /** In 64 bits the result is the difference of the two whole-unit readings, whatever the order within the second. */
  lemma DeltaIsTickDifference(from: TimeSpec, to: TimeSpec, u: TimeUnit)
    requires Normalised(from) && Normalised(to) && from.sec <= to.sec
    ensures Delta(from, to, u) == Some(Wrapped(Ticks(to, u) - Ticks(from, u)))
  {
    AccumulatedProduct(to.sec - from.sec, PerSec(u), to.nsec / NsPer(u), from.nsec / NsPer(u));
    AccumulatedWrapsOnce((to.sec - from.sec) * PerSec(u), to.nsec / NsPer(u), from.nsec / NsPer(u));
    TicksBetween(from, to, u);
  }

  /** Readings keep the order of times, and their difference is less than a unit from the real one. */
  lemma TicksFollowNanos(from: TimeSpec, to: TimeSpec, u: TimeUnit)
    requires Nanos(from) <= Nanos(to)
    ensures 0 <= Ticks(to, u) - Ticks(from, u) <= Nanos(to) - Nanos(from)
    ensures -(NsPer(u) as int) < (Ticks(to, u) - Ticks(from, u)) * NsPer(u) - (Nanos(to) - Nanos(from)) < NsPer(u)
  {
    match u {
      case MS =>
      case US =>
      case NS =>
    }
  }

  /** A difference of readings that 64 bits can hold: up to 584 years in nanoseconds, 584 million in milliseconds. */
  predicate FitsULong(from: TimeSpec, to: TimeSpec, u: TimeUnit) {
    Ticks(to, u) - Ticks(from, u) < 0x1_0000_0000_0000_0000
  }

  /** For ordered times the result is that of the readings exactly if 64 bits hold it, and within one unit of the real one. */
  lemma DeltaWithinOneUnit(from: TimeSpec, to: TimeSpec, u: TimeUnit)
    requires Normalised(from) && Normalised(to) && Nanos(from) <= Nanos(to)
    ensures Delta(from, to, u).Some?
    ensures Delta(from, to, u).value == Ticks(to, u) - Ticks(from, u) <==> FitsULong(from, to, u)
    ensures FitsULong(from, to, u) ==>
              -(NsPer(u) as int) < Delta(from, to, u).value * NsPer(u) - (Nanos(to) - Nanos(from)) < NsPer(u)
  {
    SecondsOrdered(from, to);
    DeltaIsTickDifference(from, to, u);
    TicksFollowNanos(from, to, u);
    if FitsULong(from, to, u) {
      WrappedOnce(Ticks(to, u) - Ticks(from, u));
    }
  }

  lemma SecondsOrdered(from: TimeSpec, to: TimeSpec)
    requires Normalised(from) && Normalised(to) && Nanos(from) <= Nanos(to)
    ensures from.sec <= to.sec
  {
  }

  /** Consecutive intervals add up exactly. */
  lemma DeltasAddUp(a: TimeSpec, b: TimeSpec, c: TimeSpec, u: TimeUnit)
    requires Normalised(a) && Normalised(b) && Normalised(c)
    requires Nanos(a) <= Nanos(b) <= Nanos(c) && FitsULong(a, c, u)
    ensures Delta(a, b, u).Some? && Delta(b, c, u).Some? && Delta(a, c, u).Some?
    ensures Delta(a, b, u).value + Delta(b, c, u).value == Delta(a, c, u).value
  {
    TicksFollowNanos(a, b, u);
    TicksFollowNanos(b, c, u);
    DeltaWithinOneUnit(a, b, u);
    DeltaWithinOneUnit(b, c, u);
    DeltaWithinOneUnit(a, c, u);
  }

  /** The assertion only looks at the seconds: the result has wrapped round exactly when the readings are out of order. */
  lemma DeltaWrapsIff(from: TimeSpec, to: TimeSpec, u: TimeUnit)
    requires Normalised(from) && Normalised(to) && from.sec <= to.sec && FitsULong(from, to, u)
    ensures Delta(from, to, u) == Some(Ticks(to, u) - Ticks(from, u)) <==> Ticks(from, u) <= Ticks(to, u)
    ensures Ticks(from, u) > Ticks(to, u) ==> Delta(from, to, u) == Some(0x1_0000_0000_0000_0000 - (Ticks(from, u) - Ticks(to, u)))
  {
    if Nanos(from) <= Nanos(to) {
      DeltaWithinOneUnit(from, to, u);
      TicksFollowNanos(from, to, u);
    } else {
      assert from.sec == to.sec;
      DeltaIsTickDifference(from, to, u);
      TicksFollowNanos(to, from, u);
      WrappedOnce(Ticks(to, u) - Ticks(from, u));
    }
  }

  lemma OneBackWraps(from: TimeSpec, to: TimeSpec, u: TimeUnit)
    requires Normalised(from) && Normalised(to) && from.sec == to.sec && Ticks(from, u) == Ticks(to, u) + 1
    ensures Delta(from, to, u) == Some(0xFFFF_FFFF_FFFF_FFFF)
  {
    DeltaWrapsIff(from, to, u);
  }

  /** A millisecond backwards, in any one second, passes the assertion and comes out as 2^64 - 1 milliseconds. */
  lemma BackwardsWithinSecondWraps(from: TimeSpec, to: TimeSpec)
    requires from.sec == to.sec && from.nsec == 2_000_000 && to.nsec == 1_000_000
    ensures Delta(from, to, MS) == Some(0xFFFF_FFFF_FFFF_FFFF)
  {
    TicksOf(from, MS);
    TicksOf(to, MS);
    OneBackWraps(from, to, MS);
  }

  /** C division rounds toward zero. */
  function TruncDiv(x: int, n: nat): int
    requires n > 0
  {
    if x >= 0 then x / n else -((-x) / n)
  }

  function ElapsedTimeMs(start: TimeSpec, end: TimeSpec): int {
    (end.sec - start.sec) * 1000 + TruncDiv(end.nsec - start.nsec, 1_000_000)
  }

  /** In either order, and although its two parts round in different directions, it is less than 1 ms from the difference. */
  lemma ElapsedWithinOneMs(start: TimeSpec, end: TimeSpec)
    requires Normalised(start) && Normalised(end)
    ensures -1_000_000 < ElapsedTimeMs(start, end) * 1_000_000 - (Nanos(end) - Nanos(start)) < 1_000_000
    ensures ElapsedTimeMs(start, end) == -ElapsedTimeMs(end, start)
  {
    var x := end.nsec - start.nsec;
    var n: nat := if x >= 0 then x else -x;
    assert 0 <= n - n / 1_000_000 * 1_000_000 < 1_000_000;
  }
}
