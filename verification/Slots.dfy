/** Tables of slots, some of them in use, and rings of which a stretch is live: what several parts keep in arrays. */
module Slots {

  /** How many elements satisfy `p`. */
  function CountOf<T>(s: seq<T>, p: T -> bool): (n: nat)
    ensures n <= |s|
  {
    if s == [] then 0 else CountOf(s[..|s| - 1], p) + if p(s[|s| - 1]) then 1 else 0
  }

  /** Where the first element satisfying `p` stands; the length if there is none. */
  function FirstOf<T>(s: seq<T>, p: T -> bool): (i: nat)
    ensures i <= |s|
    ensures i < |s| ==> p(s[i])
    ensures forall k :: 0 <= k < i ==> !p(s[k])
  {
    if s == [] || p(s[0]) then 0 else 1 + FirstOf(s[1..], p)
  }

  lemma {:induction false} CountAfterUpdate<T>(s: seq<T>, p: T -> bool, i: nat, v: T)
    requires i < |s|
    ensures CountOf(s[i := v], p) == CountOf(s, p) + (if p(v) then 1 else 0) - (if p(s[i]) then 1 else 0)
  {
    var n := |s| - 1;
    if i < n {
      assert s[i := v][..n] == s[..n][i := v];
      CountAfterUpdate(s[..n], p, i, v);
    } else {
      assert s[i := v][..n] == s[..n];
    }
  }

  /** Everything counts exactly when the count is the length: below that, some element does not. */
  lemma {:induction false} CountIsFull<T>(s: seq<T>, p: T -> bool)
    ensures CountOf(s, p) == |s| <==> forall i :: 0 <= i < |s| ==> p(s[i])
  {
    if s != [] {
      CountIsFull(s[..|s| - 1], p);
    }
  }

  lemma {:induction false} CountIsZero<T>(s: seq<T>, p: T -> bool)
    ensures CountOf(s, p) == 0 <==> forall i :: 0 <= i < |s| ==> !p(s[i])
  {
    if s != [] {
      CountIsZero(s[..|s| - 1], p);
    }
  }

  /** The `count` elements of a ring from position `head` on, going round. */
  function Live<T>(ring: seq<T>, head: nat, count: nat): (s: seq<T>)
    requires |ring| > 0
    ensures |s| == count
  {
    seq(count, i requires 0 <= i < count => ring[(head + i) % |ring|])
  }

  lemma MulMonotone(n: nat, a: int, b: int)
    requires a <= b
    ensures n * a <= n * b
  {
  }

  lemma ModOfSum(n: nat, q: nat, r: nat)
    requires r < n
    ensures (n * q + r) % n == r
  {
    var w := n * q + r;
    assert w == n * (w / n) + w % n;
    if w / n > q {
      MulMonotone(n, q + 1, w / n);
    } else if w / n < q {
      MulMonotone(n, w / n + 1, q);
    }
  }

  /** Positions less than a whole ring apart are different slots. */
  lemma PositionsApart(n: nat, x: nat, y: nat)
    requires x < y < x + n
    ensures x % n != y % n
  {
    var q, r, d := x / n, x % n, y - x;
    assert x == n * q + r;
    if r + d < n {
      ModOfSum(n, q, r + d);
    } else {
      assert n * q + n == n * (q + 1);
      ModOfSum(n, q + 1, r + d - n);
    }
  }

  lemma Distributes(n: nat, a: nat, b: nat)
    ensures n * a + n * b == n * (a + b)
  {
  }

  lemma ReducedSum(n: nat, x: nat, y: nat)
    requires n > 0
    ensures (x % n + y) % n == (x + y) % n
  {
    var q, z := x / n, x % n + y;
    var k, r := z / n, z % n;
    Distributes(n, q, k);
    ModOfSum(n, q + k, r);
    assert n * (q + k) + r == x + y;
  }

  lemma LiveAfterPut<T>(ring: seq<T>, head: nat, count: nat, d: T)
    requires count < |ring|
    ensures Live(ring[(head + count) % |ring| := d], head, count + 1) == Live(ring, head, count) + [d]
  {
    var at := (head + count) % |ring|;
    var live, live' := Live(ring, head, count), Live(ring[at := d], head, count + 1);
    forall i | 0 <= i < count ensures live'[i] == live[i] {
      PositionsApart(|ring|, head + i, head + count);
    }
    assert live'[count] == d;
  }

  lemma LiveAt<T>(ring: seq<T>, head: nat, count: nat, k: nat)
    requires |ring| > 0 && k < count
    ensures Live(ring, head, count)[k] == ring[(head + k) % |ring|]
  {
  }

  lemma LiveAfterTake<T>(ring: seq<T>, head: nat, count: nat, n: nat)
    requires |ring| > 0 && n <= count
    ensures Live(ring, head + n, count - n) == Live(ring, head, count)[n..]
    ensures count > 0 ==> Live(ring, head, count)[0] == ring[head % |ring|]
  {
  }

  /** The head may be kept reduced. */
  lemma LiveFromReduced<T>(ring: seq<T>, head: nat, count: nat)
    requires |ring| > 0
    ensures Live(ring, head % |ring|, count) == Live(ring, head, count)
  {
    forall i | 0 <= i < count ensures Live(ring, head % |ring|, count)[i] == Live(ring, head, count)[i] {
      ReducedSum(|ring|, head, i);
    }
  }

  /** Taking the oldest element of a ring whose head is kept reduced. */
  lemma LiveAfterPop<T>(ring: seq<T>, head: nat, count: nat)
    requires head < |ring| && 0 < count
    ensures Live(ring, head, count)[0] == ring[head]
    ensures Live(ring, (head + 1) % |ring|, count - 1) == Live(ring, head, count)[1..]
  {
    assert head % |ring| == head;
    LiveAfterTake(ring, head, count, 1);
    LiveFromReduced(ring, head + 1, count - 1);
  }

  /** And its tail stays where it is. */
  lemma TailAfterPop(n: nat, head: nat, count: nat)
    requires n > 0 && 0 < count
    ensures ((head + 1) % n + (count - 1)) % n == (head + count) % n
  {
    ReducedSum(n, head + 1, count - 1);
    assert head + 1 + (count - 1) == head + count;
  }
}
