/** Fixed-width integers as bytes: little-endian for structures copied from memory, big-endian for what goes through htonl. */
module Bytes {
  type byte = b: int | 0 <= b < 0x100
  type u32 = w: int | 0 <= w < 0x1_0000_0000
  type u64 = w: int | 0 <= w < 0x1_0000_0000_0000_0000

  function Pow256(k: nat): (p: nat)
    ensures p >= 1
  {
    if k == 0 then 1 else 256 * Pow256(k - 1)
  }

  /** The low `k` bytes of `n`, least significant first. */
  function Little(n: nat, k: nat): (s: seq<byte>)
    ensures |s| == k
  {
    if k == 0 then [] else [n % 256] + Little(n / 256, k - 1)
  }

  function FromLittle(s: seq<byte>): nat {
    if s == [] then 0 else s[0] + 256 * FromLittle(s[1..])
  }

  /** The low `k` bytes of `n`, most significant first. */
  function Big(n: nat, k: nat): (s: seq<byte>)
    ensures |s| == k
  {
    if k == 0 then [] else Big(n / 256, k - 1) + [n % 256]
  }

  function FromBig(s: seq<byte>): nat {
    if s == [] then 0 else 256 * FromBig(s[..|s| - 1]) + s[|s| - 1]
  }

  lemma {:induction false} LittleRoundTrip(n: nat, k: nat)
    requires n < Pow256(k)
    ensures FromLittle(Little(n, k)) == n
  {
    if k > 0 {
      LittleRoundTrip(n / 256, k - 1);
      assert Little(n, k)[1..] == Little(n / 256, k - 1);
    }
  }

  lemma {:induction false} BigRoundTrip(n: nat, k: nat)
    requires n < Pow256(k)
    ensures FromBig(Big(n, k)) == n
  {
    if k > 0 {
      BigRoundTrip(n / 256, k - 1);
      assert Big(n, k)[..k - 1] == Big(n / 256, k - 1);
    }
  }

  lemma Reassociated(a: nat, b: nat, c: nat)
    ensures a * b * c == a * (b * c)
  {
  }

  /** Only the low `k` bytes of a number count. */
  lemma {:induction false} BigIgnoresHighPart(low: nat, high: nat, k: nat)
    ensures Big(low + Pow256(k) * high, k) == Big(low, k)
  {
    if k > 0 {
      var t := Pow256(k - 1) * high;
      Reassociated(256, Pow256(k - 1), high);
      assert (low + 256 * t) / 256 == low / 256 + t && (low + 256 * t) % 256 == low % 256;
      BigIgnoresHighPart(low / 256, high, k - 1);
    }
  }

  lemma {:induction false} FromBigBound(s: seq<byte>)
    ensures FromBig(s) < Pow256(|s|)
  {
    if s != [] {
      FromBigBound(s[..|s| - 1]);
    }
  }

  lemma {:induction false} FromLittleBound(s: seq<byte>)
    ensures FromLittle(s) < Pow256(|s|)
  {
    if s != [] {
      FromLittleBound(s[1..]);
    }
  }

  lemma Pow256Values()
    ensures Pow256(4) == 0x1_0000_0000
    ensures Pow256(8) == 0x1_0000_0000_0000_0000
  {
    assert Pow256(2) == 0x1_0000;
    assert Pow256(6) == 0x1_0000_0000_0000;
  }

  /** An array of 64-bit words as it lies in memory. */
  function EncodeWords(ws: seq<u64>): (s: seq<byte>)
    ensures |s| == 8 * |ws|
  {
    if ws == [] then [] else Little(ws[0], 8) + EncodeWords(ws[1..])
  }

  function DecodeWords(s: seq<byte>, n: nat): (ws: seq<u64>)
    requires |s| == 8 * n
    ensures |ws| == n
  {
    if n == 0 then []
    else
      FromLittleBound(s[..8]);
      Pow256Values();
      [FromLittle(s[..8])] + DecodeWords(s[8..], n - 1)
  }

  lemma {:induction false} WordsRoundTrip(ws: seq<u64>)
    ensures DecodeWords(EncodeWords(ws), |ws|) == ws
  {
    if ws != [] {
      var s := EncodeWords(ws);
      assert s[..8] == Little(ws[0], 8) && s[8..] == EncodeWords(ws[1..]);
      Pow256Values();
      LittleRoundTrip(ws[0], 8);
      WordsRoundTrip(ws[1..]);
    }
  }

  /** The `k`-th word lies at offset `i`, eight times `k`. */
  lemma {:induction false} WordAt(ws: seq<u64>, k: nat, i: nat)
    requires k < |ws| && i == 8 * k
    ensures EncodeWords(ws)[i..i + 8] == Little(ws[k], 8)
  {
    if k > 0 {
      WordAt(ws[1..], k - 1, i - 8);
      assert EncodeWords(ws)[i..i + 8] == EncodeWords(ws[1..])[i - 8..i];
    }
  }

  /** A word made of two halves has the lower one's bytes first. */
  lemma LittleSplits(low: u32, high: u32)
    ensures Little(low + 0x1_0000_0000 * high, 8) == Little(low, 4) + Little(high, 4)
  {
    Pow256Values();
    LittleConcat(low, high, 4, 4);
  }

  lemma LowByteOut(low: nat, x: nat)
    ensures (low + 0x100 * x) / 0x100 == low / 0x100 + x && (low + 0x100 * x) % 0x100 == low % 0x100
  {
  }

  lemma {:induction false} LittleConcat(low: nat, high: nat, k: nat, n: nat)
    requires low < Pow256(k)
    ensures Little(low + Pow256(k) * high, k + n) == Little(low, k) + Little(high, n)
  {
    if k > 0 {
      Reassociated(0x100, Pow256(k - 1), high);
      LowByteOut(low, Pow256(k - 1) * high);
      LittleConcat(low / 0x100, high, k - 1, n);
    }
  }

  /** Pieces put one behind the other. */
  function Joined(pieces: seq<seq<byte>>): seq<byte> {
    if pieces == [] then [] else pieces[0] + Joined(pieces[1..])
  }

  lemma {:induction false} JoinedAppended(pieces: seq<seq<byte>>, piece: seq<byte>)
    ensures Joined(pieces + [piece]) == Joined(pieces) + piece
  {
    if pieces == [] {
      assert [piece][1..] == [];
    } else {
      assert (pieces + [piece])[1..] == pieces[1..] + [piece];
      JoinedAppended(pieces[1..], piece);
      assert pieces[0] + (Joined(pieces[1..]) + piece) == pieces[0] + Joined(pieces[1..]) + piece;
    }
  }

  lemma {:induction false} JoinedConcat(a: seq<seq<byte>>, b: seq<seq<byte>>)
    ensures Joined(a + b) == Joined(a) + Joined(b)
  {
    if a == [] {
      assert a + b == b;
    } else {
      assert (a + b)[1..] == a[1..] + b;
      JoinedConcat(a[1..], b);
      assert a[0] + (Joined(a[1..]) + Joined(b)) == Joined(a) + Joined(b);
    }
  }

  lemma JoinedPieces(a: seq<byte>, b: seq<byte>, c: seq<byte>, d: seq<byte>)
    ensures Joined([a, b] + []) == a + b + []
    ensures Joined([a, b] + [c, d]) == a + b + (c + d)
  {
    assert Joined([d]) == d;
    assert [c, d][1..] == [d];
    assert ([a, b] + [c, d])[1..] == [b] + [c, d] && ([b] + [c, d])[1..] == [c, d];
    assert Joined([c, d]) == c + d && Joined([b] + [c, d]) == b + (c + d);
    assert a + (b + (c + d)) == a + b + (c + d);
    assert ([a, b] + [])[1..] == [b] && Joined([b]) == b;
  }
}
