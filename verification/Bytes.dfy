/** Bytes, 32-bit words and their little-endian forms.

    A Go `byte` or `uint32` is an integer in range.  `x >> k` is `x / 2^k`, `x & (2^k - 1)` is
    `x % 2^k`, and an `|` of bit fields that do not overlap is their sum. */
module Bytes {

  type byte = x: int | 0 <= x < 256

  const TWO_TO_THE_32: int := 0x1_0000_0000

  function Pow2(n: nat): (p: nat)
    ensures p >= 1
  {
    if n == 0 then 1 else 2 * Pow2(n - 1)
  }

  lemma {:induction false} Pow2Add(a: nat, b: nat)
    ensures Pow2(a) * Pow2(b) == Pow2(a + b)
  {
    if a == 0 {
    } else {
      Pow2Add(a - 1, b);
      MulAssoc(2, Pow2(a - 1), Pow2(b));
    }
  }

  /** `b[i]`, or 0 past the end: the guarded read the codec uses. */
  function ByteAt(b: seq<byte>, i: nat): byte {
    if i < |b| then b[i] else 0
  }

  /** `n` bytes of `b` from `i`, least significant first, zero-padded past the end. */
  function ReadLE(b: seq<byte>, i: nat, n: nat): (v: nat)
    decreases n
  {
    if n == 0 then 0 else ByteAt(b, i) + 256 * ReadLE(b, i + 1, n - 1)
  }

  /** The low `n` bytes of `f`, least significant first. */
  function LE(f: nat, n: nat): (r: seq<byte>)
    ensures |r| == n
  {
    if n == 0 then [] else [f % 256] + LE(f / 256, n - 1)
  }

  /** A bound on the values `n` bytes can hold. */
  function Pow256(n: nat): (p: nat)
    ensures p >= 1
  {
    if n == 0 then 1 else 256 * Pow256(n - 1)
  }

  lemma {:induction false} ReadLEBound(b: seq<byte>, i: nat, n: nat)
    ensures ReadLE(b, i, n) < Pow256(n)
    decreases n
  {
    if n == 0 {
    } else {
      ReadLEBound(b, i + 1, n - 1);
    }
  }

  /** Reading back a little-endian field gives its value, whatever follows it. */
  lemma {:induction false} ReadLEOfLE(b: seq<byte>, i: nat, f: nat, n: nat)
    requires i + n <= |b| && b[i..i + n] == LE(f, n)
    ensures ReadLE(b, i, n) == f % Pow256(n)
    decreases n
  {
    if n == 0 {
    } else {
      assert b[i] == b[i..i + n][0] == f % 256;
      assert b[i + 1..i + n] == b[i..i + n][1..] == LE(f / 256, n - 1);
      ReadLEOfLE(b, i + 1, f / 256, n - 1);
      ModSplit(f, Pow256(n - 1));
    }
  }

  lemma ModSplit(f: nat, p: nat)
    requires p >= 1
    ensures 256 * p >= 1 && f % 256 + 256 * ((f / 256) % p) == f % (256 * p)
  {
    var q := (f / 256) / p;
    var r := (f / 256) % p;
    assert f / 256 == q * p + r;
    var low := f % 256 + 256 * r;
    assert f == q * (256 * p) + low;
    assert 0 <= low < 256 * p;
    ModUnique(f, 256 * p, q, low);
  }

  lemma ModUnique(f: nat, d: nat, q: nat, r: nat)
    requires d >= 1 && f == q * d + r && r < d
    ensures f % d == r && f / d == q
  {
    var q' := f / d;
    assert f == q' * d + f % d;
    if q' < q {
      assert (q - q') * d >= d by { MulGe(q - q', d); }
    } else if q' > q {
      assert (q' - q) * d >= d by { MulGe(q' - q, d); }
    }
  }

  lemma MulGe(a: nat, d: nat)
    requires a >= 1
    ensures a * d >= d
  {
  }

  /** A read of `n + m` bytes is a read of `n` bytes with `m` more above it. */
  lemma {:induction false} ReadLESplit(b: seq<byte>, i: nat, n: nat, m: nat)
    ensures ReadLE(b, i, n + m) == ReadLE(b, i, n) + Pow256(n) * ReadLE(b, i + n, m)
    decreases n
  {
    if n == 0 {
    } else {
      ReadLESplit(b, i + 1, n - 1, m);
      var hi := ReadLE(b, i + n, m);
      assert i + 1 + (n - 1) == i + n && n - 1 + m == n + m - 1;
      MulAssoc(256, Pow256(n - 1), hi);
    }
  }

  lemma MulAssoc(a: int, b: int, c: int)
    ensures (a * b) * c == a * (b * c)
  {
  }
}
