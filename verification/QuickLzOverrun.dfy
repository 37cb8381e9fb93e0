/** Where the decompressor does not report a malformed block but runs past its end: exactly which
    lengths and declared sizes allow it. */
module QuickLzOverrun {
  import opened Bytes
  import opened QuickLzFormat
  import opened QuickLzDecode

  /** Some block of `n` bytes that declares a compressed size of `c` makes the decompressor index past
      the block's end. */
  ghost predicate CanOverrun(n: nat, c: nat) {
    exists source: seq<byte> :: |source| == n && SizeCompressed(source) == c && DecodeBlock(source).OutOfRange?
  }

  /** The declared size is beyond the block, but far enough beyond the header that the first two guards
      pass: 11 with a 3-byte header, 17 with a 9-byte one, whose sixth byte has to be there. */
  predicate OverrunSizes(n: nat, c: nat) {
    n < c && ((n >= 3 && 11 <= c <= 255) || (n >= 6 && 17 <= c < TWO_TO_THE_32))
  }

  // ----- Only these -----

  lemma NothingToDecode(source: seq<byte>, last: int, src: nat, cword: nat)
    ensures !DecodeFrom(source, last, 0, src, cword, []).OutOfRange?
  {
    hide ReadLE, DecodeMatch;
  }

  lemma TooShortToStart(source: seq<byte>, last: int, dsize: nat, src: nat)
    requires src + 7 > last
    ensures !DecodeFrom(source, last, dsize, src, 1, []).OutOfRange?
  {
    hide ReadLE, DecodeMatch;
  }

  lemma FieldBounds(source: seq<byte>)
    ensures SizeBytes(source) == 1 ==> SizeCompressed(source) <= 255
    ensures SizeBytes(source) == 4 ==> SizeCompressed(source) < TWO_TO_THE_32
    ensures SizeBytes(source) == 4 && |source| <= 5 ==> SizeDecompressed(source) == 0
  {
    PowerValues();
    ReadLEBound(source, 1, SizeBytes(source));
    if SizeBytes(source) == 4 && |source| <= 5 {
      ReadsZeros(source, 5, 4);
    }
  }

  lemma OverrunOnlyThen(source: seq<byte>)
    requires DecodeBlock(source).OutOfRange?
    ensures OverrunSizes(|source|, SizeCompressed(source))
  {
    hide DecodeFrom, SizeCompressed, SizeDecompressed;
    var last := SizeCompressed(source) - 1;
    FieldBounds(source);
    DecodeBlockSafe(source);
    NothingToDecode(source, last, SizeHeader(source), 1);
    if SizeHeader(source) + 7 > last {
      TooShortToStart(source, last, SizeDecompressed(source), SizeHeader(source));
    }
  }

  // ----- All of these -----

  /** With no flag set the tail reads on, byte by byte, past the end of the block. */
  lemma {:induction false} TailOverruns(source: seq<byte>, last: int, dsize: nat, src: nat, dst: seq<byte>)
    requires src <= last && |source| <= last && |dst| < dsize && src + (dsize - |dst|) > |source|
    ensures TailFrom(source, last, dsize, src, 0, dst) == OutOfRange
    decreases dsize - |dst|
  {
    if src < |source| {
      TailOverruns(source, last, dsize, src + 1, dst + [source[src]]);
    }
  }

  /** So do the literal runs before it. */
  lemma {:induction false} LiteralsOverrun(source: seq<byte>, last: int, dsize: nat, src: nat, dst: seq<byte>)
    requires src + 3 <= last && |source| <= last && |dst| < dsize && src + (dsize - |dst|) > |source|
    requires dsize - |dst| > 11 ==> src + (dsize - |dst|) == |source| + 1
    ensures DecodeFrom(source, last, dsize, src, 0, dst) == OutOfRange
    decreases dsize - |dst|
  {
    hide ReadLE, DecodeMatch, TailFrom;
    if dsize - |dst| > 11 {
      assert ShiftRight(0, 4) == 0;
      LiteralsOverrun(source, last, dsize, src + 4, dst + PaddedSlice(source, src, 4));
    } else {
      TailOverruns(source, last, dsize, src, dst);
    }
  }

  function Zeros(n: nat): (z: seq<byte>)
    ensures |z| == n && forall i :: 0 <= i < n ==> z[i] == 0
  {
    if n == 0 then [] else Zeros(n - 1) + [0]
  }

  lemma {:induction false} ReadsZeros(b: seq<byte>, i: nat, n: nat)
    requires forall k :: i <= k < |b| ==> b[k] == 0
    ensures ReadLE(b, i, n) == 0
    decreases n
  {
    if n > 0 {
      ReadsZeros(b, i + 1, n - 1);
    }
  }

  /** A header whose control word is zero. */
  lemma HeaderOverruns(source: seq<byte>, c: nat, dsize: nat)
    requires |source| >= 3 && source[0] % 2 == 1
    requires SizeCompressed(source) == c && SizeDecompressed(source) == dsize && |source| < c
    requires forall k :: SizeHeader(source) <= k < |source| ==> source[k] == 0
    requires c >= SizeHeader(source) + 8
    requires dsize >= 1 && SizeHeader(source) + 4 + dsize > |source|
    requires dsize > 11 ==> SizeHeader(source) + 4 + dsize == |source| + 1
    ensures DecodeBlock(source) == OutOfRange
  {
    hide SizeCompressed, SizeDecompressed, SizeHeader, TokenFrom;
    var h := SizeHeader(source);
    ReadsZeros(source, h, 4);
    LiteralsOverrun(source, c - 1, dsize, h + 4, []);
    OneWord(source, c - 1, dsize, h);
  }

  lemma OneWord(source: seq<byte>, last: int, dsize: nat, src: nat)
    requires ReadLE(source, src, 4) == 0 && src + 3 <= last
    ensures DecodeFrom(source, last, dsize, src, 1, []) == DecodeFrom(source, last, dsize, src + 4, 0, [])
  {
    hide TokenFrom;
  }

  function AtLeastOne(x: int): nat {
    if x < 1 then 1 else x
  }

  function ShortWitness(n: nat, c: nat): seq<byte>
    requires 3 <= n < c <= 255
  {
    [77, c, AtLeastOne(n - 6)] + Zeros(n - 3)
  }

  lemma ShortOverruns(n: nat, c: nat)
    requires 3 <= n < c <= 255 && c >= 11
    ensures CanOverrun(n, c)
  {
    var s := ShortWitness(n, c);
    assert ReadLE(s, 1, 1) == ByteAt(s, 1) + 256 * ReadLE(s, 2, 0);
    assert ReadLE(s, 2, 1) == ByteAt(s, 2) + 256 * ReadLE(s, 3, 0);
    HeaderOverruns(s, c, AtLeastOne(n - 6));
  }

  /** The long header, cut off where the block ends. */
  function LongWitness(n: nat, c: nat): (s: seq<byte>)
    requires 6 <= n < c < TWO_TO_THE_32
    ensures |s| == n
  {
    ([79] + LE(c, 4) + LE(AtLeastOne(n - 12), 4) + Zeros(n))[..n]
  }

  lemma LongOverruns(n: nat, c: nat)
    requires 6 <= n < c < TWO_TO_THE_32 && c >= 17
    ensures CanOverrun(n, c)
  {
    var s, d := LongWitness(n, c), AtLeastOne(n - 12);
    LongFields(n, c);
    HeaderOverruns(s, c, d);
  }

  lemma HeaderParts(a: seq<byte>, b: seq<byte>, z: seq<byte>, n: nat)
    requires |a| == 4 && |b| == 4 && 6 <= n <= |z| && forall k :: 0 <= k < |z| ==> z[k] == 0
    ensures var s := ([79] + a + b + z)[..n];
            && |s| == n && s[0] == 79 && s[1..5] == a && (n >= 9 ==> s[5..9] == b)
            && (forall k :: 5 <= k < n && k < 9 ==> s[k] == b[k - 5]) && (forall k :: 9 <= k < n ==> s[k] == 0)
  {
    var full := [79] + a + b + z;
    assert full[1..5] == a && full[5..9] == b && full[..n][1..5] == full[1..5];
    assert n >= 9 ==> full[..n][5..9] == full[5..9];
  }

  lemma LongFields(n: nat, c: nat)
    requires 6 <= n < c < TWO_TO_THE_32
    ensures var s := LongWitness(n, c);
            && s[0] == 79 && SizeHeader(s) == 9 && SizeCompressed(s) == c && SizeDecompressed(s) == AtLeastOne(n - 12)
            && forall k :: 9 <= k < n ==> s[k] == 0
  {
    hide ReadLE, LE;
    var s, d := LongWitness(n, c), AtLeastOne(n - 12);
    PowerValues();
    HeaderParts(LE(c, 4), LE(d, 4), Zeros(n), n);
    ReadLEOfLE(s, 1, c, 4);
    SmallMod(c, TWO_TO_THE_32);
    if n >= 9 {
      ReadLEOfLE(s, 5, d, 4);
      SmallMod(d, TWO_TO_THE_32);
    } else {
      OneInFour();
      ReadsOne(s, n);
    }
  }

  lemma OneInFour()
    ensures LE(1, 4) == [1, 0, 0, 0]
  {
    assert LE(0, 1) == [0] + LE(0, 0);
    assert LE(0, 2) == [0] + LE(0, 1);
    assert LE(0, 3) == [0] + LE(0, 2);
  }

  lemma ReadsOne(s: seq<byte>, n: nat)
    requires |s| == n && 6 <= n < 9 && s[5] == 1 && forall k :: 6 <= k < n ==> s[k] == 0
    ensures ReadLE(s, 5, 4) == 1
  {
    ReadsZeros(s, 6, 3);
  }

  /** A malformed block makes the decompressor run past its end for exactly these lengths and declared
      sizes; for all others every block is decoded or reported as corrupt. */
  lemma OverrunExactly(n: nat, c: nat)
    ensures CanOverrun(n, c) <==> OverrunSizes(n, c)
  {
    if CanOverrun(n, c) {
      var source: seq<byte> :| |source| == n && SizeCompressed(source) == c && DecodeBlock(source).OutOfRange?;
      OverrunOnlyThen(source);
    }
    hide CanOverrun;
    if n < c && n >= 3 && 11 <= c <= 255 {
      ShortOverruns(n, c);
    } else if n < c && n >= 6 && 17 <= c < TWO_TO_THE_32 {
      LongOverruns(n, c);
    }
  }

  /** Three bytes are enough. */
  lemma ThreeBytesOverrun()
    ensures DecodeBlock([77, 200, 5]) == OutOfRange
  {
    var s: seq<byte> := [77, 200, 5];
    assert ReadLE(s, 1, 1) == ByteAt(s, 1) + 256 * ReadLE(s, 2, 0);
    assert ReadLE(s, 2, 1) == ByteAt(s, 2) + 256 * ReadLE(s, 3, 0);
    HeaderOverruns(s, 200, 5);
  }
}
