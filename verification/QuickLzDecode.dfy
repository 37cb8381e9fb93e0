/** The level-3 decompressor. */
module QuickLzDecode {
  import opened Bytes
  import opened QuickLzFormat

  /** How decompression ends.  `OutOfRange` is the run-time panic of an index past the slice. */
  datatype Outcome = Ok(data: seq<byte>) | Corrupt | OutOfRange

  const BITLUT: seq<nat> := [4, 0, 1, 0, 2, 0, 1, 0, 3, 0, 1, 0, 2, 0, 1, 0]

  /** Zero flags at the bottom of `word`, counted up to `limit`. */
  function ZeroRun(word: nat, limit: nat): (n: nat)
    ensures n <= limit
  {
    if limit == 0 || word % 2 == 1 then 0 else 1 + ZeroRun(word / 2, limit - 1)
  }

  /** The lookup table counts zero flags in the low nibble. */
  lemma BitlutCounts(word: nat)
    ensures word % 2 == 0 ==> BITLUT[word % 16] == ZeroRun(word, 4) && 1 <= BITLUT[word % 16] <= 4
  {
    var a, b, c := word / 2, word / 4, word / 8;
    assert a / 2 == b && b / 2 == c;
    assert word % 16 == word % 2 + 2 * (a % 2) + 4 * (b % 2) + 8 * (c % 2);
    assert ZeroRun(c / 2, 0) == 0;
    assert ZeroRun(c, 1) == if c % 2 == 1 then 0 else 1;
    assert ZeroRun(b, 2) == if b % 2 == 1 then 0 else 1 + ZeroRun(c, 1);
    assert ZeroRun(a, 3) == if a % 2 == 1 then 0 else 1 + ZeroRun(b, 2);
    assert ZeroRun(word, 4) == if word % 2 == 1 then 0 else 1 + ZeroRun(a, 3);
  }

  /** Forward copy of `n` bytes starting at `from`; the source may run into the bytes just
      written. */
  function CopyUp(dst: seq<byte>, from: nat, n: nat): (r: seq<byte>)
    requires from < |dst|
    ensures |r| == |dst| + n && dst <= r
    ensures forall j :: |dst| <= j < |r| ==> r[j] == r[j - (|dst| - from)]
    decreases n
  {
    if n == 0 then dst
    else
      var d := dst + [dst[from]];
      CopyUp(d, from + 1, n - 1)
  }

  /** `n` bytes of `b` from `i`, zero past the end. */
  function PaddedSlice(b: seq<byte>, i: nat, n: nat): (r: seq<byte>)
    ensures |r| == n && forall k :: 0 <= k < n ==> r[k] == ByteAt(b, i + k)
  {
    if n == 0 then [] else PaddedSlice(b, i, n - 1) + [ByteAt(b, i + n - 1)]
  }

  function ShiftRight(word: nat, n: nat): nat {
    if n == 0 then word else ShiftRight(word / 2, n - 1)
  }

  /** The literal tail: control words are skipped, not read. */
  function TailFrom(source: seq<byte>, last: int, dsize: nat, src: nat, cword: nat, dst: seq<byte>): (r: Outcome)
    requires |dst| <= dsize
    ensures r.Ok? ==> |r.data| == dsize
    ensures r.OutOfRange? ==> last >= |source|
    decreases dsize - |dst|
  {
    if |dst| == dsize then Ok(dst)
    else
      var at, word := if cword == 1 then src + CWORD_LEN else src, if cword == 1 then TOP_BIT else cword;
      if at >= last + 1 then Corrupt
      else if at >= |source| then OutOfRange
      else TailFrom(source, last, dsize, at + 1, word / 2, dst + [source[at]])
  }

  /** Decompression from read position `src`, with control word `cword` and output `dst` so far;
      `last` is the last index of the declared compressed size. */
  function DecodeFrom(source: seq<byte>, last: int, dsize: nat, src: nat, cword: nat, dst: seq<byte>): (r: Outcome)
    requires |dst| <= dsize
    ensures r.Ok? ==> |r.data| == dsize
    ensures r.OutOfRange? ==> last >= |source|
    decreases dsize - |dst|, 2
  {
    if cword != 1 then TokenFrom(source, last, dsize, src, cword, dst)
    else if src + CWORD_LEN - 1 > last then Corrupt
    else TokenFrom(source, last, dsize, src + CWORD_LEN, ReadLE(source, src, 4), dst)
  }

  function TokenFrom(source: seq<byte>, last: int, dsize: nat, src: nat, cword: nat, dst: seq<byte>): (r: Outcome)
    requires |dst| <= dsize
    ensures r.Ok? ==> |r.data| == dsize
    ensures r.OutOfRange? ==> last >= |source|
    decreases dsize - |dst|, 1
  {
    if src + 4 - 1 > last then Corrupt
    else if cword % 2 == 1 then
      MatchFrom(source, last, dsize, src, cword, dst, DecodeMatch(ReadLE(source, src, 4)))
    else if |dst| < dsize - 1 - UNCOND_MATCH - UNCOMP_END then
      BitlutCounts(cword);
      var n := BITLUT[cword % 16];
      DecodeFrom(source, last, dsize, src + n, ShiftRight(cword, n), dst + PaddedSlice(source, src, n))
    else TailFrom(source, last, dsize, src, cword, dst)
  }

  function MatchFrom(source: seq<byte>, last: int, dsize: nat, src: nat, cword: nat, dst: seq<byte>,
                     m: MatchFields): (r: Outcome)
    requires |dst| <= dsize && m.len >= 1
    ensures r.Ok? ==> |r.data| == dsize
    ensures r.OutOfRange? ==> last >= |source|
    decreases dsize - |dst|, 0
  {
    var from := |dst| - m.offset;
    if from < 0 || from > |dst| - MIN_OFFSET - 1 then Corrupt
    else if m.len > dsize - 1 - |dst| - UNCOMP_END + 1 then Corrupt
    else DecodeFrom(source, last, dsize, src + m.width, cword / 2, CopyUp(dst, from, m.len))
  }

  function SizeBytes(source: seq<byte>): nat {
    if (ByteAt(source, 0) / 2) % 2 == 1 then 4 else 1
  }

  function SizeHeader(source: seq<byte>): nat {
    if (ByteAt(source, 0) / 2) % 2 == 1 then 9 else 3
  }

  function SizeDecompressed(source: seq<byte>): nat {
    ReadLE(source, 1 + SizeBytes(source), SizeBytes(source))
  }

  function SizeCompressed(source: seq<byte>): nat {
    ReadLE(source, 1, SizeBytes(source))
  }

  function DecodeCore(source: seq<byte>, dsize: nat): Outcome {
    DecodeFrom(source, SizeCompressed(source) - 1, dsize, SizeHeader(source), 1, [])
  }

  /** What a frame decodes to. */
  function DecodeBlock(source: seq<byte>): Outcome {
    if |source| < 3 then Corrupt
    else
      var dsize := SizeDecompressed(source);
      if source[0] % 2 == 0 then
        var h := SizeHeader(source);
        if h + dsize > |source| then Corrupt else Ok(source[h..h + dsize])
      else DecodeCore(source, dsize)
  }

  /** On any input: a block that decodes has exactly its declared size, and the only run-time
      index failure needs a declared compressed size beyond the slice. */
  lemma DecodeBlockSafe(source: seq<byte>)
    ensures DecodeBlock(source).Ok? ==> |DecodeBlock(source).data| == SizeDecompressed(source)
    ensures SizeCompressed(source) <= |source| ==> !DecodeBlock(source).OutOfRange?
  {
    if |source| >= 3 && source[0] % 2 == 1 {
      var r := DecodeFrom(source, SizeCompressed(source) - 1, SizeDecompressed(source), SizeHeader(source), 1, []);
      assert DecodeBlock(source) == r;
    }
  }

  /** A match is taken exactly if it reaches back at least three bytes, not past the start, and leaves the last four
      bytes alone; any other is reported as corrupt. */
  lemma MatchGuards(source: seq<byte>, last: int, dsize: nat, src: nat, cword: nat, dst: seq<byte>, d: seq<byte>)
    requires |dst| <= dsize && cword % 2 == 1 && cword != 1 && src + 3 <= last
    ensures var m := DecodeMatch(ReadLE(source, src, 4));
            var r := DecodeFrom(source, last, dsize, src, cword, dst);
            if 3 <= m.offset <= |dst| && |dst| + m.len + 4 <= dsize then
              |d| == |dst| + m.len && dst <= d && (forall j :: |dst| <= j < |d| ==> d[j] == d[j - m.offset]) ==>
                r == DecodeFrom(source, last, dsize, src + m.width, cword / 2, d)
            else r == Corrupt
  {
    hide ReadLE, DecodeMatch, TailFrom, CopyUp;
    var m := DecodeMatch(ReadLE(source, src, 4));
    var from := |dst| - m.offset;
    assert DecodeFrom(source, last, dsize, src, cword, dst) == TokenFrom(source, last, dsize, src, cword, dst);
    assert TokenFrom(source, last, dsize, src, cword, dst) == MatchFrom(source, last, dsize, src, cword, dst, m);
    if 3 <= m.offset <= |dst| && |d| == |dst| + m.len && dst <= d
       && forall j :: |dst| <= j < |d| ==> d[j] == d[j - m.offset] {
      OneCopy(d, CopyUp(dst, from, m.len), |dst|, m.offset);
    }
  }

  /** There is only one way to go on repeating what stands `offset` bytes back. */
  lemma {:induction false} OneCopy(a: seq<byte>, b: seq<byte>, n: nat, offset: nat)
    requires 1 <= offset <= n <= |a| && |a| == |b| && a[..n] == b[..n]
    requires forall j :: n <= j < |a| ==> a[j] == a[j - offset] && b[j] == b[j - offset]
    ensures a == b
    decreases |a| - n
  {
    if n < |a| {
      assert a[n - offset] == a[..n][n - offset] && b[n - offset] == b[..n][n - offset];
      assert a[..n + 1] == a[..n] + [a[n]] && b[..n + 1] == b[..n] + [b[n]];
      OneCopy(a, b, n + 1, offset);
    } else {
      assert a == a[..n] && b == b[..n];
    }
  }

  method ReadLittleEndian(b: seq<byte>, i: nat, n: nat) returns (v: nat)
    requires 1 <= n <= 4
    ensures v == ReadLE(b, i, n)
    ensures v < Pow256(n)
  {
    hide ReadLE, Pow256;
    v := 0;
    var shift: nat := 1;
    ReadLEStart(b, i);
    for k := 0 to n
      invariant v == ReadLE(b, i, k) && shift == Pow256(k)
    {
      ReadLENext(b, i, k, shift);
      if i + k < |b| {
        v := v + b[i + k] * shift;
      }
      shift := shift * 256;
    }
    ReadLEBound(b, i, n);
  }

  lemma ReadLEStart(b: seq<byte>, i: nat)
    ensures ReadLE(b, i, 0) == 0 && Pow256(0) == 1
  {
  }

  lemma ReadLENext(b: seq<byte>, i: nat, k: nat, shift: nat)
    requires shift == Pow256(k)
    ensures ReadLE(b, i, k + 1) == ReadLE(b, i, k) + (if i + k < |b| then b[i + k] * shift else 0)
    ensures Pow256(k + 1) == shift * 256
  {
    ReadLESplit(b, i, k, 1);
    assert ReadLE(b, i + k, 1) == ByteAt(b, i + k) + 256 * ReadLE(b, i + k + 1, 0);
  }

  /** The copy loop, one byte at a time. */
  method AppendCopy(dst: seq<byte>, from: nat, n: nat) returns (r: seq<byte>)
    requires from < |dst|
    ensures r == CopyUp(dst, from, n)
  {
    r := dst;
    for k := 0 to n
      invariant |r| == |dst| + k && from + k < |r|
      invariant CopyUp(r, from + k, n - k) == CopyUp(dst, from, n)
    {
      r := r + [r[from + k]];
    }
  }

  /** The literal run: four bytes are looked at, `n` are kept. */
  method AppendLiterals(source: seq<byte>, src: nat, n: nat, dst: seq<byte>) returns (r: seq<byte>)
    requires n <= 4
    ensures r == dst + PaddedSlice(source, src, n)
  {
    r := dst;
    for k := 0 to 4
      invariant r == dst + PaddedSlice(source, src, if k < n then k else n)
    {
      var b: byte := 0;
      if src + k < |source| {
        b := source[src + k];
      }
      if k < n {
        assert PaddedSlice(source, src, k + 1) == PaddedSlice(source, src, k) + [b];
        r := r + [b];
      }
    }
  }

  method LiteralTail(source: seq<byte>, last: int, dsize: nat, src0: nat, cword0: nat, dst0: seq<byte>)
    returns (r: Outcome)
    requires |dst0| <= dsize
    ensures r == TailFrom(source, last, dsize, src0, cword0, dst0)
  {
    var src: nat, cword: nat, dst := src0, cword0, dst0;
    while |dst| < dsize
      invariant |dst| <= dsize
      invariant TailFrom(source, last, dsize, src, cword, dst) == TailFrom(source, last, dsize, src0, cword0, dst0)
    {
      if cword == 1 {
        src := src + CWORD_LEN;
        cword := TOP_BIT;
      }
      if src >= last + 1 {
        return Corrupt;
      }
      if src >= |source| {
        return OutOfRange;
      }
      dst := dst + [source[src]];
      src, cword := src + 1, cword / 2;
    }
    return Ok(dst);
  }

  /** The two guards on a match, then its copy. */
  method CopyMatch(source: seq<byte>, last: int, dsize: nat, src: nat, cword: nat, dst: seq<byte>, m: MatchFields)
    returns (r: Outcome)
    requires |dst| <= dsize && m.len >= 1
    ensures !r.OutOfRange?
    ensures r.Corrupt? ==> MatchFrom(source, last, dsize, src, cword, dst, m) == Corrupt
    ensures r.Ok? ==> |dst| < |r.data| <= dsize
    ensures r.Ok? ==>
              var rest := DecodeFrom(source, last, dsize, src + m.width, cword / 2, r.data);
              MatchFrom(source, last, dsize, src, cword, dst, m) == rest
  {
    var from := |dst| - m.offset;
    if from < 0 || from > |dst| - MIN_OFFSET - 1 {
      return Corrupt;
    }
    if m.len > dsize - 1 - |dst| - UNCOMP_END + 1 {
      return Corrupt;
    }
    var copied := AppendCopy(dst, from, m.len);
    return Ok(copied);
  }

  /** One turn of the loop after the control word is in hand; `more` means go round again. */
  method DecodeToken(source: seq<byte>, last: int, dsize: nat, src: nat, cword: nat, dst: seq<byte>)
    returns (more: bool, r: Outcome, src': nat, cword': nat, dst': seq<byte>)
    requires |dst| <= dsize
    ensures !more ==> r == TokenFrom(source, last, dsize, src, cword, dst)
    ensures |dst'| <= dsize && (more ==> |dst| < |dst'|)
    ensures more ==>
              TokenFrom(source, last, dsize, src, cword, dst) == DecodeFrom(source, last, dsize, src', cword', dst')
  {
    more, r, src', cword', dst' := false, Corrupt, src, cword, dst;
    if src + 4 - 1 > last {
      return;
    }
    var fetch := ReadLittleEndian(source, src, 4);
    if cword % 2 == 1 {
      var m := DecodeMatch(fetch);
      r := CopyMatch(source, last, dsize, src, cword, dst, m);
      if r.Ok? {
        more, src', cword', dst' := true, src + m.width, cword / 2, r.data;
      }
    } else if |dst| < dsize - 1 - UNCOND_MATCH - UNCOMP_END {
      BitlutCounts(cword);
      var n := BITLUT[cword % 16];
      dst' := AppendLiterals(source, src, n, dst);
      more, src', cword' := true, src + n, ShiftRight(cword, n);
    } else {
      r := LiteralTail(source, last, dsize, src, cword, dst);
    }
  }

  method DecompressCore(source: seq<byte>, dsize: nat) returns (r: Outcome)
    ensures r == DecodeCore(source, dsize)
  {
    var src: nat := SizeHeader(source);
    var last: int := SizeCompressed(source) - 1;
    var dst: seq<byte> := [];
    var cword: nat := 1;
    var more := true;
    r := Corrupt;
    ghost var goal := DecodeCore(source, dsize);
    while more
      invariant |dst| <= dsize
      invariant more ==> goal == DecodeFrom(source, last, dsize, src, cword, dst)
      invariant !more ==> r == goal
      decreases more, dsize - |dst|
    {
      if cword == 1 {
        if src + CWORD_LEN - 1 > last {
          return Corrupt;
        }
        cword := ReadLittleEndian(source, src, 4);
        src := src + CWORD_LEN;
      }
      more, r, src, cword, dst := DecodeToken(source, last, dsize, src, cword, dst);
    }
  }

  method DecompressBlock(source: seq<byte>) returns (r: Outcome)
    ensures r == DecodeBlock(source)
  {
    if |source| < 3 {
      return Corrupt;
    }
    var dsize := SizeDecompressed(source);
    if source[0] % 2 == 0 {
      var h := SizeHeader(source);
      if h + dsize > |source| {
        return Corrupt;
      }
      return Ok(source[h..h + dsize]);
    }
    r := DecompressCore(source, dsize);
  }
}
