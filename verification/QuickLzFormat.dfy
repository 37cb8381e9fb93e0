/** The wire format of a QuickLZ level-3 block: what a block means, independently of how the
    compressor finds its matches.

    A block is a list of tokens, in groups of 31.  Each group is a 4-byte control word, one flag
    bit per token below a sentinel in bit 31, followed by the tokens' bytes. */
module QuickLzFormat {
  import opened Bytes

  const HASH_VALUES: nat := 4096
  const POINTERS: nat := 16
  const MIN_OFFSET: nat := 2
  const UNCOND_MATCH: nat := 6
  const UNCOMP_END: nat := 4
  const CWORD_LEN: nat := 4
  const LEVEL: nat := 3

  /** `1 << 31`. */
  const TOP_BIT: nat := 0x8000_0000

  /** A literal byte, or a copy of `len` bytes that start `offset` bytes back. */
  datatype Token = Lit(b: byte) | Match(offset: nat, len: nat)

  /** How many bytes of the block a token stands for. */
  function Span(t: Token): nat {
    if t.Lit? then 1 else t.len
  }

  /** Token `t` describes `data` at `pos`, and the decoder's guards admit it: matches reach back
      at least 3 bytes, start before the last 10 bytes and leave the last 4 alone. */
  ghost predicate TokenFits(t: Token, data: seq<byte>, pos: nat) {
    match t
    case Lit(b) => pos < |data| && b == data[pos]
    case Match(offset, len) =>
      && 3 <= offset < 131071 && offset <= pos
      && 3 <= len <= 255
      && pos + UNCOND_MATCH + UNCOMP_END < |data|
      && pos + len + UNCOMP_END <= |data|
      && forall j :: pos <= j < pos + len ==> data[j] == data[j - offset]
  }

  /** The tokens `ts` describe `data[from..to]`, in order and without gaps. */
  ghost predicate Fits(ts: seq<Token>, data: seq<byte>, from: nat, to: nat)
    decreases |ts|
  {
    if ts == [] then from == to <= |data|
    else TokenFits(ts[0], data, from) && Fits(ts[1..], data, from + Span(ts[0]), to)
  }

  lemma {:induction false} FitsAppend(ts: seq<Token>, t: Token, data: seq<byte>, from: nat, to: nat)
    requires Fits(ts, data, from, to) && TokenFits(t, data, to)
    ensures Fits(ts + [t], data, from, to + Span(t))
    decreases |ts|
  {
    if ts == [] {
      assert ts + [t] == [t];
      assert Fits([t][1..], data, from + Span(t), to + Span(t));
    } else {
      assert (ts + [t])[1..] == ts[1..] + [t];
      FitsAppend(ts[1..], t, data, from + Span(ts[0]), to);
    }
  }

  // ----- One token on the wire -----

  function Width(offset: nat, len: nat): nat {
    if len == 3 && offset <= 63 then 1
    else if len == 3 && offset <= 16383 then 2
    else if len <= 18 && offset <= 1023 then 2
    else if len <= 33 then 3
    else 4
  }

  /** The five match formats. */
  function MatchWord(offset: nat, len: nat): nat
    requires 3 <= len
  {
    if len == 3 && offset <= 63 then offset * 4
    else if len == 3 && offset <= 16383 then offset * 4 + 1
    else if len <= 18 && offset <= 1023 then (len - 3) * 4 + offset * 64 + 2
    else if len <= 33 then (len - 2) * 4 + offset * 128 + 3
    else (len - 3) * 128 + offset * 32768 + 3
  }

  function TokenBytes(t: Token): seq<byte>
    requires t.Match? ==> 3 <= t.len
  {
    match t
    case Lit(b) => [b]
    case Match(offset, len) => LE(MatchWord(offset, len), Width(offset, len))
  }

  datatype MatchFields = MatchFields(offset: nat, len: nat, width: nat)

  /** What the decoder takes a match to be from the next four bytes. */
  function DecodeMatch(fetch: nat): (m: MatchFields)
    ensures m.len >= 2 && 1 <= m.width <= 4
  {
    if fetch % 4 == 0 then MatchFields((fetch % 256) / 4, 3, 1)
    else if (fetch / 2) % 2 == 0 then MatchFields((fetch % 65536) / 4, 3, 2)
    else if fetch % 2 == 0 then MatchFields((fetch % 65536) / 64, (fetch / 4) % 16 + 3, 2)
    else if fetch % 128 != 3 then MatchFields((fetch / 128) % 131072, (fetch / 4) % 32 + 2, 3)
    else MatchFields(fetch / 32768, (fetch / 128) % 256 + 3, 4)
  }

  lemma LowBits(f: nat, q: nat, r: nat)
    requires f == 4 * q + r && r < 4
    ensures f % 4 == r && f / 4 == q && f / 2 == 2 * q + r / 2 && (f / 2) % 2 == r / 2 && f % 2 == r % 2
  {
  }

  lemma ShortFormat(offset: nat, f: nat, rest: nat)
    requires offset <= 63 && f == offset * 4 + 256 * rest
    ensures DecodeMatch(f) == MatchFields(offset, 3, 1)
  {
    LowBits(f, offset + 64 * rest, 0);
    assert f % 256 == offset * 4;
  }

  lemma FarThreeFormat(offset: nat, f: nat, rest: nat)
    requires offset <= 16383 && f == offset * 4 + 1 + 65536 * rest
    ensures DecodeMatch(f) == MatchFields(offset, 3, 2)
  {
    LowBits(f, offset + 16384 * rest, 1);
    assert f % 65536 == offset * 4 + 1;
  }

  lemma NearFormat(offset: nat, len: nat, f: nat, rest: nat)
    requires offset <= 1023 && 3 <= len <= 18 && f == (len - 3) * 4 + offset * 64 + 2 + 65536 * rest
    ensures DecodeMatch(f) == MatchFields(offset, len, 2)
  {
    var w := 64 * offset + (4 * (len - 3) + 2);
    assert f % 65536 == w;
    assert w / 64 == offset;
    var q := len - 3 + 16 * (offset + 1024 * rest);
    LowBits(f, q, 2);
    assert q % 16 == len - 3;
  }

  lemma FarFormat(offset: nat, len: nat, f: nat, rest: nat)
    requires offset < 131072 && 3 <= len <= 33 && f == (len - 2) * 4 + offset * 128 + 3 + 16777216 * rest
    ensures DecodeMatch(f) == MatchFields(offset, len, 3)
  {
    hide DecodeMatch;
    var q := offset + 131072 * rest;
    assert f == q * 128 + (4 * (len - 2) + 3);
    ModUnique(f, 128, q, 4 * (len - 2) + 3);
    LowBits(f, len - 2 + 32 * q, 3);
    ModUnique(len - 2 + 32 * q, 32, q, len - 2);
    ModUnique(q, 131072, rest, offset);
    FarFields(f);
  }

  lemma FarFields(f: nat)
    requires f % 4 == 3 && f % 128 != 3
    ensures DecodeMatch(f) == MatchFields((f / 128) % 131072, (f / 4) % 32 + 2, 3)
  {
    LowBits(f, f / 4, 3);
  }

  lemma LongFormat(offset: nat, len: nat, f: nat)
    requires 3 <= len <= 258 && f == (len - 3) * 128 + offset * 32768 + 3
    ensures DecodeMatch(f) == MatchFields(offset, len, 4)
  {
    var q := len - 3 + 256 * offset;
    assert f == 128 * q + 3;
    assert f / 128 == q && f % 128 == 3;
    LowBits(f, 32 * q, 3);
    assert q % 256 == len - 3;
    assert f / 32768 == offset by {
      assert f == 32768 * offset + ((len - 3) * 128 + 3);
    }
  }

  lemma MatchWordFits(offset: nat, len: nat)
    requires offset < 131071 && 3 <= len <= 255
    ensures MatchWord(offset, len) < Pow256(Width(offset, len))
  {
    assert Pow256(4) == 256 * Pow256(3) && Pow256(3) == 256 * Pow256(2) && Pow256(2) == 256 * Pow256(1) == 65536;
  }

  /** The five formats decode unambiguously: whatever follows a match's bytes, the decoder reads
      back its offset, its length and its width. */
  lemma MatchDecodes(offset: nat, len: nat, b: seq<byte>, i: nat)
    requires offset < 131071 && 3 <= len <= 255
    requires var w := Width(offset, len);
             i + w <= |b| && b[i..i + w] == LE(MatchWord(offset, len), w)
    ensures DecodeMatch(ReadLE(b, i, 4)) == MatchFields(offset, len, Width(offset, len))
  {
    var w := Width(offset, len);
    var rest := ReadLE(b, i + w, 4 - w);
    assert ReadLE(b, i, 4) == MatchWord(offset, len) + Pow256(w) * rest by {
      ReadLEOfLE(b, i, MatchWord(offset, len), w);
      MatchWordFits(offset, len);
      ReadLESplit(b, i, w, 4 - w);
      SmallMod(MatchWord(offset, len), Pow256(w));
    }
    WordDecodes(offset, len, ReadLE(b, i, 4), rest);
  }

  lemma SmallMod(x: nat, p: nat)
    requires x < p
    ensures x % p == x
  {
    ModUnique(x, p, 0, x);
  }

  lemma WordDecodes(offset: nat, len: nat, f: nat, rest: nat)
    requires offset < 131071 && 3 <= len <= 255
    requires f == MatchWord(offset, len) + Pow256(Width(offset, len)) * rest
    requires Width(offset, len) == 4 ==> rest == 0
    ensures DecodeMatch(f) == MatchFields(offset, len, Width(offset, len))
  {
    PowerValues();
    if len == 3 && offset <= 63 {
      ShortFormat(offset, f, rest);
    } else if len == 3 && offset <= 16383 {
      FarThreeFormat(offset, f, rest);
    } else if len <= 18 && offset <= 1023 {
      NearFormat(offset, len, f, rest);
    } else if len <= 33 {
      FarFormat(offset, len, f, rest);
    } else {
      LongFormat(offset, len, f);
    }
  }

  lemma PowerValues()
    ensures Pow256(1) == 256 && Pow256(2) == 65536 && Pow256(3) == 16777216 && Pow256(4) == TWO_TO_THE_32
  {
    assert Pow256(2) == 256 * Pow256(1);
    assert Pow256(3) == 256 * Pow256(2);
    assert Pow256(4) == 256 * Pow256(3);
  }

  // ----- Control words -----

  function Flag(t: Token): nat { if t.Match? then 1 else 0 }

  /** The flags of `ts` as a number, the first token in bit 0. */
  function FlagValue(ts: seq<Token>): nat {
    if ts == [] then 0 else Flag(ts[0]) + 2 * FlagValue(ts[1..])
  }

  /** The flags of `ts`, then `pad` zero flags, then a set sentinel bit. */
  function WordOf(ts: seq<Token>, pad: nat): nat {
    FlagValue(ts) + Pow2(|ts| + pad)
  }

  function Shl(x: nat, n: nat): nat {
    if n == 0 then x else 2 * Shl(x, n - 1)
  }

  lemma {:induction false} ShlAdd(x: nat, y: nat, n: nat)
    ensures Shl(x + y, n) == Shl(x, n) + Shl(y, n)
  {
    if n == 0 {
    } else {
      ShlAdd(x, y, n - 1);
    }
  }

  lemma {:induction false} ShlPow2(k: nat, n: nat)
    ensures Shl(Pow2(k), n) == Pow2(k + n)
  {
    if n == 0 {
    } else {
      ShlPow2(k, n - 1);
    }
  }

  /** The encoder's running word after the tokens `ts`: its sentinel sits below the flags. */
  ghost predicate RunningWord(v: nat, ts: seq<Token>) {
    |ts| <= 31 && v == Shl(2 * FlagValue(ts) + 1, 31 - |ts|)
  }

  /** The weight of `t`'s flag when it is flag number `k`. */
  function FlagAt(t: Token, k: nat): nat { if t.Match? then Pow2(k) else 0 }

  lemma {:induction false} FlagValueAppend(ts: seq<Token>, t: Token)
    ensures FlagValue(ts + [t]) == FlagValue(ts) + FlagAt(t, |ts|)
    ensures FlagValue(ts) < Pow2(|ts|)
  {
    if ts == [] {
      assert ts + [t] == [t];
    } else {
      assert (ts + [t])[1..] == ts[1..] + [t];
      FlagValueAppend(ts[1..], t);
    }
  }

  /** Bit 0 of the running word is the sentinel exactly when 31 flags are in. */
  lemma RunningWordFull(v: nat, ts: seq<Token>)
    requires RunningWord(v, ts)
    ensures v % 2 == 1 <==> |ts| == 31
  {
    ShlParity(FlagValue(ts), 31 - |ts|);
  }

  lemma ShlParity(f: nat, n: nat)
    ensures Shl(2 * f + 1, n) % 2 == if n == 0 then 1 else 0
    ensures n > 0 ==> Shl(2 * f + 1, n) / 2 == Shl(2 * f + 1, n - 1)
  {
    if n > 0 {
      var h := Shl(2 * f + 1, n - 1);
      assert Shl(2 * f + 1, n) == 2 * h;
    }
  }

  /** Shifting in one flag from the top, as both branches of the encoder do. */
  lemma RunningWordStep(v: nat, ts: seq<Token>, t: Token)
    requires RunningWord(v, ts) && |ts| < 31
    ensures RunningWord(v / 2 + (if t.Match? then TOP_BIT else 0), ts + [t])
  {
    var f, k := FlagValue(ts), |ts|;
    ShlParity(f, 31 - k);
    FlagValueAppend(ts, t);
    assert |ts + [t]| == k + 1;
    if t.Match? {
      SentinelAbove(f, k);
      assert FlagValue(ts + [t]) == f + Pow2(k);
    } else {
      assert FlagValue(ts + [t]) == f;
    }
  }

  lemma SentinelAbove(f: nat, k: nat)
    requires k < 31
    ensures Shl(2 * f + 1, 30 - k) + TOP_BIT == Shl(2 * (f + Pow2(k)) + 1, 30 - k)
  {
    var x, y := 2 * f + 1, Pow2(k + 1);
    assert 2 * (f + Pow2(k)) + 1 == x + y;
    ShlAdd(x, y, 30 - k);
    ShlPow2(k + 1, 30 - k);
    Pow2Monotone(31, 31);
  }

  /** With the sentinel shifted down to bit 0, one more shift leaves the flags below bit 31. */
  lemma RunningWordDone(ts: seq<Token>)
    requires |ts| <= 31
    ensures FlagValue(ts) + TOP_BIT == WordOf(ts, 31 - |ts|) < TWO_TO_THE_32
  {
    FlagValueAppend(ts, Lit(0));
    Pow2Monotone(|ts|, 31);
  }

  lemma {:induction false} Pow2Monotone(a: nat, b: nat)
    requires a <= b
    ensures Pow2(a) <= Pow2(b)
    ensures Pow2(31) == TOP_BIT
    decreases b - a
  {
    assert Pow2(8) == 256;
    Pow2Add(8, 8);
    Pow2Add(16, 8);
    Pow2Add(24, 7);
    assert Pow2(7) == 128;
    if a < b {
      Pow2Monotone(a + 1, b);
    }
  }

  /** The decoder's view: the low bit is the next token's flag, and a shift drops it. */
  lemma WordOfNext(ts: seq<Token>, pad: nat)
    ensures ts != [] ==> WordOf(ts, pad) % 2 == Flag(ts[0]) && WordOf(ts, pad) / 2 == WordOf(ts[1..], pad)
    ensures ts == [] && pad > 0 ==> WordOf(ts, pad) % 2 == 0 && WordOf(ts, pad) / 2 == WordOf(ts, pad - 1)
    ensures WordOf(ts, pad) == 1 <==> ts == [] && pad == 0
  {
    if ts != [] {
      var n := |ts| - 1 + pad;
      assert Pow2(n + 1) == 2 * Pow2(n);
      assert WordOf(ts, pad) == Flag(ts[0]) + 2 * WordOf(ts[1..], pad);
    } else if pad > 0 {
      assert Pow2(pad) == 2 * Pow2(pad - 1);
    }
  }

  // ----- The block -----

  /** Every match in `ts` has a length the formats can carry. */
  ghost predicate Codable(ts: seq<Token>) {
    forall i :: 0 <= i < |ts| && ts[i].Match? ==> 3 <= ts[i].len
  }

  lemma {:induction false} FitsIsCodable(ts: seq<Token>, data: seq<byte>, from: nat, to: nat)
    requires Fits(ts, data, from, to)
    ensures Codable(ts) && from <= to <= |data| && |ts| <= to - from
    decreases |ts|
  {
    if ts == [] {
    } else {
      FitsIsCodable(ts[1..], data, from + Span(ts[0]), to);
      assert forall i :: 0 <= i < |ts| ==> ts[i] == if i == 0 then ts[0] else ts[1..][i - 1];
    }
  }

  ghost function Payload(ts: seq<Token>): seq<byte>
    requires Codable(ts)
    decreases |ts|
  {
    if ts == [] then [] else TokenBytes(ts[0]) + Payload(ts[1..])
  }

  lemma {:induction false} PayloadAppend(ts: seq<Token>, t: Token)
    requires Codable(ts + [t])
    ensures Codable(ts) && (t.Match? ==> 3 <= t.len)
    ensures Payload(ts + [t]) == Payload(ts) + TokenBytes(t)
    decreases |ts|
  {
    hide TokenBytes;
    assert (ts + [t])[|ts|] == t;
    assert forall i :: 0 <= i < |ts| ==> ts[i] == (ts + [t])[i];
    if ts == [] {
      assert ts + [t] == [t];
      assert Payload([t]) == TokenBytes(t) + Payload([t][1..]);
    } else {
      assert (ts + [t])[1..] == ts[1..] + [t];
      PayloadAppend(ts[1..], t);
    }
  }

  function Flatten(groups: seq<seq<Token>>): seq<Token> {
    if groups == [] then [] else groups[0] + Flatten(groups[1..])
  }

  /** Tokens in groups of 31, the last one possibly shorter but not empty. */
  ghost predicate Grouped(groups: seq<seq<Token>>) {
    && (forall i :: 0 <= i < |groups| ==> Codable(groups[i]) && 1 <= |groups[i]| <= 31)
    && (forall i :: 0 <= i < |groups| - 1 ==> |groups[i]| == 31)
  }

  ghost predicate FullGroups(groups: seq<seq<Token>>) {
    forall i :: 0 <= i < |groups| ==> Codable(groups[i]) && |groups[i]| == 31
  }

  ghost function GroupBytes(g: seq<Token>): seq<byte>
    requires Codable(g) && |g| <= 31
  {
    LE(WordOf(g, 31 - |g|), CWORD_LEN) + Payload(g)
  }

  ghost function Layout(groups: seq<seq<Token>>): seq<byte>
    requires Grouped(groups)
    decreases |groups|
  {
    if groups == [] then [] else GroupBytes(groups[0]) + Layout(groups[1..])
  }

  lemma {:induction false} LayoutAppend(groups: seq<seq<Token>>, g: seq<Token>)
    requires FullGroups(groups) && Codable(g) && 1 <= |g| <= 31
    ensures Grouped(groups) && Grouped(groups + [g])
    ensures Layout(groups + [g]) == Layout(groups) + GroupBytes(g)
    ensures Flatten(groups + [g]) == Flatten(groups) + g
    decreases |groups|
  {
    hide GroupBytes, Codable;
    var all := groups + [g];
    assert forall i :: 0 <= i < |all| ==> all[i] == if i < |groups| then groups[i] else g;
    if groups == [] {
      assert all == [g] && all[1..] == [];
      assert GroupBytes(g) + [] == GroupBytes(g);
    } else {
      assert all[1..] == groups[1..] + [g];
      LayoutAppend(groups[1..], g);
      LayoutCons(all);
    }
  }

  lemma LayoutCons(groups: seq<seq<Token>>)
    requires Grouped(groups) && groups != []
    ensures Grouped(groups[1..]) && Layout(groups) == GroupBytes(groups[0]) + Layout(groups[1..])
  {
  }

  lemma Regroup(a: seq<byte>, b: seq<byte>, c: seq<byte>)
    ensures (a + b) + c == a + (b + c)
  {
  }

  function PadTo9(b: seq<byte>): (r: seq<byte>)
    ensures |r| == if |b| < 9 then 9 else |b|
    ensures b <= r && forall k :: |b| <= k < |r| ==> r[k] == 0
    decreases 9 - |b|
  {
    if |b| < 9 then PadTo9(b + [0]) else b
  }

  /** `groups` is a coding of all of `data`. */
  ghost predicate Codes(groups: seq<seq<Token>>, data: seq<byte>) {
    Grouped(groups) && Fits(Flatten(groups), data, 0, |data|)
  }

  /** `body` is a compressed body for `data`: some grouped tokens that describe it, laid out and
      padded to 9 bytes. */
  ghost predicate IsBody(body: seq<byte>, data: seq<byte>) {
    exists groups :: Codes(groups, data) && body == PadTo9(Layout(groups))
  }

  // ----- The header -----

  function HeaderSize(size: nat): nat { if size < 216 then 3 else 9 }

  /** The header for a block of `size` bytes whose frame is `total` bytes long.  Lengths are
      truncated to the field's width, as in the source. */
  function Header(compressed: bool, total: nat, size: nat): (h: seq<byte>)
    ensures |h| == HeaderSize(size)
  {
    var flags := (if compressed then 1 else 0) + LEVEL * 4 + 64;
    if size < 216 then [flags, total % 256, size % 256]
    else [flags + 2] + LE(total % TWO_TO_THE_32, 4) + LE(size % TWO_TO_THE_32, 4)
  }

  /** The number with these digits, the first the least. */
  function Base256(a: int, b: int, c: int, d: int): int {
    a + 256 * (b + 256 * (c + 256 * d))
  }

  /** The first header byte has, from the top, the bits 01, two clear ones, the level, which is 3, and the flags
      for the long header and for compression; the lengths are little-endian. */
  lemma HeaderFields(compressed: bool, total: nat, size: nat)
    ensures var h := Header(compressed, total, size);
            && h[0] / 64 == 1 && h[0] / 16 % 4 == 0 && h[0] / 4 % 4 == 3
            && h[0] / 2 % 2 == (if size >= 216 then 1 else 0) && h[0] % 2 == (if compressed then 1 else 0)
            && (size < 216 ==> |h| == 3 && h[1] == total % 256 && h[2] == size)
            && (size >= 216 ==>
                  && |h| == 9
                  && Base256(h[1], h[2], h[3], h[4]) == total % TWO_TO_THE_32
                  && Base256(h[5], h[6], h[7], h[8]) == size % TWO_TO_THE_32)
  {
    hide LE;
    if size >= 216 {
      FourDigits(total % TWO_TO_THE_32);
      FourDigits(size % TWO_TO_THE_32);
    }
  }

  lemma FourDigits(n: nat)
    requires n < TWO_TO_THE_32
    ensures var b := LE(n, 4); Base256(b[0], b[1], b[2], b[3]) == n
  {
    assert LE(n, 4) == [n % 256] + LE(n / 256, 3);
    assert LE(n / 256, 3) == [n / 256 % 256] + LE(n / 256 / 256, 2);
    assert LE(n / 256 / 256, 2) == [n / 256 / 256 % 256] + LE(n / 256 / 256 / 256, 1);
    assert LE(n / 256 / 256 / 256, 1) == [n / 256 / 256 / 256 % 256];
  }

  /** `frame` is `data` stored as it is. */
  ghost predicate IsStoredFrame(frame: seq<byte>, data: seq<byte>) {
    frame == Header(false, HeaderSize(|data|) + |data|, |data|) + data
  }

  /** `frame` is `data` compressed to a body. */
  ghost predicate IsCompressedFrame(frame: seq<byte>, data: seq<byte>) {
    exists body :: IsBody(body, data) && frame == Header(true, HeaderSize(|data|) + |body|, |data|) + body
  }

  // ----- Sizes -----

  /** A token never takes more bytes than it stands for. */
  lemma {:induction false} PayloadSize(ts: seq<Token>, data: seq<byte>, from: nat, to: nat)
    requires Fits(ts, data, from, to)
    ensures Codable(ts) && from <= to <= |data|
    ensures |Payload(ts)| <= to - from && |ts| <= to - from
    decreases |ts|
  {
    FitsIsCodable(ts, data, from, to);
    if ts == [] {
    } else {
      PayloadSize(ts[1..], data, from + Span(ts[0]), to);
    }
  }

  lemma {:induction false} FitsSplit(a: seq<Token>, b: seq<Token>, data: seq<byte>, from: nat, to: nat)
    returns (mid: nat)
    requires Fits(a + b, data, from, to)
    ensures from <= mid <= to && Fits(a, data, from, mid) && Fits(b, data, mid, to)
    decreases |a|
  {
    FitsIsCodable(a + b, data, from, to);
    if a == [] {
      assert a + b == b;
      mid := from;
    } else {
      assert (a + b)[1..] == a[1..] + b;
      mid := FitsSplit(a[1..], b, data, from + Span(a[0]), to);
    }
  }

  lemma {:induction false} LayoutSize(groups: seq<seq<Token>>, data: seq<byte>, from: nat, to: nat)
    requires Grouped(groups) && Fits(Flatten(groups), data, from, to)
    ensures from <= to && |Layout(groups)| <= (to - from) + 4 * |groups|
    ensures |groups| <= (to - from + 30) / 31
    decreases |groups|
  {
    FitsIsCodable(Flatten(groups), data, from, to);
    if groups == [] {
    } else {
      var mid := FitsSplit(groups[0], Flatten(groups[1..]), data, from, to);
      PayloadSize(groups[0], data, from, mid);
      if |groups| == 1 {
        assert groups[1..] == [];
      } else {
        assert |groups[0]| == 31;
      }
      LayoutSize(groups[1..], data, mid, to);
    }
  }

  /** A compressed body is at most `size + 4 * ceil(size / 31)` bytes, or 9. */
  lemma BodySize(body: seq<byte>, data: seq<byte>)
    requires IsBody(body, data)
    ensures |body| >= 9
    ensures |body| <= 9 || |body| <= |data| + 4 * ((|data| + 30) / 31)
  {
    var groups :| Codes(groups, data) && body == PadTo9(Layout(groups));
    LayoutSize(groups, data, 0, |data|);
  }

  /** Below 216 bytes the one-byte length fields hold the frame length and the block length
      exactly. */
  lemma ShortHeaderExact(body: seq<byte>, data: seq<byte>)
    requires |data| < 216
    requires IsBody(body, data) || body == data
    ensures (HeaderSize(|data|) + |body|) % 256 == HeaderSize(|data|) + |body|
    ensures |data| % 256 == |data|
  {
    if IsBody(body, data) {
      BodySize(body, data);
    }
  }
}
