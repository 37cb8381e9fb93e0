/** The compressor's search without its hash table: which token belongs at a position, as a matter of
    the data alone. */
module QuickLzSearch {
  import opened Bytes
  import opened QuickLzFormat

  // ----- Hashing -----

  function Mix(high: bv32, v: bv32): (h: bv32)
    ensures h <= 4095
  {
    (high ^ v) & 4095
  }

  function HashBits(v: bv32): (h: bv32)
    ensures h <= 4095
  {
    Mix(v >> 12, v)
  }

  function HashFunc(i: nat): (h: nat)
    requires i < TWO_TO_THE_32
    ensures h < HASH_VALUES
  {
    HashBits(i as bv32) as bv12 as nat
  }

  lemma MixCancels(high: bv32, v: bv32, w: bv32)
    requires Mix(high, v) == Mix(high, w)
    ensures v & 4095 == w & 4095
  {
  }

  lemma SameLowHalf(v: bv32, w: bv32)
    requires v < 0x100_0000 && w < 0x100_0000 && HashBits(v) == HashBits(w) && v & 4095 == w & 4095
    ensures v == w
  {
  }

  lemma SameHighHalf(v: bv32, w: bv32)
    requires HashBits(v) == HashBits(w) && v >> 12 == w >> 12
    ensures v & 4095 == w & 4095
  {
    hide Mix;
    MixCancels(v >> 12, v, w);
  }

  lemma BitsSpread(v: bv32, w: bv32)
    requires v < 0x100_0000 && w < 0x100_0000 && HashBits(v) == HashBits(w)
    requires v >> 12 == w >> 12 || v & 4095 == w & 4095
    ensures v == w
  {
    hide HashBits;
    if v >> 12 == w >> 12 {
      SameHighHalf(v, w);
    }
    SameLowHalf(v, w);
  }

  lemma HashOfBits(v: bv32)
    ensures HashFunc(v as nat) == HashBits(v) as bv12 as nat
  {
    hide HashBits;
  }

  lemma Narrow(x: bv32)
    requires x <= 4095
    ensures x as bv12 as bv32 == x
  {
  }

  lemma SameNumber(x: bv12, y: bv12)
    requires x as nat == y as nat
    ensures x == y
  {
    assert (x as nat) as bv12 == x;
  }

  lemma EqualHalves(v: bv32)
    requires v >> 12 == v & 4095
    ensures HashBits(v) == 0
  {
  }

  /** A word of two equal halves hashes to 0. */
  lemma HashOfEqualHalves(v: bv32)
    requires v < 0x100_0000 && v >> 12 == v & 4095
    ensures HashFunc(v as nat) == 0
  {
    hide HashBits, HashFunc;
    EqualHalves(v);
    HashOfBits(v);
  }

  /** Words that share a half never share a hash. */
  lemma HashSpreads(v: bv32, w: bv32)
    requires v < 0x100_0000 && w < 0x100_0000 && HashFunc(v as nat) == HashFunc(w as nat)
    requires v >> 12 == w >> 12 || v & 4095 == w & 4095
    ensures v == w
  {
    hide HashBits, HashFunc;
    HashOfBits(v);
    HashOfBits(w);
    SameNumber(HashBits(v) as bv12, HashBits(w) as bv12);
    Narrow(HashBits(v));
    Narrow(HashBits(w));
    BitsSpread(v, w);
  }

  function Read3(b: seq<byte>, i: nat): (v: nat)
    ensures v < 0x100_0000
  {
    ReadLEBound(b, i, 3);
    PowerValues();
    ReadLE(b, i, 3)
  }

  /** Equal three-byte reads mean equal bytes, and the other way round. */
  lemma Read3Injective(b: seq<byte>, i: nat, j: nat)
    ensures Read3(b, i) == Read3(b, j)
       <==> ByteAt(b, i) == ByteAt(b, j) && ByteAt(b, i + 1) == ByteAt(b, j + 1) && ByteAt(b, i + 2) == ByteAt(b, j + 2)
  {
    hide Read3;
    Read3Sum(b, i);
    Read3Sum(b, j);
    ThreeDigits(ByteAt(b, i), ByteAt(b, i + 1), ByteAt(b, i + 2), ByteAt(b, j), ByteAt(b, j + 1), ByteAt(b, j + 2));
  }

  lemma ThreeDigits(a: byte, b: byte, c: byte, x: byte, y: byte, z: byte)
    ensures a + 256 * (b + 256 * c) == x + 256 * (y + 256 * z) <==> a == x && b == y && c == z
  {
  }

  lemma Read3Sum(b: seq<byte>, i: nat)
    ensures Read3(b, i) == ByteAt(b, i) + 256 * (ByteAt(b, i + 1) + 256 * ByteAt(b, i + 2))
  {
    assert ReadLE(b, i + 2, 1) == ByteAt(b, i + 2) + 256 * ReadLE(b, i + 3, 0);
    assert ReadLE(b, i + 1, 2) == ByteAt(b, i + 1) + 256 * ReadLE(b, i + 2, 1);
  }

  function HashAt(data: seq<byte>, i: nat): (h: nat)
    ensures h < HASH_VALUES
  {
    HashFunc(Read3(data, i))
  }

  // ----- Runs and candidates -----

  /** How far, from `m` up to `cap`, the bytes at `o` agree with those at `src`. */
  function MatchRun(data: seq<byte>, o: nat, src: nat, m: nat, cap: nat): (r: nat)
    requires m <= cap
    ensures m <= r <= cap
    ensures forall k: nat :: src + m <= k < src + r ==> ByteAt(data, k) == ByteAt(data, o + (k - src))
    ensures r < cap ==> ByteAt(data, o + r) != ByteAt(data, src + r)
    decreases cap - m
  {
    if m < cap && ByteAt(data, o + m) == ByteAt(data, src + m) then MatchRun(data, o, src, m + 1, cap) else m
  }

  /** A position the compressor accepts: far enough back, and three bytes agree. */
  predicate Candidate(data: seq<byte>, o: nat, src: nat) {
    o + MIN_OFFSET < src && Read3(data, o) == Read3(data, src)
  }

  /** The bytes from `o` repeat at `src` for `len` bytes. */
  ghost predicate Repeats(data: seq<byte>, o: nat, src: nat, len: nat) {
    o < src && src + len <= |data| && forall j :: src <= j < src + len ==> data[j] == data[j - (src - o)]
  }

  /** The last position at which the main loop still looks for a match, or a negative number. */
  function LastMatchStart(size: nat): int {
    size - 1 - UNCOND_MATCH - UNCOMP_END
  }

  /** How long a match at `src` may be. */
  function Cap(size: nat, src: nat): nat
    requires src <= LastMatchStart(size)
  {
    if size - UNCOMP_END - src > 255 then 255 else size - UNCOMP_END - src
  }

  /** Not accepted, or no better than a match of `len` bytes at `o`: shorter, or as long and no
      nearer. */
  ghost predicate NoBetter(data: seq<byte>, cand: nat, src: nat, cap: nat, len: nat, o: nat)
    requires 3 <= cap
  {
    Candidate(data, cand, src) ==>
      var m := MatchRun(data, cand, src, 3, cap);
      m < len || (m == len && cand <= o)
  }

  // ----- What the compressor remembers -----

  /** The positions before `n` whose three bytes hash to `h`, in order. */
  ghost function Seen(data: seq<byte>, n: nat, h: nat): seq<nat> {
    if n == 0 then []
    else if HashAt(data, n - 1) == h then Seen(data, n - 1, h) + [n - 1]
    else Seen(data, n - 1, h)
  }

  lemma {:induction false} SeenIs(data: seq<byte>, n: nat, h: nat)
    ensures var s := Seen(data, n, h);
            && (forall k :: 0 <= k < |s| ==> s[k] < n && HashAt(data, s[k]) == h)
            && (forall p :: 0 <= p < n && HashAt(data, p) == h ==> p in s)
            && (forall i, k :: 0 <= i < k < |s| ==> s[i] < s[k])
  {
    hide HashAt;
    if n > 0 {
      SeenIs(data, n - 1, h);
      var s := Seen(data, n - 1, h);
      assert HashAt(data, n - 1) == h ==> n - 1 == (s + [n - 1])[|s|];
    }
  }

  /** Of `count` positions with one hash the compressor keeps the last 16, each in the slot of its number
      modulo 16.  It looks at the slots below its count, which has a byte and wraps. */
  predicate LookedAt(count: nat, j: nat) {
    j < count <= j + POINTERS && j % POINTERS < count % 256
  }

  /** The compressor looks at position `o` for a match at `src`. */
  ghost predicate Offered(data: seq<byte>, src: nat, o: nat) {
    var seen := Seen(data, src, HashAt(data, src));
    exists j: nat :: j < |seen| && LookedAt(|seen|, j) && seen[j] == o
  }

  /** The longest match offered, and the nearest such. */
  ghost predicate BestMatch(data: seq<byte>, src: nat, o: nat, len: nat)
    requires src <= LastMatchStart(|data|)
  {
    var cap := Cap(|data|, src);
    && Offered(data, src, o) && Candidate(data, o, src) && len == MatchRun(data, o, src, 3, cap)
    && forall p :: Offered(data, src, p) ==> NoBetter(data, p, src, cap, len, o)
  }

  /** What stands for a match: itself if it is near enough, else a literal. */
  function TokenFor(data: seq<byte>, src: nat, o: nat, len: nat): Token
    requires o < src < |data|
  {
    if src - o < 131071 then Match(src - o, len) else Lit(data[src])
  }

  ghost predicate IsBestToken(t: Token, data: seq<byte>, src: nat, o: nat, len: nat)
    requires src <= LastMatchStart(|data|)
  {
    BestMatch(data, src, o, len) && t == TokenFor(data, src, o, len)
  }

  /** The token that belongs at `src`: the best match offered, or a literal if none is offered, if it is
      too far or near the end. */
  ghost predicate Chosen(t: Token, data: seq<byte>, src: nat)
    requires src < |data|
  {
    if src <= LastMatchStart(|data|) && exists p :: Offered(data, src, p) && Candidate(data, p, src) then
      exists o, len :: IsBestToken(t, data, src, o, len)
    else t == Lit(data[src])
  }

  /** Every token is the one that belongs at its place, the first at `from`. */
  ghost predicate Greedy(ts: seq<Token>, data: seq<byte>, from: nat)
    decreases |ts|
  {
    ts != [] ==> from < |data| && Chosen(ts[0], data, from) && Greedy(ts[1..], data, from + Span(ts[0]))
  }

  lemma {:induction false} GreedyAppend(ts: seq<Token>, t: Token, data: seq<byte>, from: nat, to: nat)
    requires Fits(ts, data, from, to) && Greedy(ts, data, from) && to < |data| && Chosen(t, data, to)
    ensures Greedy(ts + [t], data, from)
    decreases |ts|
  {
    hide TokenFits, Chosen, Span;
    if ts == [] {
      assert ts + [t] == [t] && Greedy([t][1..], data, from + Span(t));
    } else {
      assert (ts + [t])[1..] == ts[1..] + [t];
      GreedyAppend(ts[1..], t, data, from + Span(ts[0]), to);
    }
  }

  /** If the same three bytes stand at a position that is looked at, and every position looked at is near
      enough, the token is a match, at least as long as those two places agree. */
  lemma RepeatIsFound(t: Token, data: seq<byte>, src: nat, p: nat)
    requires src <= LastMatchStart(|data|) && Chosen(t, data, src)
    requires Offered(data, src, p) && p + MIN_OFFSET < src
    requires data[p] == data[src] && data[p + 1] == data[src + 1] && data[p + 2] == data[src + 2]
    requires forall q :: Offered(data, src, q) ==> src - q < 131071
    ensures t.Match? && t.len >= MatchRun(data, p, src, 3, Cap(|data|, src))
  {
    hide Read3, Offered, MatchRun;
    assert Candidate(data, p, src) by {
      Read3Injective(data, p, src);
    }
    hide Candidate;
    var o, len :| IsBestToken(t, data, src, o, len);
  }

  lemma {:induction false} Apart(s: seq<nat>, j: nat)
    requires j < |s| && forall i, k :: 0 <= i < k < |s| ==> s[i] < s[k]
    ensures s[|s| - 1] - s[j] >= |s| - 1 - j
    decreases |s| - j
  {
    if j < |s| - 1 {
      Apart(s, j + 1);
    }
  }

  /** The last 16 positions are looked at if they share the hash, unless the counter has just wrapped. */
  lemma RecentIsOffered(data: seq<byte>, src: nat, p: nat)
    requires p < src <= p + POINTERS && HashAt(data, p) == HashAt(data, src)
    requires var count := |Seen(data, src, HashAt(data, src))|; count < 256 || count % 256 >= POINTERS
    ensures Offered(data, src, p)
  {
    hide HashAt, Seen;
    SeenIs(data, src, HashAt(data, src));
    var s := Seen(data, src, HashAt(data, src));
    var j: nat :| j < |s| && s[j] == p;
    Apart(s, j);
    assert LookedAt(|s|, j);
  }

  /** At most one token belongs at a place. */
  lemma ChosenUnique(t: Token, u: Token, data: seq<byte>, src: nat)
    requires src < |data| && Chosen(t, data, src) && Chosen(u, data, src)
    ensures t == u
  {
    hide Offered, Candidate, MatchRun;
    if src <= LastMatchStart(|data|) && exists p :: Offered(data, src, p) && Candidate(data, p, src) {
      var o, len :| IsBestToken(t, data, src, o, len);
      var p, m :| IsBestToken(u, data, src, p, m);
      assert NoBetter(data, p, src, Cap(|data|, src), len, o);
      assert NoBetter(data, o, src, Cap(|data|, src), m, p);
    }
  }

  /** So of two greedy codings, one is the start of the other. */
  lemma {:induction false} GreedyUnique(a: seq<Token>, b: seq<Token>, data: seq<byte>, from: nat)
    requires Greedy(a, data, from) && Greedy(b, data, from) && |a| <= |b|
    ensures a == b[..|a|]
    decreases |a|
  {
    hide Chosen, Span;
    if a != [] {
      ChosenUnique(a[0], b[0], data, from);
      GreedyUnique(a[1..], b[1..], data, from + Span(a[0]));
      assert a == [a[0]] + a[1..] && b[..|a|] == [b[0]] + b[1..][..|a| - 1];
    }
  }
}
