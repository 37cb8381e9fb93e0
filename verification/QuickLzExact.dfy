/** The compressor's output is determined by the data, and repetition is really found. */
module QuickLzExact {
  import opened Bytes
  import opened QuickLzFormat
  import opened QuickLzSearch
  import opened QuickLzRatio

  // ----- One output for each block -----

  lemma {:induction false} SamePrefix(a: seq<seq<Token>>, b: seq<seq<Token>>)
    requires FullGroups(a) && Grouped(b)
    requires |Flatten(a)| <= |Flatten(b)| && Flatten(a) == Flatten(b)[..|Flatten(a)|]
    ensures |a| <= |b| && a == b[..|a|]
    decreases |a|
  {
    hide Codable;
    if a != [] {
      var x, y := a[1..], b[1..];
      assert Flatten(a) == a[0] + Flatten(x) && Flatten(b) == b[0] + Flatten(y);
      assert |b[0]| == 31 by {
        assert y == [] ==> Flatten(y) == [];
      }
      Parts(a[0], Flatten(x), b[0], Flatten(y));
      SamePrefix(x, y);
      assert a == [a[0]] + x && b == [b[0]] + y;
      assert b[..|a|] == [b[0]] + y[..|x|];
    }
  }

  lemma Parts<T>(a: seq<T>, x: seq<T>, b: seq<T>, y: seq<T>)
    requires |a| == |b| && |a + x| <= |b + y| && a + x == (b + y)[..|a + x|]
    ensures a == b && |x| <= |y| && x == y[..|x|]
  {
    assert a == (a + x)[..|a|] && b == (b + y)[..|b|] && x == (a + x)[|a|..] && y == (b + y)[|b|..];
    assert (b + y)[..|a + x|][|a|..] == y[..|x|];
  }

  lemma {:induction false} SameGroups(a: seq<seq<Token>>, b: seq<seq<Token>>)
    requires Grouped(a) && Grouped(b) && Flatten(a) == Flatten(b)
    ensures a == b
    decreases |a|
  {
    hide Codable;
    if a == [] {
      NotEmpty(b);
    } else {
      var x, y := a[1..], b[1..];
      assert Flatten(a) == a[0] + Flatten(x);
      assert b != [];
      assert Flatten(b) == b[0] + Flatten(y);
      NotEmpty(x);
      NotEmpty(y);
      assert |a[0]| == |b[0]|;
      assert a[0] == Flatten(a)[..|a[0]|] && b[0] == Flatten(b)[..|b[0]|];
      assert Flatten(x) == Flatten(a)[|a[0]|..] && Flatten(y) == Flatten(b)[|b[0]|..];
      SameGroups(x, y);
    }
  }

  lemma NotEmpty(x: seq<seq<Token>>)
    requires Grouped(x)
    ensures x == [] <==> Flatten(x) == []
  {
  }

  /** A greedy coding of a part of the data is no longer than one of all of it. */
  lemma NotLonger(a: seq<Token>, b: seq<Token>, data: seq<byte>, to: nat)
    requires Fits(a, data, 0, to) && Greedy(a, data, 0)
    requires Fits(b, data, 0, |data|) && Greedy(b, data, 0)
    ensures |a| <= |b|
  {
    hide Fits, Greedy;
    if |a| > |b| {
      GreedyUnique(b, a, data, 0);
      assert a == b + a[|b|..];
      var mid := FitsSplit(b, a[|b|..], data, 0, to);
      FitsSpan(b, data, 0, |data|);
      FitsSpan(b, data, 0, mid);
      FitsIsCodable(a[|b|..], data, mid, to);
    }
  }

  /** Two greedy codings of all of the data are the same. */
  lemma SameTokens(a: seq<Token>, b: seq<Token>, data: seq<byte>)
    requires Fits(a, data, 0, |data|) && Greedy(a, data, 0)
    requires Fits(b, data, 0, |data|) && Greedy(b, data, 0)
    ensures a == b
  {
    hide Fits, Greedy;
    NotLonger(a, b, data, |data|);
    NotLonger(b, a, data, |data|);
    GreedyUnique(a, b, data, 0);
  }

  /** Where the bail-out let a coding through, it fires after no greedy coding of a prefix. */
  lemma NotPoorly(groups: seq<seq<Token>>, start: seq<seq<Token>>, data: seq<byte>)
    requires CodesWell(groups, data)
    requires FullGroups(start) && Fits(Flatten(start), data, 0, TotalSpan(Flatten(start)))
    requires Greedy(Flatten(start), data, 0)
    ensures !Poor(start, |data|)
  {
    hide Fits, Greedy, Flatten, Grouped, FullGroups, Poor, TotalSpan;
    NotLonger(Flatten(start), Flatten(groups), data, TotalSpan(Flatten(start)));
    GreedyUnique(Flatten(start), Flatten(groups), data, 0);
    SamePrefix(start, groups);
  }

  /** Whatever a compressor with this contract returns, it is one and the same frame: the contract leaves
      no choice. */
  lemma OneOutput(out: seq<byte>, other: seq<byte>, data: seq<byte>)
    requires IsOutput(out, data) && IsOutput(other, data)
    ensures out == other
  {
    hide CodesWell, CodesPoorly, Header;
    if IsKeptFrame(out, data) && IsKeptFrame(other, data) {
      OneKept(out, other, data);
    } else if IsKeptFrame(out, data) {
      KeptIsNotPoor(out, data);
    } else if IsKeptFrame(other, data) {
      KeptIsNotPoor(other, data);
    }
  }

  lemma KeptIsNotPoor(out: seq<byte>, data: seq<byte>)
    requires IsKeptFrame(out, data)
    ensures !PoorRatio(data)
  {
    hide Codes, Greedy, NeverPoor, Poor, Header, PadTo9, Layout, Flatten, Fits, FullGroups, TotalSpan;
    var body :| IsKeptBody(body, data) && out == Header(true, HeaderSize(|data|) + |body|, |data|) + body;
    var groups :| CodesWell(groups, data);
    forall start | CodesPoorly(start, data) ensures false {
      NotPoorly(groups, start, data);
    }
  }

  lemma OneKept(out: seq<byte>, other: seq<byte>, data: seq<byte>)
    requires IsKeptFrame(out, data) && IsKeptFrame(other, data)
    ensures out == other
  {
    hide Fits, Greedy, NeverPoor, Header, PadTo9, Grouped, Flatten, Layout;
    var body :| IsKeptBody(body, data) && out == Header(true, HeaderSize(|data|) + |body|, |data|) + body;
    var body' :| IsKeptBody(body', data) && other == Header(true, HeaderSize(|data|) + |body'|, |data|) + body';
    var groups :| CodesWell(groups, data) && body == PadTo9(Layout(groups));
    var groups' :| CodesWell(groups', data) && body' == PadTo9(Layout(groups'));
    SameTokens(Flatten(groups), Flatten(groups'), data);
    SameGroups(groups, groups');
  }

  // ----- A block of equal bytes -----

  predicate AllEqual(data: seq<byte>) {
    forall i :: 0 <= i < |data| ==> data[i] == data[0]
  }

  lemma EqualHashes(data: seq<byte>, p: nat, q: nat)
    requires AllEqual(data) && p + 3 <= |data| && q + 3 <= |data|
    ensures Read3(data, p) == Read3(data, q) && HashAt(data, p) == HashAt(data, q)
  {
    hide Read3;
    Read3Injective(data, p, q);
  }

  lemma {:induction false} SeenEqual(data: seq<byte>, n: nat, src: nat)
    requires AllEqual(data) && n <= src && src + 3 <= |data|
    ensures var s := Seen(data, n, HashAt(data, src)); |s| == n && forall k :: 0 <= k < n ==> s[k] == k
  {
    hide HashAt, AllEqual;
    if n > 0 {
      SeenEqual(data, n - 1, src);
      EqualHashes(data, n - 1, src);
    }
  }

  /** A position before `src` that is looked at and far enough back. */
  function Near(src: nat): nat
    requires src % 256 >= 3
  {
    if src % 256 >= 16 then src - 3 else src - src % 256
  }

  lemma NearEqual(src: nat)
    requires src % 256 >= 3
    ensures LookedAt(src, Near(src)) && Near(src) + MIN_OFFSET < src
  {
    var q, c := src / 256, src % 256;
    if c < 16 {
      assert Near(src) == 256 * q;
      ModUnique(256 * q, POINTERS, 16 * q, 0);
    }
  }

  lemma NoneEqual(src: nat, p: nat)
    requires src % 256 <= 2 && LookedAt(src, p)
    ensures p + MIN_OFFSET >= src
  {
    var d, c := src - p, src % 256;
    if d >= 3 {
      assert src == 256 * (src / 256) + c;
      ModUnique(p, 16, 16 * (src / 256) + (if d == c then 0 else -1), if d == c then 0 else 16 + c - d);
    }
  }

  lemma EqualOffered(data: seq<byte>, src: nat)
    requires AllEqual(data) && src <= LastMatchStart(|data|)
    ensures forall p :: Offered(data, src, p) <==> LookedAt(src, p)
    ensures forall p: nat :: Offered(data, src, p) ==> (Candidate(data, p, src) <==> p + MIN_OFFSET < src)
    ensures forall p: nat :: p < src ==> MatchRun(data, p, src, 3, Cap(|data|, src)) == Cap(|data|, src)
  {
    hide HashAt, AllEqual, Read3;
    SeenEqual(data, src, src);
    forall p: nat | p < src
      ensures Read3(data, p) == Read3(data, src) && MatchRun(data, p, src, 3, Cap(|data|, src)) == Cap(|data|, src)
    {
      EqualHashes(data, p, src);
      EqualRun(data, p, src);
    }
  }

  lemma EqualRun(data: seq<byte>, p: nat, src: nat)
    requires AllEqual(data) && p < src <= LastMatchStart(|data|)
    ensures MatchRun(data, p, src, 3, Cap(|data|, src)) == Cap(|data|, src)
  {
    var r := MatchRun(data, p, src, 3, Cap(|data|, src));
    assert data[p + r] == data[src + r];
  }

  /** In the main loop three places in 256 have a literal, and the others the longest match there can be. */
  lemma EqualToken(t: Token, data: seq<byte>, src: nat)
    requires AllEqual(data) && src <= LastMatchStart(|data|) && Chosen(t, data, src)
    ensures if src % 256 >= 3 then t.Match? && t.len == Cap(|data|, src) else t.Lit?
  {
    hide AllEqual, Offered, Candidate, MatchRun, LookedAt;
    EqualOffered(data, src);
    if src % 256 >= 3 {
      NearEqual(src);
      assert Candidate(data, Near(src), src);
      var o, len :| IsBestToken(t, data, src, o, len);
      LookedAtNear(src, o);
    } else {
      forall p: nat | LookedAt(src, p) ensures p + MIN_OFFSET >= src {
        NoneEqual(src, p);
      }
    }
  }

  lemma LookedAtNear(src: nat, p: nat)
    requires LookedAt(src, p)
    ensures p < src && src - p < 131071
  {
  }

  lemma {:induction false} FitsSnoc(ts: seq<Token>, data: seq<byte>, from: nat, to: nat) returns (mid: nat)
    requires ts != [] && Fits(ts, data, from, to) && Greedy(ts, data, from)
    ensures var n := |ts| - 1;
            && from <= mid < to <= |data| && Fits(ts[..n], data, from, mid) && Greedy(ts[..n], data, from)
            && TokenFits(ts[n], data, mid) && Chosen(ts[n], data, mid) && to == mid + Span(ts[n])
    decreases |ts|
  {
    hide TokenFits, Chosen, Span;
    FitsIsCodable(ts, data, from, to);
    var n := |ts| - 1;
    if n == 0 {
      mid := from;
      assert ts[..0] == [] && ts[1..] == [];
      Advances(ts[0], data, from);
    } else {
      mid := FitsSnoc(ts[1..], data, from + Span(ts[0]), to);
      assert ts[1..][..n - 1] == ts[..n][1..];
      assert Fits(ts[..n], data, from, mid);
    }
  }

  lemma Advances(t: Token, data: seq<byte>, pos: nat)
    requires TokenFits(t, data, pos)
    ensures Span(t) >= 1
  {
  }

  lemma PayloadSnoc(ts: seq<Token>, t: Token)
    requires Codable(ts + [t])
    ensures Codable(ts) && |Payload(ts)| <= |Payload(ts + [t])| <= |Payload(ts)| + if t.Match? then 4 else 1
  {
    hide TokenBytes, Payload;
    PayloadAppend(ts, t);
    TokenLength(t);
  }

  lemma TokenLength(t: Token)
    requires t.Match? ==> 3 <= t.len
    ensures |TokenBytes(t)| <= 4 && (t.Lit? ==> |TokenBytes(t)| == 1)
  {
    hide MatchWord;
  }

  /** The greedy coding of a block of equal bytes within the main loop: two tokens and at most five bytes for
      every 256 bytes of the block. */
  lemma {:induction false} EqualInLoop(ts: seq<Token>, data: seq<byte>, to: nat)
    requires AllEqual(data) && Fits(ts, data, 0, to) && Greedy(ts, data, 0) && to <= LastMatchStart(|data|)
    ensures to % 256 <= 3 && |ts| == 2 * (to / 256) + to % 256
    ensures Codable(ts) && |Payload(ts)| <= 5 * (to / 256) + to % 256
    decreases |ts|
  {
    hide AllEqual, Fits, Greedy, Chosen, TokenFits, TokenBytes, Payload;
    FitsIsCodable(ts, data, 0, to);
    if ts == [] {
      NoTokens(data, to);
    } else {
      var n := |ts| - 1;
      var mid := FitsSnoc(ts, data, 0, to);
      EqualInLoop(ts[..n], data, mid);
      EqualToken(ts[n], data, mid);
      assert ts == ts[..n] + [ts[n]];
      PayloadSnoc(ts[..n], ts[n]);
      EqualCounts(mid, to, Cap(|data|, mid), LastMatchStart(|data|), |data|);
    }
  }

  lemma NoTokens(data: seq<byte>, to: nat)
    requires Fits([], data, 0, to)
    ensures to == 0 && Payload([]) == []
  {
  }

  lemma EqualCounts(mid: nat, to: nat, cap: nat, last: int, size: nat)
    requires mid % 256 <= 3 && to <= last == LastMatchStart(size) && mid <= last && cap == Cap(size, mid)
    requires to == mid + if mid % 256 >= 3 then cap else 1
    ensures mid % 256 == 3 ==> to / 256 == mid / 256 + 1 && to % 256 == 2
    ensures mid % 256 < 3 ==> to / 256 == mid / 256 && to % 256 == mid % 256 + 1
  {
  }

  lemma {:induction false} FullCount(groups: seq<seq<Token>>)
    requires FullGroups(groups)
    ensures Grouped(groups) && |Flatten(groups)| == 31 * |groups|
    decreases |groups|
  {
    hide Codable;
    if groups != [] {
      FullCount(groups[1..]);
    }
  }

  lemma {:induction false} PayloadJoin(a: seq<Token>, b: seq<Token>)
    requires Codable(a) && Codable(b)
    ensures Codable(a + b) && Payload(a + b) == Payload(a) + Payload(b)
    decreases |a|
  {
    hide TokenBytes;
    if a == [] {
      assert a + b == b;
    } else {
      assert (a + b)[1..] == a[1..] + b;
      PayloadJoin(a[1..], b);
    }
  }

  lemma EqualNotPoor(data: seq<byte>)
    requires AllEqual(data)
    ensures !PoorRatio(data)
  {
    hide AllEqual, Fits, Greedy, Flatten, Layout, Payload, FullGroups, Grouped, TotalSpan;
    forall groups | CodesPoorly(groups, data) ensures false {
      var p := TotalSpan(Flatten(groups));
      FullCount(groups);
      LayoutLength(groups);
      EqualInLoop(Flatten(groups), data, p);
      EqualRatio(|data|, p, |groups|, |Layout(groups)|);
    }
  }

  lemma EqualRatio(size: nat, p: nat, g: nat, q: nat)
    requires p % 256 <= 3 && 31 * g == 2 * (p / 256) + p % 256 && q <= 4 * g + 5 * (p / 256) + p % 256
    ensures !TooLong(size, p, q)
  {
  }

  lemma QuotientGrows(a: nat, b: nat)
    requires a <= b
    ensures a / 256 <= b / 256
  {
  }

  /** After the main loop only literals follow. */
  lemma {:induction false} EqualAtEnd(ts: seq<Token>, data: seq<byte>, to: nat)
    requires AllEqual(data) && Fits(ts, data, 0, to) && Greedy(ts, data, 0) && to > LastMatchStart(|data|)
    ensures var late := to - LastMatchStart(|data|) - 1;
            && |ts| <= 2 * (|data| / 256) + 4 + late
            && Codable(ts) && |Payload(ts)| <= 5 * (|data| / 256) + 7 + late
    decreases |ts|
  {
    hide AllEqual, Fits, Greedy, TokenFits, TokenBytes, Payload, Offered, Candidate, IsBestToken;
    FitsIsCodable(ts, data, 0, to);
    if ts == [] {
      NoTokens(data, to);
    } else {
      var n := |ts| - 1;
      var mid := FitsSnoc(ts, data, 0, to);
      assert ts == ts[..n] + [ts[n]];
      PayloadSnoc(ts[..n], ts[n]);
      if mid <= LastMatchStart(|data|) {
        EqualInLoop(ts[..n], data, mid);
        QuotientGrows(mid, |data|);
      } else {
        EqualAtEnd(ts[..n], data, mid);
      }
    }
  }

  /** A block of n equal bytes is compressed to about n/50 bytes. */
  function EqualBound(size: nat): nat {
    var m := size / 256;
    5 * m + 17 + 4 * ((2 * m + 44) / 31)
  }

  /** A block of equal bytes is never stored: it is compressed, to about a fiftieth of its length and a
      constant. */
  lemma EqualBlock(out: seq<byte>, data: seq<byte>)
    requires AllEqual(data) && IsOutput(out, data)
    ensures IsKeptFrame(out, data) && |out| <= HeaderSize(|data|) + EqualBound(|data|)
  {
    hide AllEqual, CodesPoorly, Greedy, NeverPoor, Header, Layout, PadTo9, Fits;
    EqualNotPoor(data);
    var body :| IsKeptBody(body, data) && out == Header(true, HeaderSize(|data|) + |body|, |data|) + body;
    var groups :| CodesWell(groups, data) && body == PadTo9(Layout(groups));
    EqualLayout(groups, data);
  }

  lemma EqualLayout(groups: seq<seq<Token>>, data: seq<byte>)
    requires AllEqual(data) && CodesWell(groups, data)
    ensures |Layout(groups)| <= EqualBound(|data|)
  {
    hide AllEqual, Fits, Greedy, Flatten, Layout, Payload, NeverPoor;
    EqualAtEnd(Flatten(groups), data, |data|);
    LayoutLength(groups);
  }

  lemma {:induction false} LayoutLength(groups: seq<seq<Token>>)
    requires Grouped(groups)
    ensures Codable(Flatten(groups)) && |Layout(groups)| == |Payload(Flatten(groups))| + 4 * |groups|
    ensures 31 * |groups| <= |Flatten(groups)| + 30
    decreases |groups|
  {
    if groups != [] {
      LayoutLength(groups[1..]);
      LayoutCons(groups);
      PayloadJoin(groups[0], Flatten(groups[1..]));
      assert groups[1..] == [] || |groups[0]| == 31;
    }
  }
}
