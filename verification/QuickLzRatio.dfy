/** When the compressor keeps what it compressed: its bail-out, and how long a kept body can be. */
module QuickLzRatio {
  import opened Bytes
  import opened QuickLzFormat
  import opened QuickLzSearch

  /** How many bytes of the block some tokens stand for. */
  function TotalSpan(ts: seq<Token>): nat {
    if ts == [] then 0 else Span(ts[0]) + TotalSpan(ts[1..])
  }

  lemma {:induction false} FitsSpan(ts: seq<Token>, data: seq<byte>, from: nat, to: nat)
    requires Fits(ts, data, from, to)
    ensures to == from + TotalSpan(ts)
    decreases |ts|
  {
    if ts != [] {
      FitsSpan(ts[1..], data, from + Span(ts[0]), to);
    }
  }

  lemma {:induction false} TotalSpanAppend(a: seq<Token>, b: seq<Token>)
    ensures TotalSpan(a + b) == TotalSpan(a) + TotalSpan(b)
  {
    if a == [] {
      assert a + b == b;
    } else {
      assert (a + b)[1..] == a[1..] + b;
      TotalSpanAppend(a[1..], b);
    }
  }

  /** What the bail-out asks at position p, with q bytes of output. */
  predicate TooLong(size: nat, p: nat, q: nat) {
    p > size / 2 && q > p - p / 32
  }

  /** The bail-out fires after these groups: the main loop is not over, more than half of the block
      is coded, and the code takes more than 31/32 of it. */
  ghost predicate Poor(groups: seq<seq<Token>>, size: nat) {
    var p := TotalSpan(Flatten(groups));
    Grouped(groups) && p <= LastMatchStart(size) && TooLong(size, p, |Layout(groups)|)
  }

  /** The bail-out fires after none of the groups. */
  ghost predicate NeverPoor(groups: seq<seq<Token>>, size: nat) {
    forall k :: 0 <= k <= |groups| ==> !Poor(groups[..k], size)
  }

  /** Full groups of the tokens that belong at their places code a prefix of the data, and do it poorly. */
  ghost predicate CodesPoorly(groups: seq<seq<Token>>, data: seq<byte>) {
    && FullGroups(groups) && Fits(Flatten(groups), data, 0, TotalSpan(Flatten(groups)))
    && Greedy(Flatten(groups), data, 0) && Poor(groups, |data|)
  }

  ghost predicate PoorRatio(data: seq<byte>) {
    exists groups :: CodesPoorly(groups, data)
  }

  /** The tokens that belong at their places, and the bail-out let them through. */
  ghost predicate CodesWell(groups: seq<seq<Token>>, data: seq<byte>) {
    Codes(groups, data) && Greedy(Flatten(groups), data, 0) && NeverPoor(groups, |data|)
  }

  /** A compressed body that the bail-out let through. */
  ghost predicate IsKeptBody(body: seq<byte>, data: seq<byte>) {
    exists groups :: CodesWell(groups, data) && body == PadTo9(Layout(groups))
  }

  /** `frame` is `data` compressed to such a body. */
  ghost predicate IsKeptFrame(frame: seq<byte>, data: seq<byte>) {
    exists body :: IsKeptBody(body, data) && frame == Header(true, HeaderSize(|data|) + |body|, |data|) + body
  }

  /** What the compressor returns: the compressed frame, or the stored block if the bail-out fired. */
  ghost predicate IsOutput(out: seq<byte>, data: seq<byte>) {
    IsKeptFrame(out, data) || (IsStoredFrame(out, data) && PoorRatio(data))
  }

  lemma KeptIsBody(body: seq<byte>, data: seq<byte>)
    requires IsKeptBody(body, data)
    ensures IsBody(body, data)
  {
    hide Codes, Greedy, NeverPoor;
  }

  lemma KeptIsCompressed(frame: seq<byte>, data: seq<byte>)
    requires IsKeptFrame(frame, data)
    ensures IsCompressedFrame(frame, data)
  {
    hide IsKeptBody, IsBody, Header;
    var body :| IsKeptBody(body, data) && frame == Header(true, HeaderSize(|data|) + |body|, |data|) + body;
    KeptIsBody(body, data);
  }

  /** p bytes of the block are coded in q bytes, in full groups, as the search would have it. */
  ghost predicate StartTakes(groups: seq<seq<Token>>, data: seq<byte>, p: nat, q: nat) {
    && FullGroups(groups) && Grouped(groups) && Fits(Flatten(groups), data, 0, p) && Greedy(Flatten(groups), data, 0)
    && q == |Layout(groups)|
  }

  /** A block is given up exactly when some start of its coding, of more than half of it and before the last
      eleven bytes, takes more bytes than 31/32 of what it codes. */
  lemma GivenUpExactly(data: seq<byte>)
    ensures PoorRatio(data)
       <==> exists groups, p: nat, q: nat :: StartTakes(groups, data, p, q)
                                             && 2 * p > |data| && p + 11 <= |data| && 32 * (q - 1) >= 31 * p
  {
    hide Fits, Greedy, FullGroups, Grouped, Layout, Flatten, TotalSpan;
    if PoorRatio(data) {
      var groups :| CodesPoorly(groups, data);
      assert StartTakes(groups, data, TotalSpan(Flatten(groups)), |Layout(groups)|);
    }
    if groups, p: nat, q: nat :| StartTakes(groups, data, p, q)
                                 && 2 * p > |data| && p + 11 <= |data| && 32 * (q - 1) >= 31 * p {
      FitsSpan(Flatten(groups), data, 0, p);
      assert CodesPoorly(groups, data);
    }
  }

  lemma NothingPoor(size: nat)
    ensures NeverPoor([], size)
  {
  }

  lemma NeverPoorAppend(done: seq<seq<Token>>, cur: seq<Token>, size: nat)
    requires NeverPoor(done, size) && !Poor(done + [cur], size)
    ensures NeverPoor(done + [cur], size)
  {
    hide Poor;
    forall k | 0 <= k <= |done| + 1 ensures !Poor((done + [cur])[..k], size) {
      if k <= |done| {
        assert (done + [cur])[..k] == done[..k];
      } else {
        assert (done + [cur])[..k] == done + [cur];
      }
    }
  }

  // ----- How long a kept body can be -----

  lemma {:induction false} PayloadAtMost(ts: seq<Token>)
    requires Codable(ts)
    ensures |Payload(ts)| <= 4 * |ts|
  {
    if ts != [] {
      PayloadAtMost(ts[1..]);
    }
  }

  lemma {:induction false} SplitLayout(a: seq<seq<Token>>, b: seq<seq<Token>>)
    requires FullGroups(a) && Grouped(b)
    ensures Grouped(a) && Grouped(a + b) && |Layout(a + b)| == |Layout(a)| + |Layout(b)|
    ensures Flatten(a + b) == Flatten(a) + Flatten(b)
    decreases |a|
  {
    var all := a + b;
    assert forall i :: 0 <= i < |all| ==> all[i] == if i < |a| then a[i] else b[i - |a|];
    if a == [] {
      assert all == b;
    } else {
      assert all[1..] == a[1..] + b;
      SplitLayout(a[1..], b);
      LayoutCons(all);
      LayoutCons(a);
    }
  }

  /** The group in which the main loop ends. */
  lemma {:induction false} LastLoopGroup(groups: seq<seq<Token>>, size: nat, k: nat) returns (j: nat)
    requires k < |groups| && TotalSpan(Flatten(groups[..k])) <= LastMatchStart(size)
    requires TotalSpan(Flatten(groups)) > LastMatchStart(size)
    ensures j < |groups|
    ensures TotalSpan(Flatten(groups[..j])) <= LastMatchStart(size) < TotalSpan(Flatten(groups[..j + 1]))
    decreases |groups| - k
  {
    if TotalSpan(Flatten(groups[..k + 1])) > LastMatchStart(size) {
      j := k;
    } else {
      assert groups[..|groups|] == groups;
      j := LastLoopGroup(groups, size, k + 1);
    }
  }

  function KeptBound(size: nat): int {
    size - size / 32 + 150
  }

  lemma Arithmetic(size: nat, p: nat, q: nat)
    requires p <= size && (if p > size / 2 then q <= p - p / 32 else q <= p + 4 * ((p + 30) / 31))
    ensures q + 128 + 14 <= KeptBound(size)
  {
  }

  lemma KeptLayout(groups: seq<seq<Token>>, data: seq<byte>)
    requires Codes(groups, data) && NeverPoor(groups, |data|)
    ensures |Layout(groups)| <= KeptBound(|data|)
  {
    hide Fits, TokenFits, Grouped, FullGroups, Codable, Flatten, Layout, Payload, Poor, TotalSpan;
    var size := |data|;
    FitsSpan(Flatten(groups), data, 0, size);
    if LastMatchStart(size) < 0 {
      LayoutSize(groups, data, 0, size);
    } else {
      NoGroups();
      assert groups[..0] == [];
      EmptyIsShort(groups, size);
      var j := LastLoopGroup(groups, size, 0);
      SplitAt(groups, j);
      assert !Poor(groups[..j], size);
      KeptParts(groups[..j], groups[j], groups[j + 1..], data);
    }
  }

  lemma NoGroups()
    ensures Flatten([]) == [] && TotalSpan([]) == 0
  {
  }

  lemma EmptyIsShort(groups: seq<seq<Token>>, size: nat)
    requires LastMatchStart(size) >= 0 && TotalSpan(Flatten(groups)) == size
    ensures |groups| > 0
  {
  }

  /** The groups before the one in which the main loop ends, that group, and the rest. */
  lemma KeptParts(a: seq<seq<Token>>, g: seq<Token>, b: seq<seq<Token>>, data: seq<byte>)
    requires FullGroups(a) && Grouped(a) && Grouped(b) && Codable(g) && |g| <= 31
    requires Fits(Flatten(a) + (g + Flatten(b)), data, 0, |data|) && !Poor(a, |data|)
    requires TotalSpan(Flatten(a)) <= LastMatchStart(|data|) < TotalSpan(Flatten(a)) + TotalSpan(g)
    ensures |Layout(a)| + (4 + |Payload(g)|) + |Layout(b)| <= KeptBound(|data|)
  {
    hide Fits, TokenFits, Grouped, FullGroups, Codable, Flatten, Layout, Payload, TotalSpan;
    var size := |data|;
    var mid := FitsSplit(Flatten(a), g + Flatten(b), data, 0, size);
    var end := FitsSplit(g, Flatten(b), data, mid, size);
    FitsSpan(Flatten(a), data, 0, mid);
    FitsSpan(g, data, mid, end);
    LayoutSize(a, data, 0, mid);
    LayoutSize(b, data, end, size);
    PayloadAtMost(g);
    Arithmetic(size, mid, |Layout(a)|);
  }

  lemma SplitAt(groups: seq<seq<Token>>, j: nat)
    requires Grouped(groups) && j < |groups|
    ensures FullGroups(groups[..j]) && Grouped(groups[..j]) && Grouped(groups[j + 1..]) && Codable(groups[j])
    ensures Flatten(groups) == Flatten(groups[..j]) + (groups[j] + Flatten(groups[j + 1..]))
    ensures |groups[j]| <= 31
    ensures |Layout(groups)| == |Layout(groups[..j])| + (4 + |Payload(groups[j])|) + |Layout(groups[j + 1..])|
    ensures TotalSpan(Flatten(groups[..j + 1])) == TotalSpan(Flatten(groups[..j])) + TotalSpan(groups[j])
  {
    hide Grouped, FullGroups, Codable, Layout, Flatten, Payload, TotalSpan;
    var a, c := groups[..j], groups[j..];
    assert groups == a + c && c[1..] == groups[j + 1..] && c[0] == groups[j] && c != [];
    GroupedParts(groups, j);
    SplitLayout(a, c);
    LayoutLengthCons(c);
    FlattenCons(c);
    assert groups[..j + 1] == a + [groups[j]];
    LayoutAppend(a, groups[j]);
    TotalSpanAppend(Flatten(a), groups[j]);
  }

  lemma GroupedParts(groups: seq<seq<Token>>, j: nat)
    requires Grouped(groups) && j < |groups|
    ensures FullGroups(groups[..j]) && Grouped(groups[..j]) && Grouped(groups[j..]) && Grouped(groups[j + 1..])
    ensures Codable(groups[j]) && 1 <= |groups[j]| <= 31
  {
    hide Codable;
  }

  lemma LayoutLengthCons(groups: seq<seq<Token>>)
    requires Grouped(groups) && groups != []
    ensures Codable(groups[0]) && Grouped(groups[1..])
    ensures |Layout(groups)| == (4 + |Payload(groups[0])|) + |Layout(groups[1..])|
  {
    hide Layout, Payload, Codable;
    LayoutCons(groups);
    GroupLength(groups[0]);
  }

  lemma GroupLength(g: seq<Token>)
    requires Codable(g) && |g| <= 31
    ensures |GroupBytes(g)| == 4 + |Payload(g)|
  {
    hide Payload, WordOf;
  }

  lemma FlattenCons(groups: seq<seq<Token>>)
    requires groups != []
    ensures Flatten(groups) == groups[0] + Flatten(groups[1..])
  {
  }

  /** A kept body is at most about 31/32 of the block, and a constant. */
  lemma KeptBodySize(body: seq<byte>, data: seq<byte>)
    requires IsKeptBody(body, data)
    ensures |body| <= KeptBound(|data|)
  {
    var groups :| CodesWell(groups, data) && body == PadTo9(Layout(groups));
    KeptLayout(groups, data);
  }

  /** So a kept frame's length fits its header field whenever the block's does. */
  lemma KeptFrameFits(frame: seq<byte>, data: seq<byte>)
    requires IsKeptFrame(frame, data) && |data| < TWO_TO_THE_32
    ensures |frame| < TWO_TO_THE_32
  {
    hide IsKeptBody;
    var body :| IsKeptBody(body, data) && frame == Header(true, HeaderSize(|data|) + |body|, |data|) + body;
    KeptBodySize(body, data);
  }
}
