/** The decompressor undoes the compressor: a simulation of the decoder over the token groups that
    the encoder laid out. */
module QuickLzRoundTrip {
  import opened Bytes
  import opened QuickLzFormat
  import opened QuickLzRatio
  import opened QuickLzDecode
  import opened QuickLzEncode

  ghost predicate AllLit(ts: seq<Token>) {
    forall i :: 0 <= i < |ts| ==> ts[i].Lit?
  }

  // ----- What is left to decode -----

  /** The tokens `rest`, then those of `groups`, describe `data` from `pos` on; only the last
      control word has unused flags (`pad` of them). */
  ghost predicate Describes(data: seq<byte>, pos: nat, rest: seq<Token>, pad: nat, groups: seq<seq<Token>>) {
    && Codable(rest) && Grouped(groups)
    && (pad > 0 ==> groups == [])
    && Fits(rest + Flatten(groups), data, pos, |data|)
  }

  /** From `src` to `end` the frame holds the bytes of those tokens. */
  ghost predicate Holds(source: seq<byte>, src: nat, end: nat, rest: seq<Token>, groups: seq<seq<Token>>)
    requires Codable(rest) && Grouped(groups)
  {
    src <= end <= |source| && source[src..end] == Payload(rest) + Layout(groups)
  }

  /** The decoder is in step: it has produced `data[..pos]` and reads at `src`. */
  ghost predicate InStep(source: seq<byte>, data: seq<byte>, end: nat, src: nat, pos: nat,
                         rest: seq<Token>, pad: nat, groups: seq<seq<Token>>) {
    Describes(data, pos, rest, pad, groups) && Holds(source, src, end, rest, groups)
  }

  /** Where no match can start any more, there is one literal per byte left. */
  lemma {:induction false} LateTokens(ts: seq<Token>, data: seq<byte>, pos: nat)
    requires Fits(ts, data, pos, |data|) && pos + UNCOND_MATCH + UNCOMP_END >= |data|
    ensures AllLit(ts) && pos <= |data| && |ts| == |data| - pos
    decreases |ts|
  {
    if ts == [] {
    } else {
      LateTokens(ts[1..], data, pos + 1);
      assert forall i :: 0 <= i < |ts| ==> ts[i] == if i == 0 then ts[0] else ts[1..][i - 1];
    }
  }

  /** The last four bytes are always literals, so with four bytes to go there are four tokens. */
  lemma {:induction false} TokensLeft(ts: seq<Token>, data: seq<byte>, pos: nat)
    requires Fits(ts, data, pos, |data|) && pos + 4 <= |data|
    ensures |ts| >= 4
    decreases |ts|
  {
    if pos + 4 == |data| {
      LateTokens(ts, data, pos);
    } else {
      assert ts != [];
      TokensLeft(ts[1..], data, pos + Span(ts[0]));
    }
  }

  lemma {:induction false} PayloadAtLeast(ts: seq<Token>)
    requires Codable(ts)
    ensures |Payload(ts)| >= |ts|
    decreases |ts|
  {
    if ts == [] {
    } else {
      PayloadAtLeast(ts[1..]);
    }
  }

  lemma {:induction false} LayoutAtLeast(groups: seq<seq<Token>>)
    requires Grouped(groups)
    ensures |Layout(groups)| >= |Flatten(groups)|
    decreases |groups|
  {
    if groups == [] {
    } else {
      LayoutCons(groups);
      PayloadAtLeast(groups[0]);
      LayoutAtLeast(groups[1..]);
    }
  }

  lemma EnoughBytes(source: seq<byte>, data: seq<byte>, end: nat, src: nat, pos: nat,
                    rest: seq<Token>, pad: nat, groups: seq<seq<Token>>)
    requires InStep(source, data, end, src, pos, rest, pad, groups) && pos + 4 <= |data|
    ensures src + 4 <= end
  {
    TokensLeft(rest + Flatten(groups), data, pos);
    PayloadAtLeast(rest);
    LayoutAtLeast(groups);
    assert |source[src..end]| == end - src;
  }

  // ----- One decoder step at a time -----

  lemma SliceSplit(source: seq<byte>, src: nat, end: nat, a: seq<byte>, b: seq<byte>)
    requires src <= end <= |source| && source[src..end] == a + b
    ensures src + |a| <= end && source[src..src + |a|] == a && source[src + |a|..end] == b
  {
    assert |source[src..end]| == |a| + |b|;
    assert source[src..src + |a|] == source[src..end][..|a|];
    assert source[src + |a|..end] == source[src..end][|a|..];
  }

  /** A control word boundary: the word read is the next group's. */
  lemma NextGroup(source: seq<byte>, data: seq<byte>, end: nat, src: nat, pos: nat, groups: seq<seq<Token>>)
    requires InStep(source, data, end, src, pos, [], 0, groups) && pos < |data|
    ensures Grouped(groups) && groups != [] && 1 <= |groups[0]| <= 31
    ensures src + 4 <= end && ReadLE(source, src, 4) == WordOf(groups[0], 31 - |groups[0]|)
    ensures InStep(source, data, end, src + 4, pos, groups[0], 31 - |groups[0]|, groups[1..])
  {
    DescribesGroup(data, pos, groups);
    HoldsGroup(source, src, end, groups);
  }

  lemma DescribesGroup(data: seq<byte>, pos: nat, groups: seq<seq<Token>>)
    requires Describes(data, pos, [], 0, groups) && pos < |data|
    ensures groups != [] && 1 <= |groups[0]| <= 31
    ensures Describes(data, pos, groups[0], 31 - |groups[0]|, groups[1..])
  {
    assert [] + Flatten(groups) == Flatten(groups);
    if |groups[0]| < 31 {
      assert |groups| == 1;
    }
  }

  lemma HoldsGroup(source: seq<byte>, src: nat, end: nat, groups: seq<seq<Token>>)
    requires Grouped(groups) && groups != [] && Holds(source, src, end, [], groups)
    ensures src + 4 <= end && ReadLE(source, src, 4) == WordOf(groups[0], 31 - |groups[0]|)
    ensures Grouped(groups[1..]) && Holds(source, src + 4, end, groups[0], groups[1..])
  {
    hide WordOf, ReadLE;
    var g := groups[0];
    var word := WordOf(g, 31 - |g|);
    LayoutCons(groups);
    assert Payload([]) + Layout(groups) == Layout(groups);
    Regroup(LE(word, 4), Payload(g), Layout(groups[1..]));
    SliceSplit(source, src, end, LE(word, 4), Payload(g) + Layout(groups[1..]));
    ReadLEOfLE(source, src, word, 4);
    RunningWordDone(g);
    PowerValues();
    SmallMod(word, TWO_TO_THE_32);
  }

  lemma DescribesNext(data: seq<byte>, pos: nat, rest: seq<Token>, pad: nat, groups: seq<seq<Token>>)
    requires Describes(data, pos, rest, pad, groups) && rest != []
    ensures TokenFits(rest[0], data, pos)
    ensures Describes(data, pos + Span(rest[0]), rest[1..], pad, groups)
  {
    var ts := rest + Flatten(groups);
    assert ts[0] == rest[0];
    assert ts[1..] == rest[1..] + Flatten(groups);
  }

  lemma HoldsNext(source: seq<byte>, src: nat, end: nat, rest: seq<Token>, groups: seq<seq<Token>>)
    requires Codable(rest) && Grouped(groups) && Holds(source, src, end, rest, groups) && rest != []
    ensures var w := |TokenBytes(rest[0])|; src + w <= end <= |source| && source[src..src + w] == TokenBytes(rest[0])
    ensures Holds(source, src + |TokenBytes(rest[0])|, end, rest[1..], groups)
  {
    PayloadCons(rest);
    Regroup(TokenBytes(rest[0]), Payload(rest[1..]), Layout(groups));
    SliceSplit(source, src, end, TokenBytes(rest[0]), Payload(rest[1..]) + Layout(groups));
  }

  lemma PayloadCons(ts: seq<Token>)
    requires Codable(ts) && ts != []
    ensures Codable(ts[1..]) && Payload(ts) == TokenBytes(ts[0]) + Payload(ts[1..])
  {
  }

  /** Stepping over the first token of the group. */
  lemma NextToken(source: seq<byte>, data: seq<byte>, end: nat, src: nat, pos: nat,
                  rest: seq<Token>, pad: nat, groups: seq<seq<Token>>)
    requires InStep(source, data, end, src, pos, rest, pad, groups) && rest != []
    ensures TokenFits(rest[0], data, pos)
    ensures var w := |TokenBytes(rest[0])|; src + w <= end <= |source| && source[src..src + w] == TokenBytes(rest[0])
    ensures InStep(source, data, end, src + |TokenBytes(rest[0])|, pos + Span(rest[0]), rest[1..], pad, groups)
  {
    DescribesNext(data, pos, rest, pad, groups);
    HoldsNext(source, src, end, rest, groups);
  }

  /** With flags left over but no token, the data is complete. */
  lemma PadMeansDone(source: seq<byte>, data: seq<byte>, end: nat, src: nat, pos: nat,
                     rest: seq<Token>, pad: nat, groups: seq<seq<Token>>)
    requires InStep(source, data, end, src, pos, rest, pad, groups)
    ensures rest == [] && pad > 0 ==> pos == |data|
  {
    assert rest == [] && groups == [] ==> rest + Flatten(groups) == [];
  }

  /** The copy replays the match. */
  lemma {:induction false} CopyReplays(data: seq<byte>, pos: nat, offset: nat, n: nat)
    requires 1 <= offset <= pos && pos + n <= |data|
    requires forall j :: pos <= j < pos + n ==> data[j] == data[j - offset]
    ensures CopyUp(data[..pos], pos - offset, n) == data[..pos + n]
    decreases n
  {
    if n == 0 {
    } else {
      assert data[..pos] + [data[..pos][pos - offset]] == data[..pos + 1];
      CopyReplays(data, pos + 1, offset, n - 1);
    }
  }

  /** `n` literals have been stepped over. */
  ghost predicate RunOf(source: seq<byte>, data: seq<byte>, end: nat, src: nat, pos: nat,
                        rest: seq<Token>, pad: nat, groups: seq<seq<Token>>, n: nat) {
    && n <= |rest| && src + n <= |source| && pos + n <= |data|
    && ShiftRight(WordOf(rest, pad), n) == WordOf(rest[n..], pad)
    && source[src..src + n] == data[pos..pos + n]
    && InStep(source, data, end, src + n, pos + n, rest[n..], pad, groups)
  }

  lemma RunNil(source: seq<byte>, data: seq<byte>, end: nat, src: nat, pos: nat,
               rest: seq<Token>, pad: nat, groups: seq<seq<Token>>)
    requires InStep(source, data, end, src, pos, rest, pad, groups)
    requires pos <= |data|
    ensures RunOf(source, data, end, src, pos, rest, pad, groups, 0)
  {
    assert rest[0..] == rest;
    assert source[src..src] == data[pos..pos];
  }

  lemma RunCons(source: seq<byte>, data: seq<byte>, end: nat, src: nat, pos: nat,
                rest: seq<Token>, pad: nat, groups: seq<seq<Token>>, n: nat)
    requires rest != [] && src < |source| && pos < |data| && source[src] == data[pos]
    requires WordOf(rest, pad) / 2 == WordOf(rest[1..], pad)
    requires RunOf(source, data, end, src + 1, pos + 1, rest[1..], pad, groups, n)
    ensures RunOf(source, data, end, src, pos, rest, pad, groups, n + 1)
  {
    assert rest[1..][n..] == rest[n + 1..];
    SliceCons(source, src, n);
    SliceCons(data, pos, n);
  }

  lemma NextLiteral(source: seq<byte>, data: seq<byte>, end: nat, src: nat, pos: nat,
                    rest: seq<Token>, pad: nat, groups: seq<seq<Token>>)
    requires InStep(source, data, end, src, pos, rest, pad, groups) && rest != [] && rest[0].Lit?
    ensures src < end <= |source| && pos < |data| && source[src] == data[pos]
    ensures InStep(source, data, end, src + 1, pos + 1, rest[1..], pad, groups)
  {
    NextToken(source, data, end, src, pos, rest, pad, groups);
    assert source[src] == source[src..src + 1][0];
  }

  lemma NextMatch(source: seq<byte>, data: seq<byte>, end: nat, src: nat, pos: nat,
                  rest: seq<Token>, pad: nat, groups: seq<seq<Token>>)
    requires InStep(source, data, end, src, pos, rest, pad, groups) && rest != [] && rest[0].Match?
    ensures var offset, len := rest[0].offset, rest[0].len;
            && DecodeMatch(ReadLE(source, src, 4)) == MatchFields(offset, len, Width(offset, len))
            && 3 <= offset <= pos && 3 <= len && pos + len + UNCOMP_END <= |data|
            && CopyUp(data[..pos], pos - offset, len) == data[..pos + len]
            && InStep(source, data, end, src + Width(offset, len), pos + len, rest[1..], pad, groups)
  {
    hide InStep, DecodeMatch, CopyUp;
    NextToken(source, data, end, src, pos, rest, pad, groups);
    MatchDecodes(rest[0].offset, rest[0].len, source, src);
    CopyReplays(data, pos, rest[0].offset, rest[0].len);
  }

  /** A run of zero flags is a run of literals. */
  lemma {:induction false} LiteralRun(source: seq<byte>, data: seq<byte>, end: nat, src: nat, pos: nat,
                                      rest: seq<Token>, pad: nat, groups: seq<seq<Token>>, limit: nat)
    requires InStep(source, data, end, src, pos, rest, pad, groups) && pos + limit < |data|
    ensures RunOf(source, data, end, src, pos, rest, pad, groups, ZeroRun(WordOf(rest, pad), limit))
    decreases limit
  {
    hide InStep, WordOf, RunOf;
    WordOfNext(rest, pad);
    if limit == 0 || WordOf(rest, pad) % 2 == 1 {
      RunNil(source, data, end, src, pos, rest, pad, groups);
    } else {
      PadMeansDone(source, data, end, src, pos, rest, pad, groups);
      NextLiteral(source, data, end, src, pos, rest, pad, groups);
      LiteralRun(source, data, end, src + 1, pos + 1, rest[1..], pad, groups, limit - 1);
      RunCons(source, data, end, src, pos, rest, pad, groups, ZeroRun(WordOf(rest[1..], pad), limit - 1));
    }
  }

  lemma SliceCons(b: seq<byte>, i: nat, n: nat)
    requires i + 1 + n <= |b|
    ensures b[i..i + (n + 1)] == [b[i]] + b[i + 1..i + 1 + n]
  {
  }

  lemma {:induction false} PaddedSliceIs(source: seq<byte>, i: nat, n: nat)
    requires i + n <= |source|
    ensures PaddedSlice(source, i, n) == source[i..i + n]
  {
    if n == 0 {
    } else {
      PaddedSliceIs(source, i, n - 1);
    }
  }

  lemma {:induction false} NoFlags(ts: seq<Token>)
    requires AllLit(ts)
    ensures FlagValue(ts) == 0
  {
    if ts == [] {
    } else {
      NoFlags(ts[1..]);
    }
  }

  // ----- The literal tail -----

  /** The tail copies what is left, skipping control words; it fails exactly when the declared
      size stops short of the last byte. */
  lemma {:induction false} TailInStep(source: seq<byte>, data: seq<byte>, end: nat, last: int, src: nat, pos: nat,
                                      rest: seq<Token>, pad: nat, groups: seq<seq<Token>>)
    requires InStep(source, data, end, src, pos, rest, pad, groups)
    requires AllLit(rest) && AllLit(Flatten(groups))
    requires pos <= |data| && (pos == |data| ==> last >= end - 1)
    ensures TailFrom(source, last, |data|, src, WordOf(rest, pad), data[..pos])
            == if last >= end - 1 then Ok(data) else Corrupt
    decreases |data| - pos, 1
  {
    hide InStep, WordOf;
    WordOfNext(rest, pad);
    if pos == |data| {
      assert data[..pos] == data;
    } else if rest == [] {
      PadMeansDone(source, data, end, src, pos, rest, pad, groups);
      NextGroup(source, data, end, src, pos, groups);
      var g := groups[0];
      LiteralGroup(groups);
      TailLiteral(source, data, end, last, src + 4, pos, g, 31 - |g|, groups[1..]);
      TailSkip(source, last, |data|, src, data[..pos]);
    } else {
      TailLiteral(source, data, end, last, src, pos, rest, pad, groups);
    }
  }

  lemma LiteralGroup(groups: seq<seq<Token>>)
    requires Grouped(groups) && groups != [] && AllLit(Flatten(groups))
    ensures AllLit(groups[0]) && AllLit(Flatten(groups[1..]))
    ensures WordOf(groups[0], 31 - |groups[0]|) == TOP_BIT
  {
    var g, more := groups[0], Flatten(groups[1..]);
    assert Flatten(groups) == g + more;
    assert forall i :: 0 <= i < |g| ==> g[i] == Flatten(groups)[i];
    assert forall i :: 0 <= i < |more| ==> more[i] == Flatten(groups)[|g| + i];
    NoFlags(g);
    RunningWordDone(g);
  }

  lemma TailSkip(source: seq<byte>, last: int, dsize: nat, src: nat, dst: seq<byte>)
    requires |dst| < dsize
    ensures TailFrom(source, last, dsize, src, 1, dst) == TailFrom(source, last, dsize, src + CWORD_LEN, TOP_BIT, dst)
  {
  }

  lemma {:induction false} TailLiteral(source: seq<byte>, data: seq<byte>, end: nat, last: int, src: nat, pos: nat,
                                       rest: seq<Token>, pad: nat, groups: seq<seq<Token>>)
    requires InStep(source, data, end, src, pos, rest, pad, groups)
    requires AllLit(rest) && AllLit(Flatten(groups)) && rest != []
    requires pos < |data|
    ensures TailFrom(source, last, |data|, src, WordOf(rest, pad), data[..pos])
            == if last >= end - 1 then Ok(data) else Corrupt
    decreases |data| - pos, 0
  {
    hide InStep, WordOf;
    WordOfNext(rest, pad);
    NextLiteral(source, data, end, src, pos, rest, pad, groups);
    assert data[..pos] + [data[pos]] == data[..pos + 1];
    if src <= last {
      if pos + 1 == |data| {
        NothingLeft(source, data, end, src + 1, rest[1..], pad, groups);
      }
      TailInStep(source, data, end, last, src + 1, pos + 1, rest[1..], pad, groups);
    }
  }

  lemma NothingLeft(source: seq<byte>, data: seq<byte>, end: nat, src: nat,
                    rest: seq<Token>, pad: nat, groups: seq<seq<Token>>)
    requires InStep(source, data, end, src, |data|, rest, pad, groups)
    ensures src == end
  {
    FitsIsCodable(rest + Flatten(groups), data, |data|, |data|);
    FlattenEmpty(groups);
    assert |source[src..end]| == end - src;
  }

  lemma FlattenEmpty(groups: seq<seq<Token>>)
    requires Grouped(groups)
    ensures Flatten(groups) == [] ==> groups == []
  {
    if groups != [] {
      assert |Flatten(groups)| == |groups[0]| + |Flatten(groups[1..])|;
    }
  }

  // ----- The main loop -----

  /** The decoder, in step and with its guards' four bytes of room, decodes the rest of the data;
      it fails exactly when the declared size stops short of the last byte. */
  lemma {:induction false} DecodeInStep(source: seq<byte>, data: seq<byte>, end: nat, last: int, src: nat, pos: nat,
                                        rest: seq<Token>, pad: nat, groups: seq<seq<Token>>)
    requires InStep(source, data, end, src, pos, rest, pad, groups)
    requires pos < |data|
    requires last >= end - 1 ==> pos + 4 <= |data| || (rest == [] && pad == 0 && src + 7 <= last)
    ensures DecodeFrom(source, last, |data|, src, WordOf(rest, pad), data[..pos])
            == if last >= end - 1 then Ok(data) else Corrupt
    decreases |data| - pos, 2
  {
    hide InStep, WordOf;
    WordOfNext(rest, pad);
    if rest == [] && pad == 0 {
      NextGroup(source, data, end, src, pos, groups);
      if src + 3 <= last {
        TokenInStep(source, data, end, last, src + 4, pos, groups[0], 31 - |groups[0]|, groups[1..]);
      }
    } else {
      TokenInStep(source, data, end, last, src, pos, rest, pad, groups);
    }
  }

  lemma {:induction false} TokenInStep(source: seq<byte>, data: seq<byte>, end: nat, last: int, src: nat, pos: nat,
                                       rest: seq<Token>, pad: nat, groups: seq<seq<Token>>)
    requires InStep(source, data, end, src, pos, rest, pad, groups)
    requires pos < |data|
    requires last >= end - 1 ==> pos + 4 <= |data| || src + 3 <= last
    requires rest != [] || pad > 0
    ensures TokenFrom(source, last, |data|, src, WordOf(rest, pad), data[..pos])
            == if last >= end - 1 then Ok(data) else Corrupt
    decreases |data| - pos, 1
  {
    hide InStep, WordOf;
    WordOfNext(rest, pad);
    if last >= end - 1 && pos + 4 <= |data| {
      EnoughBytes(source, data, end, src, pos, rest, pad, groups);
    }
    PadMeansDone(source, data, end, src, pos, rest, pad, groups);
    if src + 3 <= last {
      if rest[0].Match? {
        MatchInStep(source, data, end, last, src, pos, rest, pad, groups);
      } else if pos < |data| - 1 - UNCOND_MATCH - UNCOMP_END {
        LiteralsInStep(source, data, end, last, src, pos, rest, pad, groups);
      } else {
        NoMoreMatches(source, data, end, src, pos, rest, pad, groups);
        TailInStep(source, data, end, last, src, pos, rest, pad, groups);
      }
    }
  }

  lemma {:induction false} MatchInStep(source: seq<byte>, data: seq<byte>, end: nat, last: int, src: nat, pos: nat,
                                       rest: seq<Token>, pad: nat, groups: seq<seq<Token>>)
    requires InStep(source, data, end, src, pos, rest, pad, groups)
    requires pos < |data| && rest != [] && rest[0].Match?
    ensures DecodeMatch(ReadLE(source, src, 4)).len >= 1
    ensures MatchFrom(source, last, |data|, src, WordOf(rest, pad), data[..pos], DecodeMatch(ReadLE(source, src, 4)))
         == if last >= end - 1 then Ok(data) else Corrupt
    decreases |data| - pos, 0
  {
    hide InStep, WordOf, CopyUp, DecodeMatch;
    WordOfNext(rest, pad);
    var offset, len := rest[0].offset, rest[0].len;
    NextMatch(source, data, end, src, pos, rest, pad, groups);
    GuardsPass(source, last, data, src, WordOf(rest, pad), pos, offset, len, Width(offset, len));
    DecodeInStep(source, data, end, last, src + Width(offset, len), pos + len, rest[1..], pad, groups);
  }

  /** No decoder guard rejects a match the encoder emits. */
  lemma GuardsPass(source: seq<byte>, last: int, data: seq<byte>, src: nat, cword: nat, pos: nat,
                   offset: nat, len: nat, width: nat)
    requires 3 <= offset <= pos && 1 <= len && pos + len + UNCOMP_END <= |data|
    requires CopyUp(data[..pos], pos - offset, len) == data[..pos + len]
    ensures MatchFrom(source, last, |data|, src, cword, data[..pos], MatchFields(offset, len, width))
         == DecodeFrom(source, last, |data|, src + width, cword / 2, data[..pos + len])
  {
  }

  lemma {:induction false} LiteralsInStep(source: seq<byte>, data: seq<byte>, end: nat, last: int, src: nat, pos: nat,
                                          rest: seq<Token>, pad: nat, groups: seq<seq<Token>>)
    requires InStep(source, data, end, src, pos, rest, pad, groups)
    requires pos < |data| - 1 - UNCOND_MATCH - UNCOMP_END && rest != [] && rest[0].Lit? && src + 3 <= last
    ensures TokenFrom(source, last, |data|, src, WordOf(rest, pad), data[..pos])
            == if last >= end - 1 then Ok(data) else Corrupt
    decreases |data| - pos, 0
  {
    hide InStep, WordOf;
    var word := WordOf(rest, pad);
    WordOfNext(rest, pad);
    BitlutCounts(word);
    var n := BITLUT[word % 16];
    LiteralRun(source, data, end, src, pos, rest, pad, groups, 4);
    PaddedSliceIs(source, src, n);
    assert data[..pos] + data[pos..pos + n] == data[..pos + n];
    DecodeInStep(source, data, end, last, src + n, pos + n, rest[n..], pad, groups);
  }

  /** A literal in the last eleven bytes is followed by literals only. */
  lemma NoMoreMatches(source: seq<byte>, data: seq<byte>, end: nat, src: nat, pos: nat,
                      rest: seq<Token>, pad: nat, groups: seq<seq<Token>>)
    requires InStep(source, data, end, src, pos, rest, pad, groups)
    requires pos + 1 + UNCOND_MATCH + UNCOMP_END >= |data| && rest != [] && rest[0].Lit?
    ensures AllLit(rest) && AllLit(Flatten(groups))
  {
    var ts := rest + Flatten(groups);
    assert ts[0] == rest[0];
    LateTokens(ts[1..], data, pos + 1);
    assert forall i :: 0 <= i < |ts| ==> ts[i] == if i == 0 then ts[0] else ts[1..][i - 1];
    assert forall i :: 0 <= i < |rest| ==> rest[i] == ts[i];
    assert forall i :: 0 <= i < |Flatten(groups)| ==> Flatten(groups)[i] == ts[|rest| + i];
  }

  // ----- Whole frames -----

  /** The frame length as the header field holds it. */
  function DeclaredTotal(total: nat, size: nat): nat {
    if size < 216 then total % 256 else total % TWO_TO_THE_32
  }

  lemma HeaderReadsBack(frame: seq<byte>, compressed: bool, total: nat, size: nat, body: seq<byte>)
    requires frame == Header(compressed, total, size) + body
    ensures |frame| >= 3 && frame[0] % 2 == (if compressed then 1 else 0)
    ensures SizeHeader(frame) == HeaderSize(size)
    ensures |frame| == HeaderSize(size) + |body| && frame[HeaderSize(size)..] == body
    ensures SizeDecompressed(frame) == if size < 216 then size else size % TWO_TO_THE_32
    ensures SizeCompressed(frame) == DeclaredTotal(total, size)
  {
    var h := Header(compressed, total, size);
    assert frame[0] == h[0];
    if size < 216 {
      assert frame[1] == h[1] && frame[2] == h[2];
      assert ReadLE(frame, 1, 1) == ByteAt(frame, 1) + 256 * ReadLE(frame, 2, 0);
      assert ReadLE(frame, 2, 1) == ByteAt(frame, 2) + 256 * ReadLE(frame, 3, 0);
    } else {
      var t, s := total % TWO_TO_THE_32, size % TWO_TO_THE_32;
      assert frame[1..1 + 4] == LE(t, 4) && frame[5..5 + 4] == LE(s, 4);
      ReadLEOfLE(frame, 1, t, 4);
      ReadLEOfLE(frame, 5, s, 4);
      PowerValues();
      SmallMod(t, TWO_TO_THE_32);
      SmallMod(s, TWO_TO_THE_32);
    }
  }

  /** A stored frame decodes to its data exactly when the data's length fits in 32 bits. */
  lemma StoredDecodes(frame: seq<byte>, data: seq<byte>)
    requires data != [] && IsStoredFrame(frame, data)
    ensures DecodeBlock(frame) == Ok(data) <==> |data| < TWO_TO_THE_32
  {
    HeaderReadsBack(frame, false, HeaderSize(|data|) + |data|, |data|, data);
    var h := HeaderSize(|data|);
    if |data| < TWO_TO_THE_32 {
      SmallMod(|data|, TWO_TO_THE_32);
      assert frame[h..h + |data|] == data;
    } else {
      assert SizeDecompressed(frame) < TWO_TO_THE_32;
    }
  }

  lemma CompressedOutcome(frame: seq<byte>, data: seq<byte>, body: seq<byte>)
    requires data != [] && |data| < TWO_TO_THE_32 && IsBody(body, data)
    requires frame == Header(true, HeaderSize(|data|) + |body|, |data|) + body
    ensures |frame| >= 3 && frame[0] % 2 == 1 && SizeDecompressed(frame) == |data|
    ensures DecodeCore(frame, |data|) == if |frame| < TWO_TO_THE_32 then Ok(data) else Corrupt
  {
    hide Header, DecodeCore, SizeHeader, SizeCompressed, SizeDecompressed, Layout, PadTo9;
    var h := HeaderSize(|data|);
    HeaderReadsBack(frame, true, h + |body|, |data|, body);
    SmallMod(|data|, TWO_TO_THE_32);
    BodySize(body, data);
    DeclaredEnd(|data|, |body|);
    var groups :| Codes(groups, data) && body == PadTo9(Layout(groups));
    BodyDecodes(frame, data, h, groups);
  }

  /** A compressed frame decodes to its data exactly when both lengths fit in 32 bits. */
  lemma CompressedDecodes(frame: seq<byte>, data: seq<byte>)
    requires data != [] && IsCompressedFrame(frame, data)
    ensures DecodeBlock(frame) == Ok(data) <==> |data| < TWO_TO_THE_32 && |frame| < TWO_TO_THE_32
  {
    var body :| IsBody(body, data) && frame == Header(true, HeaderSize(|data|) + |body|, |data|) + body;
    if |data| >= TWO_TO_THE_32 {
      HeaderReadsBack(frame, true, HeaderSize(|data|) + |body|, |data|, body);
      DecodeBlockSafe(frame);
    } else {
      CompressedOutcome(frame, data, body);
    }
  }

  /** The declared compressed size, less the true one. */
  lemma DeclaredEnd(size: nat, bodyLen: nat)
    requires size < TWO_TO_THE_32
    requires 9 <= bodyLen && (bodyLen <= 9 || bodyLen <= size + 4 * ((size + 30) / 31))
    ensures DeclaredTotal(HeaderSize(size) + bodyLen, size)
         == var total := HeaderSize(size) + bodyLen; if total < TWO_TO_THE_32 then total else total - TWO_TO_THE_32
  {
    var total := HeaderSize(size) + bodyLen;
    if size >= 216 && total >= TWO_TO_THE_32 {
      ModUnique(total, TWO_TO_THE_32, 1, total - TWO_TO_THE_32);
    } else if size >= 216 {
      SmallMod(total, TWO_TO_THE_32);
    }
  }

  lemma BodyDecodes(frame: seq<byte>, data: seq<byte>, h: nat, groups: seq<seq<Token>>)
    requires data != [] && |data| < TWO_TO_THE_32 && Codes(groups, data)
    requires h <= 9 && h <= |frame| && frame[h..] == PadTo9(Layout(groups))
    requires SizeHeader(frame) == h
    requires SizeCompressed(frame) == if |frame| < TWO_TO_THE_32 then |frame| else |frame| - TWO_TO_THE_32
    ensures DecodeCore(frame, |data|) == if |frame| < TWO_TO_THE_32 then Ok(data) else Corrupt
  {
    hide DecodeFrom, Fits, Grouped, Layout, Flatten, SizeHeader, SizeCompressed, WordOf, ReadLE;
    var end := h + |Layout(groups)|;
    var last := SizeCompressed(frame) - 1;
    assert frame[h..end] == frame[h..][..|Layout(groups)|] == Layout(groups);
    assert [] + Flatten(groups) == Flatten(groups);
    assert Payload([]) + Layout(groups) == Layout(groups);
    assert InStep(frame, data, end, h, 0, [], 0, groups);
    WordOfNext([], 0);
    assert data[..0] == [];
    DecodeInStep(frame, data, end, last, h, 0, [], 0, groups);
  }

  /** What the compressor emits decodes to its block exactly when the block's length fits the 32-bit
      header field: whenever it does, the frame's length does too. */
  lemma EmittedDecodes(frame: seq<byte>, data: seq<byte>)
    requires data != [] && (IsKeptFrame(frame, data) || IsStoredFrame(frame, data))
    ensures DecodeBlock(frame) == Ok(data) <==> |data| < TWO_TO_THE_32
  {
    hide DecodeBlock, IsKeptFrame, IsStoredFrame, IsCompressedFrame;
    if IsStoredFrame(frame, data) {
      StoredDecodes(frame, data);
    } else {
      KeptIsCompressed(frame, data);
      CompressedDecodes(frame, data);
      if |data| < TWO_TO_THE_32 {
        KeptFrameFits(frame, data);
      }
    }
  }

  /** The round trip: for every non-empty block, decompressing what compressing it gives returns the
      block if and only if its length is below 2^32. */
  method RoundTrip(data: seq<byte>) returns (frame: seq<byte>, r: Outcome)
    requires data != []
    ensures IsOutput(frame, data)
    ensures r == Ok(data) <==> |data| < TWO_TO_THE_32
  {
    hide DecodeBlock, IsKeptFrame, IsStoredFrame, PoorRatio;
    frame := CompressBlock(data);
    r := DecompressBlock(frame);
    EmittedDecodes(frame, data);
  }

  /** Even a frame whose compressor never bailed out decodes to its block, up to 3.8 GB. */
  lemma FrameDecodes(frame: seq<byte>, data: seq<byte>)
    requires data != [] && |data| <= 3_800_000_000
    requires IsCompressedFrame(frame, data) || IsStoredFrame(frame, data)
    ensures DecodeBlock(frame) == Ok(data)
  {
    if IsStoredFrame(frame, data) {
      StoredDecodes(frame, data);
    } else {
      var body :| IsBody(body, data) && frame == Header(true, HeaderSize(|data|) + |body|, |data|) + body;
      BodySize(body, data);
      CompressedDecodes(frame, data);
    }
  }
}
