/** The level-3 compressor: a hash table proposes matches, tokens are appended to the output and
    control words are filled in as their groups complete. */
module QuickLzEncode {
  import opened Bytes
  import opened QuickLzFormat
  import opened QuickLzSearch
  import opened QuickLzRatio

  /** The compressor's hash table: for each hash the last 16 positions, and a byte counter that
      wraps. */
  class HashTable {
    const offset: array2<nat>
    const hashCounter: array<byte>

    ghost predicate Valid() {
      && offset.Length0 == HASH_VALUES && offset.Length1 == POINTERS
      && hashCounter.Length == HASH_VALUES
    }

    constructor ()
      ensures Valid() && fresh(offset) && fresh(hashCounter)
      ensures forall h :: 0 <= h < HASH_VALUES ==> hashCounter[h] == 0
    {
      offset := new nat[HASH_VALUES, POINTERS]((i, j) => 0);
      hashCounter := new byte[HASH_VALUES](i => 0);
    }

    /** Remember that `hash` was seen at `pos`. */
    method Record(hash: nat, pos: nat)
      requires Valid() && hash < HASH_VALUES
      modifies offset, hashCounter
      ensures hashCounter[hash] == (old(hashCounter[hash]) as int + 1) % 256
      ensures offset[hash, old(hashCounter[hash]) % POINTERS] == pos
      ensures forall h :: 0 <= h < HASH_VALUES && h != hash ==> hashCounter[h] == old(hashCounter[h])
      ensures forall h, k | 0 <= h < HASH_VALUES && 0 <= k < POINTERS ::
                (h != hash || k != old(hashCounter[hash]) % POINTERS) ==> offset[h, k] == old(offset[h, k])
    {
      var c := hashCounter[hash];
      offset[hash, c % POINTERS] := pos;
      hashCounter[hash] := (c as int + 1) % 256;
    }
  }

  // ----- What the table holds -----

  /** The positions stored for `hash`. */
  function Slots(table: HashTable, hash: nat): (s: seq<nat>)
    requires table.Valid() && hash < HASH_VALUES
    reads table.offset
    ensures |s| == POINTERS && forall k :: 0 <= k < POINTERS ==> s[k] == table.offset[hash, k]
  {
    seq(POINTERS, k requires 0 <= k < POINTERS reads table.offset => table.offset[hash, k])
  }

  /** The counter is the number of positions seen, in a byte, and the slots are the last 16 of them. */
  ghost predicate HoldsLast(counter: byte, slots: seq<nat>, seen: seq<nat>) {
    && |slots| == POINTERS && counter == |seen| % 256
    && forall j: nat :: j < |seen| <= j + POINTERS ==> slots[j % POINTERS] == seen[j]
  }

  lemma SlotIndex(count: nat, c: nat)
    requires c == count % 256
    ensures c % POINTERS == count % POINTERS && (c + 1) % 256 == (count + 1) % 256
  {
    var q := count / 256;
    assert count == 16 * (16 * q) + c;
    ModUnique(count, POINTERS, 16 * q + c / 16, c % 16);
    if c < 255 {
      ModUnique(count + 1, 256, q, c + 1);
    } else {
      ModUnique(count + 1, 256, q + 1, 0);
    }
  }

  lemma OtherSlot(count: nat, j: nat)
    requires j < count < j + POINTERS
    ensures j % POINTERS != count % POINTERS
  {
  }

  lemma HoldsAppend(counter: byte, slots: seq<nat>, seen: seq<nat>, pos: nat)
    requires HoldsLast(counter, slots, seen)
    ensures HoldsLast((counter + 1) % 256, slots[counter % POINTERS := pos], seen + [pos])
  {
    SlotIndex(|seen|, counter);
    forall j: nat | j < |seen| + 1 <= j + POINTERS
      ensures slots[counter % POINTERS := pos][j % POINTERS] == (seen + [pos])[j] {
      if j < |seen| {
        OtherSlot(|seen|, j);
      }
    }
  }

  /** For each hash the table holds the last 16 positions before `n` with that hash, and their number. */
  ghost predicate TableIs(table: HashTable, data: seq<byte>, n: nat)
    requires table.Valid()
    reads table.offset, table.hashCounter
  {
    forall h :: 0 <= h < HASH_VALUES ==> HoldsLast(table.hashCounter[h], Slots(table, h), Seen(data, n, h))
  }

  lemma TableAt(table: HashTable, data: seq<byte>, n: nat, h: nat)
    requires table.Valid() && TableIs(table, data, n) && h < HASH_VALUES
    ensures HoldsLast(table.hashCounter[h], Slots(table, h), Seen(data, n, h))
  {
    hide HoldsLast, Seen;
  }

  lemma TableStart(table: HashTable, data: seq<byte>)
    requires table.Valid() && forall h :: 0 <= h < HASH_VALUES ==> table.hashCounter[h] == 0
    ensures TableIs(table, data, 0)
  {
  }

  /** The loop's bound on the slots is the bound on the positions looked at. */
  lemma SlotLookedAt(counter: byte, slots: seq<nat>, seen: seq<nat>, k: nat) returns (j: nat)
    requires HoldsLast(counter, slots, seen) && k < POINTERS && k < counter
    ensures j < |seen| && LookedAt(|seen|, j) && slots[k] == seen[j]
  {
    var n := |seen| - 1;
    j := n - (n - k) % POINTERS;
    SlotOf(n, k);
  }

  lemma SlotOf(n: nat, k: nat)
    requires k < POINTERS && k <= n
    ensures var j := n - (n - k) % POINTERS; 0 <= j <= n < j + POINTERS && j % POINTERS == k
  {
  }

  /** What is in the slots the search looks at is what is offered. */
  lemma SlotsAreOffered(data: seq<byte>, src: nat, counter: byte, slots: seq<nat>)
    requires HoldsLast(counter, slots, Seen(data, src, HashAt(data, src)))
    ensures forall k :: 0 <= k < POINTERS && k < counter ==> Offered(data, src, slots[k])
    ensures forall p :: Offered(data, src, p) ==> exists k :: 0 <= k < POINTERS && k < counter && slots[k] == p
  {
    hide HashAt, Seen;
    var seen := Seen(data, src, HashAt(data, src));
    forall k | 0 <= k < POINTERS && k < counter ensures Offered(data, src, slots[k]) {
      var j := SlotLookedAt(counter, slots, seen, k);
    }
    forall p | Offered(data, src, p) ensures exists k :: 0 <= k < POINTERS && k < counter && slots[k] == p {
      var j: nat :| j < |seen| && LookedAt(|seen|, j) && seen[j] == p;
      assert slots[j % POINTERS] == p;
    }
  }

  /** Record position `pos` under its hash. */
  method RecordAt(table: HashTable, data: seq<byte>, pos: nat)
    requires table.Valid() && TableIs(table, data, pos)
    modifies table.offset, table.hashCounter
    ensures TableIs(table, data, pos + 1)
  {
    hide HashFunc, Read3, HoldsLast;
    var hash := HashFunc(Read3(data, pos));
    ghost var c, slots := table.hashCounter[hash], Slots(table, hash);
    HoldsAppend(c, slots, Seen(data, pos, hash), pos);
    label before:
    table.Record(hash, pos);
    forall h | 0 <= h < HASH_VALUES
      ensures HoldsLast(table.hashCounter[h], Slots(table, h), Seen(data, pos + 1, h))
    {
      if h == hash {
        assert Slots(table, h) == slots[c % POINTERS := pos];
      } else {
        assert Slots(table, h) == old@before(Slots(table, h));
      }
    }
  }

  // ----- The search -----

  /** The match so far is none, or one the decoder can replay. */
  ghost predicate Usable(data: seq<byte>, src: nat, cap: nat, len: nat, o: nat) {
    len == 0 || (3 <= len <= cap && o + MIN_OFFSET < src && Repeats(data, o, src, len))
  }

  ghost predicate IsRun(data: seq<byte>, o: nat, src: nat, cap: nat, len: nat)
    requires 3 <= cap
  {
    Candidate(data, o, src) && len == MatchRun(data, o, src, 3, cap)
  }

  method ExtendMatch(data: seq<byte>, o: nat, src: nat, cap: nat) returns (m: nat)
    requires Candidate(data, o, src) && 3 <= cap && src + cap <= |data|
    ensures IsRun(data, o, src, cap, m) && Usable(data, src, cap, m, o) && m >= 3
  {
    hide Candidate, MatchRun, Repeats;
    ThreeRepeat(data, o, src);
    m := 3;
    while m < cap && ByteAt(data, o + m) == ByteAt(data, src + m)
      invariant 3 <= m <= cap
      invariant Repeats(data, o, src, m)
      invariant MatchRun(data, o, src, m, cap) == MatchRun(data, o, src, 3, cap)
    {
      OneMoreRepeats(data, o, src, m, cap);
      m := m + 1;
    }
    RunEnds(data, o, src, m, cap);
  }

  lemma ThreeRepeat(data: seq<byte>, o: nat, src: nat)
    requires Candidate(data, o, src) && src + 3 <= |data|
    ensures Repeats(data, o, src, 3) && o + MIN_OFFSET < src
  {
    hide Read3;
    Read3Injective(data, o, src);
  }

  lemma OneMoreRepeats(data: seq<byte>, o: nat, src: nat, m: nat, cap: nat)
    requires m < cap && src + cap <= |data| && Repeats(data, o, src, m) && ByteAt(data, o + m) == ByteAt(data, src + m)
    ensures Repeats(data, o, src, m + 1) && MatchRun(data, o, src, m, cap) == MatchRun(data, o, src, m + 1, cap)
  {
  }

  lemma RunEnds(data: seq<byte>, o: nat, src: nat, m: nat, cap: nat)
    requires m <= cap && (m == cap || ByteAt(data, o + m) != ByteAt(data, src + m))
    ensures MatchRun(data, o, src, m, cap) == m
  {
  }

  /** No candidate in the first `n` slots is better than `(len, o)`. */
  ghost predicate Best(data: seq<byte>, slots: seq<nat>, n: nat, src: nat, cap: nat, len: nat, o: nat)
    requires n <= |slots| && 3 <= cap
  {
    forall k :: 0 <= k < n ==> NoBetter(data, slots[k], src, cap, len, o)
  }

  /** The match so far is none, or the run of a candidate in the first `n` slots. */
  ghost predicate Found(data: seq<byte>, slots: seq<nat>, n: nat, src: nat, cap: nat, len: nat, o: nat)
    requires n <= |slots| && 3 <= cap
  {
    len == 0 || exists k :: 0 <= k < n && slots[k] == o && IsRun(data, o, src, cap, len)
  }

  /** How many slots the search looks at. */
  function Looked(c: nat): nat {
    if c < POINTERS then c else POINTERS
  }

  predicate AsGood(m: nat, p: nat, len: nat, o: nat) {
    m < len || (m == len && p <= o)
  }

  /** One more slot was looked at. */
  lemma SearchStep(data: seq<byte>, slots: seq<nat>, n: nat, src: nat, cap: nat, len: nat, o: nat, m: nat, p: nat)
    requires n < |slots| && 3 <= cap
    requires Best(data, slots, n, src, cap, len, o) && Found(data, slots, n, src, cap, len, o)
    requires (m == len && p == o) || (p == slots[n] && IsRun(data, p, src, cap, m))
    requires AsGood(len, o, m, p)
    requires Candidate(data, slots[n], src) ==> AsGood(MatchRun(data, slots[n], src, 3, cap), slots[n], m, p)
    ensures Best(data, slots, n + 1, src, cap, m, p) && Found(data, slots, n + 1, src, cap, m, p)
  {
    hide Candidate, MatchRun;
  }

  /** The candidate search.  Any table contents will do: each candidate is checked. */
  method FindMatch(data: seq<byte>, slots: seq<nat>, c: nat, src: nat, cap: nat) returns (matchlen: nat, offset2: nat)
    requires |slots| == POINTERS && 4 <= cap && src + cap <= |data|
    ensures Usable(data, src, cap, matchlen, offset2) && (matchlen > 0 ==> matchlen >= 3)
    ensures Best(data, slots, Looked(c), src, cap, matchlen, offset2)
    ensures Found(data, slots, Looked(c), src, cap, matchlen, offset2)
  {
    hide MatchRun, Usable, Candidate, Best, Found;
    matchlen, offset2 := 0, 0;
    StartSearch(data, slots, src, cap);
    if c > 0 && Candidate(data, slots[0], src) {
      matchlen := ExtendMatch(data, slots[0], src, cap);
      offset2 := slots[0];
    }
    if c > 0 {
      SearchStep(data, slots, 0, src, cap, 0, 0, matchlen, offset2);
    }
    var k := 1;
    while k < POINTERS && c > k
      invariant 1 <= k <= POINTERS && (k <= c || k == 1)
      invariant Usable(data, src, cap, matchlen, offset2) && (matchlen > 0 ==> matchlen >= 3)
      invariant Best(data, slots, if c < k then c else k, src, cap, matchlen, offset2)
      invariant Found(data, slots, if c < k then c else k, src, cap, matchlen, offset2)
    {
      var o := slots[k];
      ghost var len', o' := matchlen, offset2;
      if Candidate(data, o, src) {
        var m := ExtendMatch(data, o, src, cap);
        if m > matchlen || (m == matchlen && o > offset2) {
          offset2, matchlen := o, m;
        }
      }
      SearchStep(data, slots, k, src, cap, len', o', matchlen, offset2);
      k := k + 1;
    }
  }

  lemma StartSearch(data: seq<byte>, slots: seq<nat>, src: nat, cap: nat)
    requires 3 <= cap
    ensures Usable(data, src, cap, 0, 0)
    ensures Best(data, slots, 0, src, cap, 0, 0) && Found(data, slots, 0, src, cap, 0, 0)
  {
  }

  /** The search of the slots finds the best of the positions offered. */
  lemma FoundIsChosen(data: seq<byte>, src: nat, counter: byte, slots: seq<nat>, len: nat, o: nat)
    requires src <= LastMatchStart(|data|) && HoldsLast(counter, slots, Seen(data, src, HashAt(data, src)))
    requires Best(data, slots, Looked(counter), src, Cap(|data|, src), len, o)
    requires Found(data, slots, Looked(counter), src, Cap(|data|, src), len, o)
    requires len > 0 ==> 2 < len && o < src
    ensures Chosen(if len > 2 then TokenFor(data, src, o, len) else Lit(data[src]), data, src)
  {
    hide Offered, HoldsLast, Seen, HashAt, MatchRun, Candidate, TokenFor;
    SlotsAreOffered(data, src, counter, slots);
    if len > 0 {
      assert BestMatch(data, src, o, len);
      assert IsBestToken(TokenFor(data, src, o, len), data, src, o, len);
    }
  }

  /** One turn of the main loop's search: the token that belongs at `src`. */
  method ChooseToken(table: HashTable, data: seq<byte>, src: nat) returns (t: Token)
    requires table.Valid() && src <= LastMatchStart(|data|) && TableIs(table, data, src)
    modifies table.offset, table.hashCounter
    ensures TokenFits(t, data, src) && Chosen(t, data, src)
    ensures TableIs(table, data, src + Span(t))
  {
    hide HashFunc, Read3, HoldsLast, Seen, Best, Found, Chosen, TableIs;
    var hash := HashFunc(Read3(data, src));
    var c := table.hashCounter[hash];
    var remaining := |data| - 1 - UNCOMP_END - src + 1;
    if remaining > 255 {
      remaining := 255;
    }
    var slots := Slots(table, hash);
    TableAt(table, data, src, hash);
    var matchlen, offset2 := FindMatch(data, slots, c, src, remaining);
    FoundIsChosen(data, src, c, slots, matchlen, offset2);
    RecordAt(table, data, src);
    if matchlen > 2 && src - offset2 < 131071 {
      RecordMatched(table, data, src, matchlen);
      t := Match(src - offset2, matchlen);
    } else {
      t := Lit(data[src]);
    }
  }

  // ----- The output under construction -----

  /** After `src` bytes: `done` are the finished groups, `cur` the group whose control word is
      still the placeholder at `cwordIdx`. */
  ghost predicate Emitted(data: seq<byte>, src: nat, dst: seq<byte>, cwordIdx: nat, cword: nat,
                          done: seq<seq<Token>>, cur: seq<Token>) {
    && FullGroups(done) && Codable(cur) && |cur| <= 31
    && Fits(Flatten(done) + cur, data, 0, src)
    && cwordIdx + CWORD_LEN <= |dst|
    && dst[..cwordIdx] == Layout(done)
    && dst[cwordIdx + CWORD_LEN..] == Payload(cur)
    && RunningWord(cword, cur)
  }

  lemma EmitToken(data: seq<byte>, src: nat, dst: seq<byte>, cwordIdx: nat, cword: nat,
                  done: seq<seq<Token>>, cur: seq<Token>, t: Token)
    requires Emitted(data, src, dst, cwordIdx, cword, done, cur) && |cur| < 31
    requires TokenFits(t, data, src)
    ensures Emitted(data, src + Span(t), dst + TokenBytes(t), cwordIdx,
                    cword / 2 + (if t.Match? then TOP_BIT else 0), done, cur + [t])
  {
    hide RunningWord, Fits, Flatten, Payload, Layout, TokenBytes, Span;
    assert forall i :: 0 <= i < |cur + [t]| ==> (cur + [t])[i] == if i < |cur| then cur[i] else t;
    PayloadAppend(cur, t);
    RunningWordStep(cword, cur, t);
    FitsAppend(Flatten(done) + cur, t, data, 0, src);
    assert Flatten(done) + (cur + [t]) == (Flatten(done) + cur) + [t];
    var d := dst + TokenBytes(t);
    assert d[..cwordIdx] == dst[..cwordIdx];
    assert d[cwordIdx + CWORD_LEN..] == dst[cwordIdx + CWORD_LEN..] + TokenBytes(t);
  }

  /** The control word as written: the running word, its sentinel shifted out, bit 31 set. */
  lemma WrittenWord(cword: nat, cur: seq<Token>)
    requires RunningWord(cword, cur) && |cur| == 31
    ensures cword / 2 + TOP_BIT == WordOf(cur, 0)
  {
    ShlParity(FlagValue(cur), 0);
    RunningWordDone(cur);
  }

  method FlushWord(ghost data: seq<byte>, ghost src: nat, dst: seq<byte>, cwordIdx: nat, cword: nat,
                   ghost done: seq<seq<Token>>, ghost cur: seq<Token>)
    returns (dst': seq<byte>, cwordIdx': nat, cword': nat)
    requires Emitted(data, src, dst, cwordIdx, cword, done, cur) && |cur| == 31
    ensures Emitted(data, src, dst', cwordIdx', cword', done + [cur], [])
    ensures |dst'| == |dst| + CWORD_LEN
  {
    var filled := dst[..cwordIdx] + LE(cword / 2 + TOP_BIT, CWORD_LEN) + dst[cwordIdx + CWORD_LEN..];
    cwordIdx' := |filled|;
    dst' := filled + [0, 0, 0, 0];
    cword' := TOP_BIT;
    WrittenWord(cword, cur);
    Regroup(Layout(done), LE(WordOf(cur, 0), CWORD_LEN), Payload(cur));
    FlushEmitted(data, src, filled, done, cur);
  }

  /** After a flush: a fresh placeholder and a fresh running word. */
  lemma FlushEmitted(data: seq<byte>, src: nat, filled: seq<byte>, done: seq<seq<Token>>, cur: seq<Token>)
    requires FullGroups(done) && Codable(cur) && |cur| == 31 && Fits(Flatten(done) + cur, data, 0, src)
    requires filled == Layout(done) + GroupBytes(cur)
    ensures Emitted(data, src, filled + [0, 0, 0, 0], |filled|, TOP_BIT, done + [cur], [])
  {
    hide RunningWord, Fits, WordOf, GroupBytes;
    LayoutAppend(done, cur);
    var groups, dst := done + [cur], filled + [0, 0, 0, 0];
    assert FullGroups(groups);
    assert dst[..|filled|] == filled == Layout(groups);
    assert dst[|filled| + CWORD_LEN..] == [] == Payload([]);
    assert Flatten(done + [cur]) + [] == Flatten(done) + cur;
    StartWord();
  }

  lemma StartEmitted(data: seq<byte>)
    ensures Emitted(data, 0, [0, 0, 0, 0], 0, TOP_BIT, [], [])
  {
    StartWord();
    assert Flatten([]) + [] == [];
  }

  /** The loops' view of the state: the running word's low bit says when to flush. */
  lemma EmittedFull(data: seq<byte>, src: nat, dst: seq<byte>, cwordIdx: nat, cword: nat,
                    done: seq<seq<Token>>, cur: seq<Token>)
    requires Emitted(data, src, dst, cwordIdx, cword, done, cur)
    ensures |cur| <= 31 && (cword % 2 == 1 <==> |cur| == 31) && src <= |data|
  {
    RunningWordFull(cword, cur);
    FitsIsCodable(Flatten(done) + cur, data, 0, src);
  }

  lemma StartWord()
    ensures RunningWord(TOP_BIT, [])
  {
    ShlPow2(0, 31);
    Pow2Monotone(31, 31);
  }

  /** What the bail-out looks at when a group is full: how much is coded, and in how many bytes. */
  lemma FullGroup(data: seq<byte>, src: nat, dst: seq<byte>, cwordIdx: nat, cword: nat,
                  done: seq<seq<Token>>, cur: seq<Token>)
    requires Emitted(data, src, dst, cwordIdx, cword, done, cur) && |cur| == 31
    ensures FullGroups(done) && Codable(cur)
    ensures FullGroups(done + [cur]) && Fits(Flatten(done + [cur]), data, 0, src)
    ensures TotalSpan(Flatten(done + [cur])) == src
    ensures Poor(done + [cur], |data|) <==> src <= LastMatchStart(|data|) && TooLong(|data|, src, |dst|)
  {
    hide Fits, RunningWord, TooLong, TotalSpan;
    LayoutAppend(done, cur);
    FitsSpan(Flatten(done + [cur]), data, 0, src);
    assert |Layout(done + [cur])| == |dst|;
  }

  /** Where the data ends no bail-out is due. */
  lemma LastGroup(data: seq<byte>, done: seq<seq<Token>>, cur: seq<Token>)
    requires FullGroups(done) && Codable(cur) && 1 <= |cur| <= 31 && Fits(Flatten(done) + cur, data, 0, |data|)
    ensures !Poor(done + [cur], |data|)
  {
    hide Fits, TotalSpan;
    LayoutAppend(done, cur);
    FitsSpan(Flatten(done + [cur]), data, 0, |data|);
  }

  /** The inner loop that records every position a match covers. */
  method RecordMatched(table: HashTable, data: seq<byte>, src: nat, matchlen: nat)
    requires table.Valid() && matchlen >= 1 && TableIs(table, data, src + 1)
    modifies table.offset, table.hashCounter
    ensures TableIs(table, data, src + matchlen)
  {
    hide TableIs;
    var u := 1;
    while u < matchlen
      invariant 1 <= u <= matchlen && TableIs(table, data, src + u)
    {
      RecordAt(table, data, src + u);
      u := u + 1;
    }
  }

  method AppendLE(dst: seq<byte>, f: nat, n: nat) returns (r: seq<byte>)
    ensures r == dst + LE(f, n)
  {
    r := dst;
    var rest := f;
    for k := 0 to n
      invariant r + LE(rest, n - k) == dst + LE(f, n)
    {
      r := r + [rest % 256];
      rest := rest / 256;
    }
  }

  method AppendMatch(dst: seq<byte>, offset: nat, matchlen: nat) returns (r: seq<byte>)
    requires matchlen >= 3
    ensures r == dst + TokenBytes(Match(offset, matchlen))
  {
    if matchlen == 3 && offset <= 63 {
      r := AppendLE(dst, offset * 4, 1);
    } else if matchlen == 3 && offset <= 16383 {
      r := AppendLE(dst, offset * 4 + 1, 2);
    } else if matchlen <= 18 && offset <= 1023 {
      r := AppendLE(dst, (matchlen - 3) * 4 + offset * 64 + 2, 2);
    } else if matchlen <= 33 {
      r := AppendLE(dst, (matchlen - 2) * 4 + offset * 128 + 3, 3);
    } else {
      r := AppendLE(dst, (matchlen - 3) * 128 + offset * 32768 + 3, 4);
    }
  }

  /** Opening a new group changes no token. */
  lemma SameTokens(done: seq<seq<Token>>, cur: seq<Token>)
    requires FullGroups(done) && Codable(cur) && |cur| == 31
    ensures Flatten(done + [cur]) + [] == Flatten(done) + cur
  {
    LayoutAppend(done, cur);
  }

  lemma MoreGreedy(data: seq<byte>, src: nat, dst: seq<byte>, cwordIdx: nat, cword: nat,
                   done: seq<seq<Token>>, cur: seq<Token>, t: Token)
    requires Emitted(data, src, dst, cwordIdx, cword, done, cur) && Greedy(Flatten(done) + cur, data, 0)
    requires src < |data| && Chosen(t, data, src)
    ensures Greedy(Flatten(done) + (cur + [t]), data, 0)
  {
    hide Fits, Greedy, Chosen, RunningWord, Layout, Payload, FullGroups;
    GreedyAppend(Flatten(done) + cur, t, data, 0, src);
    assert Flatten(done) + (cur + [t]) == (Flatten(done) + cur) + [t];
  }

  /** The last control word goes into its slot and the body is padded to 9 bytes. */
  method FinishBody(data: seq<byte>, dst: seq<byte>, cwordIdx: nat, cword: nat,
                    ghost done: seq<seq<Token>>, ghost cur: seq<Token>) returns (body: seq<byte>)
    requires Emitted(data, |data|, dst, cwordIdx, cword, done, cur) && cur != [] && NeverPoor(done, |data|)
    requires Greedy(Flatten(done) + cur, data, 0)
    ensures IsKeptBody(body, data)
  {
    hide Emitted, FlagValue, Poor, NeverPoor, Greedy, IsKeptBody, WordOf;
    RunningWordOf(data, dst, cwordIdx, cword, done, cur);
    var shifted := cword;
    ghost var m := 31 - |cur|;
    ShlParity(FlagValue(cur), m);
    while shifted % 2 != 1
      invariant 0 <= m && shifted == Shl(2 * FlagValue(cur) + 1, m)
      invariant shifted % 2 == 1 <==> m == 0
      decreases m
    {
      ShlParity(FlagValue(cur), m);
      ShlParity(FlagValue(cur), m - 1);
      shifted, m := shifted / 2, m - 1;
    }
    RunningWordDone(cur);
    body := dst[..cwordIdx] + LE(shifted / 2 + TOP_BIT, CWORD_LEN) + dst[cwordIdx + CWORD_LEN..];
    ghost var unpadded := body;
    while |body| < 9
      invariant PadTo9(body) == PadTo9(unpadded)
    {
      body := body + [0];
    }
    FilledIsKept(data, dst, cwordIdx, cword, done, cur);
  }

  lemma RunningWordOf(data: seq<byte>, dst: seq<byte>, cwordIdx: nat, cword: nat,
                      done: seq<seq<Token>>, cur: seq<Token>)
    requires Emitted(data, |data|, dst, cwordIdx, cword, done, cur)
    ensures RunningWord(cword, cur) && cwordIdx + CWORD_LEN <= |dst|
  {
    hide RunningWord, Fits;
  }

  /** With its last control word filled in and padded, the output is a kept body. */
  lemma FilledIsKept(data: seq<byte>, dst: seq<byte>, cwordIdx: nat, cword: nat,
                     done: seq<seq<Token>>, cur: seq<Token>)
    requires Emitted(data, |data|, dst, cwordIdx, cword, done, cur) && cur != [] && NeverPoor(done, |data|)
    requires Greedy(Flatten(done) + cur, data, 0)
    ensures var word := LE(WordOf(cur, 31 - |cur|), CWORD_LEN);
            IsKeptBody(PadTo9(dst[..cwordIdx] + word + dst[cwordIdx + CWORD_LEN..]), data)
  {
    hide Emitted, Codes, Layout, Payload, Flatten, Poor, NeverPoor, Greedy, WordOf, LE, PadTo9, IsKeptBody;
    FilledLayout(data, dst, cwordIdx, cword, done, cur);
    LastGroup(data, done, cur);
    NeverPoorAppend(done, cur, |data|);
    CodesIsKept(done + [cur], data);
  }

  lemma CodesIsKept(groups: seq<seq<Token>>, data: seq<byte>)
    requires Codes(groups, data) && Greedy(Flatten(groups), data, 0) && NeverPoor(groups, |data|)
    ensures IsKeptBody(PadTo9(Layout(groups)), data)
  {
    hide Greedy, NeverPoor, Layout, PadTo9, Flatten, Fits;
    assert CodesWell(groups, data);
  }

  lemma FilledLayout(data: seq<byte>, dst: seq<byte>, cwordIdx: nat, cword: nat,
                     done: seq<seq<Token>>, cur: seq<Token>)
    requires Emitted(data, |data|, dst, cwordIdx, cword, done, cur) && cur != []
    ensures FullGroups(done) && Codable(cur) && 1 <= |cur| <= 31 && Fits(Flatten(done) + cur, data, 0, |data|)
    ensures Codes(done + [cur], data) && Flatten(done + [cur]) == Flatten(done) + cur
    ensures var word := LE(WordOf(cur, 31 - |cur|), CWORD_LEN);
            dst[..cwordIdx] + word + dst[cwordIdx + CWORD_LEN..] == Layout(done + [cur])
  {
    hide Fits, Flatten, WordOf, LE, RunningWord;
    LayoutAppend(done, cur);
    Regroup(Layout(done), LE(WordOf(cur, 31 - |cur|), CWORD_LEN), Payload(cur));
  }

  /** The second loop: the remaining bytes as literals, then the final control word. */
  method CompressTail(data: seq<byte>, src0: nat, dst0: seq<byte>, cwordIdx0: nat, cword0: nat,
                      ghost done0: seq<seq<Token>>, ghost cur0: seq<Token>) returns (body: seq<byte>)
    requires |data| > 0 && (src0 > 0 ==> cur0 != [])
    requires Emitted(data, src0, dst0, cwordIdx0, cword0, done0, cur0)
    requires src0 > LastMatchStart(|data|) && NeverPoor(done0, |data|) && Greedy(Flatten(done0) + cur0, data, 0)
    ensures IsKeptBody(body, data)
  {
    hide Emitted, NeverPoor, Poor, IsKeptBody, Fits, FullGroups, Flatten, Greedy;
    var src: nat, dst, cwordIdx: nat, cword: nat := src0, dst0, cwordIdx0, cword0;
    ghost var done, cur := done0, cur0;
    EmittedFull(data, src, dst, cwordIdx, cword, done, cur);
    while src < |data|
      invariant LastMatchStart(|data|) < src <= |data| && (src > 0 ==> cur != [])
      invariant Emitted(data, src, dst, cwordIdx, cword, done, cur) && NeverPoor(done, |data|)
      invariant Greedy(Flatten(done) + cur, data, 0)
    {
      EmittedFull(data, src, dst, cwordIdx, cword, done, cur);
      if cword % 2 == 1 {
        FullGroup(data, src, dst, cwordIdx, cword, done, cur);
        NeverPoorAppend(done, cur, |data|);
        dst, cwordIdx, cword := FlushWord(data, src, dst, cwordIdx, cword, done, cur);
        SameTokens(done, cur);
        done, cur := done + [cur], [];
      }
      MoreGreedy(data, src, dst, cwordIdx, cword, done, cur, Lit(data[src]));
      EmitToken(data, src, dst, cwordIdx, cword, done, cur, Lit(data[src]));
      cur := cur + [Lit(data[src])];
      dst := dst + [data[src]];
      src := src + 1;
      cword := cword / 2;
    }
    body := FinishBody(data, dst, cwordIdx, cword, done, cur);
  }

  /** Append a token and shift its flag in. */
  method PutToken(ghost data: seq<byte>, src: nat, dst: seq<byte>, ghost cwordIdx: nat, cword: nat,
                  ghost done: seq<seq<Token>>, ghost cur: seq<Token>, t: Token)
    returns (src': nat, dst': seq<byte>, cword': nat)
    requires Emitted(data, src, dst, cwordIdx, cword, done, cur) && |cur| < 31 && TokenFits(t, data, src)
    ensures Emitted(data, src', dst', cwordIdx, cword', done, cur + [t])
    ensures src' == src + Span(t) && src' > src
  {
    hide Emitted;
    EmitToken(data, src, dst, cwordIdx, cword, done, cur, t);
    if t.Match? {
      cword' := cword / 2 + TOP_BIT;
      src' := src + t.len;
      dst' := AppendMatch(dst, t.offset, t.len);
    } else {
      dst' := dst + [t.b];
      src' := src + 1;
      cword' := cword / 2;
    }
  }

  lemma NothingGreedy(data: seq<byte>)
    ensures Greedy(Flatten([]) + [], data, 0)
  {
  }

  lemma IsPoor(data: seq<byte>, done: seq<seq<Token>>, cur: seq<Token>)
    requires var groups := done + [cur];
             && FullGroups(groups) && Fits(Flatten(groups), data, 0, TotalSpan(Flatten(groups)))
             && Poor(groups, |data|)
    requires Greedy(Flatten(done) + cur, data, 0) && FullGroups(done) && Codable(cur) && |cur| == 31
    ensures PoorRatio(data)
  {
    hide Fits, Greedy, Poor, TotalSpan, Flatten;
    SameTokens(done, cur);
    assert Flatten(done + [cur]) + [] == Flatten(done + [cur]);
    assert CodesPoorly(done + [cur], data);
  }

  /** The bail-out is exact: a body that is kept was never poor, and one that is not was. */
  method CompressCore(data: seq<byte>) returns (body: seq<byte>, compressed: bool)
    requires |data| > 0
    ensures compressed ==> IsKeptBody(body, data)
    ensures !compressed ==> PoorRatio(data)
  {
    hide Emitted, TableIs, TokenFits, IsKeptBody, NeverPoor, Poor, Fits, FullGroups, Flatten, TotalSpan, Greedy, Chosen;
    var size := |data|;
    var table := new HashTable();
    var dst: seq<byte> := [0, 0, 0, 0];
    var cwordIdx: nat, cword: nat, src: nat := 0, TOP_BIT, 0;
    var lastMatchstart := size - 1 - UNCOND_MATCH - UNCOMP_END;
    ghost var done: seq<seq<Token>>, cur: seq<Token> := [], [];
    StartEmitted(data);
    TableStart(table, data);
    NothingGreedy(data);
    NothingPoor(size);
    while src <= lastMatchstart
      invariant table.Valid() && fresh(table.offset) && fresh(table.hashCounter)
      invariant src > 0 ==> cur != []
      invariant TableIs(table, data, src)
      invariant Emitted(data, src, dst, cwordIdx, cword, done, cur) && NeverPoor(done, size)
      invariant Greedy(Flatten(done) + cur, data, 0)
      decreases size - src
    {
      EmittedFull(data, src, dst, cwordIdx, cword, done, cur);
      if cword % 2 == 1 {
        FullGroup(data, src, dst, cwordIdx, cword, done, cur);
        if src > size / 2 && |dst| > src - src / 32 {
          IsPoor(data, done, cur);
          return [], false;
        }
        NeverPoorAppend(done, cur, size);
        dst, cwordIdx, cword := FlushWord(data, src, dst, cwordIdx, cword, done, cur);
        SameTokens(done, cur);
        done, cur := done + [cur], [];
      }
      var t := ChooseToken(table, data, src);
      MoreGreedy(data, src, dst, cwordIdx, cword, done, cur, t);
      src, dst, cword := PutToken(data, src, dst, cwordIdx, cword, done, cur, t);
      cur := cur + [t];
    }
    body := CompressTail(data, src, dst, cwordIdx, cword, done, cur);
    compressed := true;
  }

  method CompressBlock(data: seq<byte>) returns (out: seq<byte>)
    ensures data == [] ==> out == []
    ensures data != [] ==> IsOutput(out, data)
  {
    hide IsKeptBody, PoorRatio, Header, HeaderSize;
    if |data| == 0 {
      return [];
    }
    var body, compressed := CompressCore(data);
    if !compressed {
      body := data;
    }
    out := WriteHeader(compressed, |body|, |data|);
    out := out + body;
  }

  method WriteHeader(compressed: bool, bodyLen: nat, size: nat) returns (out: seq<byte>)
    ensures out == Header(compressed, HeaderSize(size) + bodyLen, size)
  {
    var base := 9;
    if size < 216 {
      base := 3;
    }
    var total := base + bodyLen;
    var flags := (if compressed then 1 else 0) + LEVEL * 4 + 64;
    if base == 3 {
      out := [flags, total % 256, size % 256];
    } else {
      out := [flags + 2];
      out := AppendLE(out, total % TWO_TO_THE_32, 4);
      out := AppendLE(out, size % TWO_TO_THE_32, 4);
    }
  }
}
