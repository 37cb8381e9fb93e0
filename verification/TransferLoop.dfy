/** A cache-served download from start to end, with both ends talking to each other. */
module TransferLoop {
  import opened Framing
  import opened Transfer

  /** Both ends, and what was delivered so far in either direction. */
  datatype Link = Link(r: Receiver, c: Cache, arrivals: seq<Msg>, requests: seq<Msg>)

  /** The next frame of the cache reaches the receiver. */
  function ToReceiver(l: Link): Link {
    if |l.arrivals| < |l.c.sent| then
      var m := l.c.sent[|l.arrivals|];
      l.(r := Receive(l.r, m), arrivals := l.arrivals + [m])
    else l
  }

  /** The receiver's next frame, after the command that started the download, reaches the cache. */
  function ToCache(file: Bytes, ps: nat, l: Link): Link {
    if 1 + |l.requests| < |l.r.sent| then
      var f := l.r.sent[1 + |l.requests|];
      l.(c := CacheStep(file, ps, l.c, f), requests := l.requests + [f])
    else l
  }

  /** n rounds of delivery, in order and without loss. */
  function Exchange(command: Msg, file: Bytes, md5hex: Bytes, ps: nat, n: nat): Link {
    if n == 0 then Link(DownloadStart(command), CacheRun(file, md5hex, ps, []), [], [])
    else ToCache(file, ps, ToReceiver(Exchange(command, file, md5hex, ps, n - 1)))
  }

  // ----- The exchange is a run of either end -----

  ghost predicate Consistent(command: Msg, file: Bytes, md5hex: Bytes, ps: nat, l: Link) {
    && l.r == DownloadRun(command, l.arrivals)
    && l.c == CacheRun(file, md5hex, ps, l.requests)
    && l.arrivals <= l.c.sent
  }

  lemma RoundConsistent(command: Msg, file: Bytes, md5hex: Bytes, ps: nat, l: Link)
    requires Consistent(command, file, md5hex, ps, l)
    ensures Consistent(command, file, md5hex, ps, ToCache(file, ps, ToReceiver(l)))
  {
    hide Receive, Reply;
    var t := ToReceiver(l);
    if |l.arrivals| < |l.c.sent| {
      var m := l.c.sent[|l.arrivals|];
      assert (l.arrivals + [m])[..|l.arrivals|] == l.arrivals;
    }
    if 1 + |t.requests| < |t.r.sent| {
      var f := t.r.sent[1 + |t.requests|];
      assert (t.requests + [f])[..|t.requests|] == t.requests;
    }
  }

  lemma {:induction false} ExchangeConsistent(command: Msg, file: Bytes, md5hex: Bytes, ps: nat, n: nat)
    ensures Consistent(command, file, md5hex, ps, Exchange(command, file, md5hex, ps, n))
  {
    if n > 0 {
      hide Consistent, ToCache, ToReceiver;
      ExchangeConsistent(command, file, md5hex, ps, n - 1);
      RoundConsistent(command, file, md5hex, ps, Exchange(command, file, md5hex, ps, n - 1));
    }
  }

  // ----- The exchange goes on to the end -----

  /** After k packets: the next one is asked for and on its way. */
  ghost predicate Reading(file: Bytes, ps: nat, l: Link, k: nat) {
    var total := CacheTotal(|file|, ps);
    && k < total <= MAX_UINT32
    && l.r.phase == ReadData(total, k + 1) && !l.c.done
    && |l.arrivals| == |l.requests| == k + 2 && |l.c.sent| == |l.r.sent| == k + 3
    && l.c.sent[k + 2] == DataFrame(file, ps, k + 1)
  }

  lemma FrameFields(file: Bytes, ps: nat, q: nat)
    requires 1 <= q <= MAX_UINT32
    ensures var m := DataFrame(file, ps, q); m.cmd == CMD_FILE_DATA && |m.data| >= 4 && Get32(m.data) == q
    ensures var m := Request(q); m.cmd == CMD_FILE_DATA && |m.data| >= 4 && Get32(m.data) == q
  {
    hide Get32, Put32, Chunk;
    Get32OfPut32(q, Chunk(file, ps, q));
    Get32OfPut32(q, []);
    assert Put32(q) + [] == Put32(q);
  }

  lemma ViewFields(file: Bytes, ps: nat)
    ensures var m := ViewFrame(file, ps);
            m.cmd == CMD_FILE_VIEW && |m.data| >= 6 && Get32(m.data) == CacheTotal(|file|, ps)
    ensures 1 <= CacheTotal(|file|, ps) <= MAX_UINT32
  {
    hide Get32, Put32;
    TotalFits(|file|, ps);
    Get32OfPut32(CacheTotal(|file|, ps), [LowByte(ps / 256), LowByte(ps)]);
  }

  /** The MD5, the view and the first packet. */
  lemma FirstRounds(command: Msg, file: Bytes, md5hex: Bytes, ps: nat)
    ensures Reading(file, ps, Exchange(command, file, md5hex, ps, 2), 0)
  {
    hide Get32, Put32, ViewFrame, DataFrame, Request, CacheTotal;
    ViewFields(file, ps);
    FrameFields(file, ps, 1);
    var l0 := Exchange(command, file, md5hex, ps, 0);
    var l1 := ToCache(file, ps, ToReceiver(l0));
    assert l1.r.phase == WaitView && l1.c.sent == [Msg(CMD_FILE_MD5, md5hex), ViewFrame(file, ps)];
    assert Exchange(command, file, md5hex, ps, 1) == l1;
    assert Exchange(command, file, md5hex, ps, 2) == ToCache(file, ps, ToReceiver(l1));
  }

  lemma NextRound(file: Bytes, ps: nat, l: Link, k: nat)
    requires Reading(file, ps, l, k)
    ensures var t := ToCache(file, ps, ToReceiver(l));
            if k + 1 < CacheTotal(|file|, ps) then Reading(file, ps, t, k + 1) else t.r.phase == Finished(Complete)
  {
    hide Get32, Put32, DataFrame, Request, CacheTotal;
    FrameFields(file, ps, k + 1);
    if k + 1 < CacheTotal(|file|, ps) {
      FrameFields(file, ps, k + 2);
    }
  }

  lemma {:induction false} Packets(command: Msg, file: Bytes, md5hex: Bytes, ps: nat, k: nat)
    requires k < CacheTotal(|file|, ps)
    ensures Reading(file, ps, Exchange(command, file, md5hex, ps, k + 2), k)
  {
    if k == 0 {
      FirstRounds(command, file, md5hex, ps);
    } else {
      hide Reading, ToCache, ToReceiver, CacheTotal, Exchange;
      Packets(command, file, md5hex, ps, k - 1);
      ExchangeNext(command, file, md5hex, ps, k + 1);
      NextRound(file, ps, Exchange(command, file, md5hex, ps, k + 1), k - 1);
    }
  }

  /** With delivery in order and without loss a download from the cache always completes, after one
      round for the MD5, one for the view and one for each packet announced; and what is written then is
      the file, exactly when its packets can be counted in 32 bits. */
  lemma DownloadCompletes(command: Msg, file: Bytes, md5hex: Bytes, ps: nat)
    requires ps > 0
    ensures var l := Exchange(command, file, md5hex, ps, CacheTotal(|file|, ps) + 2);
            && l.r.phase == Finished(Complete) && l.r.md5 == md5hex
            && (l.r.written == file <==> PacketsNeeded(|file|, ps) <= MAX_UINT32)
  {
    hide Reading, ToReceiver, ToCache, Exchange, CacheTotal, PacketsNeeded, DownloadRun, CacheRun, Consistent;
    var total := CacheTotal(|file|, ps);
    ViewFields(file, ps);
    Packets(command, file, md5hex, ps, total - 1);
    var before := Exchange(command, file, md5hex, ps, total + 1);
    NextRound(file, ps, before, total - 1);
    ExchangeNext(command, file, md5hex, ps, total + 1);
    ExchangeConsistent(command, file, md5hex, ps, total + 2);
    CompletedIsFile(command, file, md5hex, ps, Exchange(command, file, md5hex, ps, total + 2));
  }

  lemma ExchangeNext(command: Msg, file: Bytes, md5hex: Bytes, ps: nat, n: nat)
    ensures Exchange(command, file, md5hex, ps, n + 1)
         == ToCache(file, ps, ToReceiver(Exchange(command, file, md5hex, ps, n)))
  {
  }

  lemma {:induction false} CacheSaysMd5(file: Bytes, md5hex: Bytes, ps: nat, requests: seq<Msg>)
    ensures var sent := CacheRun(file, md5hex, ps, requests).sent; sent != [] && sent[0] == Msg(CMD_FILE_MD5, md5hex)
  {
    hide Reply;
    if requests != [] {
      CacheSaysMd5(file, md5hex, ps, requests[..|requests| - 1]);
    }
  }

  lemma CompletedIsFile(command: Msg, file: Bytes, md5hex: Bytes, ps: nat, l: Link)
    requires ps > 0 && Consistent(command, file, md5hex, ps, l) && l.r.phase == Finished(Complete)
    ensures l.r.md5 == md5hex && (l.r.written == file <==> PacketsNeeded(|file|, ps) <= MAX_UINT32)
  {
    hide DownloadRun, CacheRun, PacketsNeeded;
    CacheSaysMd5(file, md5hex, ps, l.requests);
    Md5IsFirst(command, l.arrivals);
    forall i | 0 <= i < |l.arrivals| ensures l.arrivals[i] in CacheRun(file, md5hex, ps, l.requests).sent {
      assert l.arrivals[i] == l.c.sent[i];
    }
    DownloadFromCache(command, l.arrivals, file, md5hex, ps, l.requests);
  }

  // ----- What either end answers, whatever arrives -----

  /** What the cache answers a controller frame with, `last` being the frame it sent before. */
  ghost predicate CacheAnswers(file: Bytes, ps: nat, f: Msg, last: Msg, answer: seq<Msg>) {
    if f.cmd == CMD_FILE_RETRY then answer == [last]
    else if f.cmd == CMD_FILE_VIEW then
      && |answer| == 1 && answer[0].cmd == CMD_FILE_VIEW && |answer[0].data| == 6
      && Get32(answer[0].data) == CacheTotal(|file|, ps)
      && BE16(answer[0].data[4], answer[0].data[5]) == ps % 0x1_0000
    else if f.cmd == CMD_FILE_DATA && |f.data| >= 4 then
      var q := if Get32(f.data) == 0 then 1 else Get32(f.data);
      && |answer| == 1 && answer[0].cmd == CMD_FILE_DATA && |answer[0].data| >= 4
      && Get32(answer[0].data) == q && answer[0].data[4..] == Chunk(file, ps, q)
    else if f.cmd == CMD_FILE_END then answer == [Msg(CMD_FILE_END, [])]
    else answer == []
  }

  ghost predicate KeepsLast(c: Cache) {
    c.sent != [] && c.last == [c.sent[|c.sent| - 1]]
  }

  lemma CacheStepAnswers(file: Bytes, ps: nat, c: Cache, f: Msg)
    requires KeepsLast(c) && !c.done
    ensures var t := CacheStep(file, ps, c, f);
            && KeepsLast(t) && c.sent <= t.sent
            && CacheAnswers(file, ps, f, c.sent[|c.sent| - 1], t.sent[|c.sent|..])
            && (t.done <==> f.cmd == CMD_FILE_END || f.cmd == CMD_FILE_CANCEL)
  {
    hide Get32, Put32, Chunk, CacheTotal, LowByte, BE16;
    if f.cmd == CMD_FILE_VIEW {
      TotalFits(|file|, ps);
      Get32OfPut32(CacheTotal(|file|, ps), [LowByte(ps / 256), LowByte(ps)]);
      LowWord(ps);
    } else if f.cmd == CMD_FILE_DATA && |f.data| >= 4 {
      var q := if Get32(f.data) == 0 then 1 else Get32(f.data);
      Get32OfPut32(q, Chunk(file, ps, q));
      assert (Put32(q) + Chunk(file, ps, q))[4..] == Chunk(file, ps, q);
    }
  }

  lemma {:induction false} AlwaysKeepsLast(file: Bytes, md5hex: Bytes, ps: nat, requests: seq<Msg>)
    ensures KeepsLast(CacheRun(file, md5hex, ps, requests))
  {
    hide KeepsLast, CacheStep;
    if requests == [] {
      assert KeepsLast(CacheRun(file, md5hex, ps, [])) by { CacheStarts(file, md5hex, ps); }
    } else {
      var n := |requests| - 1;
      AlwaysKeepsLast(file, md5hex, ps, requests[..n]);
      var c := CacheRun(file, md5hex, ps, requests[..n]);
      if c.done {
        DoneStays(file, ps, c, requests[n]);
      } else {
        CacheStepAnswers(file, ps, c, requests[n]);
      }
    }
  }

  lemma CacheStarts(file: Bytes, md5hex: Bytes, ps: nat)
    ensures KeepsLast(CacheRun(file, md5hex, ps, []))
  {
  }

  lemma DoneStays(file: Bytes, ps: nat, c: Cache, f: Msg)
    requires c.done
    ensures CacheStep(file, ps, c, f) == c
  {
  }

  /** Every request to the cache is answered at once, with what it asked for and nothing else; a repeat is
      the frame sent just before, and after the end nothing more is sent. */
  lemma RequestServed(file: Bytes, md5hex: Bytes, ps: nat, requests: seq<Msg>, f: Msg)
    ensures var c, t := CacheRun(file, md5hex, ps, requests), CacheRun(file, md5hex, ps, requests + [f]);
            && c.sent != []
            && if c.done then t == c
               else
                 && c.sent <= t.sent && CacheAnswers(file, ps, f, c.sent[|c.sent| - 1], t.sent[|c.sent|..])
                 && (t.done <==> f.cmd == CMD_FILE_END || f.cmd == CMD_FILE_CANCEL)
  {
    hide CacheStep, CacheAnswers;
    assert (requests + [f])[..|requests|] == requests;
    AlwaysKeepsLast(file, md5hex, ps, requests);
    var c := CacheRun(file, md5hex, ps, requests);
    if c.done {
      DoneStays(file, ps, c, f);
    } else {
      CacheStepAnswers(file, ps, c, f);
    }
  }

  /** The receiver's last frame asks for what it waits for. */
  ghost predicate AsksForNext(command: Msg, r: Receiver) {
    && r.sent != []
    && var last := r.sent[|r.sent| - 1];
       match r.phase
       case WaitMD5 => r.sent == [command]
       case WaitView => last == Msg(CMD_FILE_VIEW, [])
       case ReadData(_, next) => last == Request(next)
       case Finished(o) => o == Complete ==> last == Msg(CMD_FILE_END, [])
  }

  lemma ReceiveAsks(command: Msg, r: Receiver, m: Msg)
    requires AsksForNext(command, r)
    ensures AsksForNext(command, Receive(r, m)) && r.sent <= Receive(r, m).sent
    ensures r.phase.ReadData? && m.cmd == CMD_FILE_DATA && |m.data| >= 4 ==>
              |Receive(r, m).sent| == |r.sent| + 1
  {
    hide Get32, Request;
  }

  /** Whatever arrives, the receiver's last request is for what it waits for, and every packet that reaches
      it, expected or not, is answered with one: the next, the same again, or the end. */
  lemma {:induction false} DownloadAsks(command: Msg, arrivals: seq<Msg>)
    ensures AsksForNext(command, DownloadRun(command, arrivals))
    ensures arrivals != [] ==>
              var m := arrivals[|arrivals| - 1];
              var r, t := DownloadRun(command, arrivals[..|arrivals| - 1]), DownloadRun(command, arrivals);
              && r.sent <= t.sent
              && (r.phase.ReadData? && m.cmd == CMD_FILE_DATA && |m.data| >= 4 ==> |t.sent| == |r.sent| + 1)
  {
    hide Receive, AsksForNext;
    if arrivals == [] {
      StartAsks(command);
    } else {
      DownloadAsks(command, arrivals[..|arrivals| - 1]);
      ReceiveAsks(command, DownloadRun(command, arrivals[..|arrivals| - 1]), arrivals[|arrivals| - 1]);
    }
  }

  lemma StartAsks(command: Msg)
    ensures AsksForNext(command, DownloadRun(command, []))
  {
  }

  /** `data` is what the first MD5 frame said. */
  ghost predicate FirstMd5(arrivals: seq<Msg>, data: Bytes) {
    exists i :: 0 <= i < |arrivals| && arrivals[i] == Msg(CMD_FILE_MD5, data)
                && forall k :: 0 <= k < i ==> arrivals[k].cmd != CMD_FILE_MD5
  }

  /** What the receiver knows of the MD5. */
  ghost predicate KnowsMd5(r: Receiver, arrivals: seq<Msg>) {
    match r.phase
    case WaitMD5 => forall k :: 0 <= k < |arrivals| ==> arrivals[k].cmd != CMD_FILE_MD5
    case Finished(Canceled) => true
    case _ => FirstMd5(arrivals, r.md5)
  }

  lemma LaterMd5(arrivals: seq<Msg>, data: Bytes)
    requires arrivals != [] && FirstMd5(arrivals[..|arrivals| - 1], data)
    ensures FirstMd5(arrivals, data)
  {
    var before := arrivals[..|arrivals| - 1];
    var i :| 0 <= i < |before| && before[i] == Msg(CMD_FILE_MD5, data)
             && forall k :: 0 <= k < i ==> before[k].cmd != CMD_FILE_MD5;
    assert arrivals[i] == before[i] && forall k :: 0 <= k < i ==> arrivals[k] == before[k];
  }

  lemma Md5Step(r: Receiver, arrivals: seq<Msg>)
    requires arrivals != [] && KnowsMd5(r, arrivals[..|arrivals| - 1])
    ensures KnowsMd5(Receive(r, arrivals[|arrivals| - 1]), arrivals)
  {
    hide Get32, Request, FirstMd5;
    var n := |arrivals| - 1;
    var before := arrivals[..n];
    assert forall k :: 0 <= k < n ==> before[k] == arrivals[k];
    if FirstMd5(before, r.md5) {
      LaterMd5(arrivals, r.md5);
    }
    if r.phase.WaitMD5? && arrivals[n].cmd == CMD_FILE_MD5 {
      JustMd5(arrivals);
    }
  }

  lemma JustMd5(arrivals: seq<Msg>)
    requires arrivals != [] && arrivals[|arrivals| - 1].cmd == CMD_FILE_MD5
    requires forall k :: 0 <= k < |arrivals| - 1 ==> arrivals[k].cmd != CMD_FILE_MD5
    ensures FirstMd5(arrivals, arrivals[|arrivals| - 1].data)
  {
    assert arrivals[|arrivals| - 1] == Msg(CMD_FILE_MD5, arrivals[|arrivals| - 1].data);
  }

  /** A download reports the MD5 of the first MD5 frame that arrived. */
  lemma {:induction false} Md5IsFirst(command: Msg, arrivals: seq<Msg>)
    ensures KnowsMd5(DownloadRun(command, arrivals), arrivals)
  {
    hide Receive, FirstMd5;
    if arrivals != [] {
      Md5IsFirst(command, arrivals[..|arrivals| - 1]);
      Md5Step(DownloadRun(command, arrivals[..|arrivals| - 1]), arrivals);
    }
  }

  /** Arrival m ends a download in phase p with outcome o. */
  predicate EndsWith(p: Phase, m: Msg, o: Outcome) {
    match o
    case Canceled => m.cmd == CMD_FILE_CANCEL
    case EndedEarly => p.ReadData? && m.cmd == CMD_FILE_END
    case ShortView => p.WaitView? && m.cmd == CMD_FILE_VIEW && |m.data| < 6
    case ZeroPackets => p.WaitView? && m.cmd == CMD_FILE_VIEW && |m.data| >= 6 && Get32(m.data) == 0
    case Complete =>
      p.ReadData? && p.next == p.total && m.cmd == CMD_FILE_DATA && |m.data| >= 4 && Get32(m.data) == p.total
  }

  ghost predicate EndedBy(command: Msg, arrivals: seq<Msg>, i: nat, o: Outcome) {
    && i < |arrivals|
    && var r := DownloadRun(command, arrivals[..i]); !r.phase.Finished? && EndsWith(r.phase, arrivals[i], o)
  }

  lemma ReceiveEnds(r: Receiver, m: Msg, n: nat, o: Outcome)
    requires !r.phase.Finished? && Took(r, n)
    ensures Receive(r, m).phase == Finished(o) <==> EndsWith(r.phase, m, o)
  {
    hide Get32, Request;
  }

  /** Each outcome of a download has its own cause, and no other: a cancel, an end before the last packet, a
      short or an empty view, or the last packet announced. */
  lemma {:induction false} DownloadEnds(command: Msg, arrivals: seq<Msg>, o: Outcome)
    ensures DownloadRun(command, arrivals).phase == Finished(o) <==> exists i :: EndedBy(command, arrivals, i, o)
  {
    hide Receive, EndsWith, Took, InOrder, Payloads;
    if arrivals != [] {
      var n := |arrivals| - 1;
      var before := arrivals[..n];
      DownloadEnds(command, before, o);
      var r := DownloadRun(command, before);
      var taken := AcceptsInOrder(command, before);
      forall i: nat | i < n ensures EndedBy(command, arrivals, i, o) <==> EndedBy(command, before, i, o) {
        assert before[..i] == arrivals[..i];
      }
      if r.phase.Finished? {
        FinishedStays(r, arrivals[n]);
      } else {
        ReceiveEnds(r, arrivals[n], |taken|, o);
        assert EndsWith(r.phase, arrivals[n], o) ==> EndedBy(command, arrivals, n, o);
      }
    }
  }

  lemma FinishedStays(r: Receiver, m: Msg)
    requires r.phase.Finished?
    ensures Receive(r, m) == r
  {
  }
}
