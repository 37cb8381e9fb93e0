/** An upload from the machine's side: what each request is answered with, how the conversation ends, and
    what a machine that asks for everything gets. */
module UploadLoop {
  import opened Framing
  import opened Transfer

  // ----- Answers -----

  lemma Put32OfGet32(b: Bytes)
    requires |b| >= 4
    ensures Put32(Get32(b)) == b[..4]
  {
    hide Get32, LowByte, Number;
    var x, y, z, w := b[0] as nat, b[1] as nat, b[2] as nat, b[3] as nat;
    var n := Number(x, y, z, w);
    Get32Is(b, x, y, z, w);
    Digits(x, y, z, w);
    LowByteIs(n / 0x100_0000, b[0], x);
    LowByteIs(n / 0x1_0000, b[1], y);
    LowByteIs(n / 0x100, b[2], z);
    LowByteIs(n, b[3], w);
  }

  /** The number with these digits. */
  function Number(a: nat, b: nat, c: nat, d: nat): nat {
    (a * 256 + b) * 0x1_0000 + (c * 256 + d)
  }

  lemma Get32Is(b: Bytes, x: nat, y: nat, z: nat, w: nat)
    requires |b| >= 4 && x == b[0] as nat && y == b[1] as nat && z == b[2] as nat && w == b[3] as nat
    ensures Get32(b) == Number(x, y, z, w) && x < 256 && y < 256 && z < 256 && w < 256
  {
  }

  lemma Digits(a: nat, b: nat, c: nat, d: nat)
    requires a < 256 && b < 256 && c < 256 && d < 256
    ensures var n := Number(a, b, c, d);
            n / 0x100_0000 % 256 == a && n / 0x1_0000 % 256 == b && n / 0x100 % 256 == c && n % 256 == d
  {
    var n := Number(a, b, c, d);
    assert n / 0x100 == (a * 256 + b) * 256 + c;
    assert n / 0x1_0000 == a * 256 + b;
    assert n / 0x100_0000 == a;
  }

  lemma LowByteIs(n: nat, a: bv8, x: nat)
    requires n % 256 == x && x == a as nat
    ensures LowByte(n) == a
  {
    SameByte(LowByte(n), a);
  }

  lemma SameByte(x: bv8, y: bv8)
    requires x as nat == y as nat
    ensures x == y
  {
    assert (x as nat) as bv8 == x;
  }

  /** The packet a request for number q stands for; its predecessor wraps at 32 bits. */
  function Packet(file: Bytes, ps: nat, q: nat): Bytes {
    Chunk(file, ps, if q == 0 then MAX_UINT32 + 1 else q)
  }

  /** What the machine's frame is answered with, while the upload is under way. */
  ghost predicate Answers(file: Bytes, md5: Bytes, ps: nat, m: Msg, last: Msg, answer: seq<Msg>)
    requires ps > 0
  {
    if m.cmd == CMD_FILE_DATA && |m.data| >= 4 then
      && |answer| == 1 && answer[0].cmd == CMD_FILE_DATA && |answer[0].data| >= 4
      && answer[0].data[..4] == m.data[..4] && answer[0].data[4..] == Packet(file, ps, Get32(m.data))
    else if m.cmd == CMD_FILE_VIEW then
      && |answer| == 1 && answer[0].cmd == CMD_FILE_VIEW && |answer[0].data| == 6
      && Get32(answer[0].data) == UploadTotal(|file|, ps)
      && BE16(answer[0].data[4], answer[0].data[5]) == ps % 0x1_0000
    else if m.cmd == CMD_FILE_MD5 then answer == [Msg(CMD_FILE_MD5, md5)]
    else if m.cmd == CMD_FILE_RETRY then answer == [last]
    else answer == []
  }

  predicate Over(s: Sender) {
    s.ended || s.canceled
  }

  lemma UploadAnswers(file: Bytes, md5: Bytes, ps: nat, s: Sender, m: Msg)
    requires ps > 0 && !Over(s) && s.sent != [] && s.last == s.sent[|s.sent| - 1]
    ensures var t := UploadStep(file, md5, ps, s, m);
            && s.sent <= t.sent && Answers(file, md5, ps, m, s.sent[|s.sent| - 1], t.sent[|s.sent|..])
            && (t.ended <==> m.cmd == CMD_FILE_END) && (t.canceled <==> m.cmd == CMD_FILE_CANCEL)
  {
    hide Get32, Put32, Chunk, UploadTotal, LowByte, BE16;
    if m.cmd == CMD_FILE_DATA && |m.data| >= 4 {
      Put32OfGet32(m.data);
      var q := Get32(m.data);
      assert (Put32(q) + Packet(file, ps, q))[4..] == Packet(file, ps, q);
    } else if m.cmd == CMD_FILE_VIEW {
      TotalCounts(|file|, ps);
      Get32OfPut32(UploadTotal(|file|, ps), [LowByte(ps / 256), LowByte(ps)]);
      LowWord(ps);
    }
  }

  lemma TotalCounts(size: nat, ps: nat)
    requires ps > 0
    ensures 1 <= UploadTotal(size, ps) <= MAX_UINT32
  {
  }

  // ----- Runs -----

  lemma RunSteps(file: Bytes, md5: Bytes, ps: nat, arrivals: seq<Msg>, m: Msg)
    requires ps > 0
    ensures UploadRun(file, md5, ps, arrivals + [m])
         == UploadStep(file, md5, ps, UploadRun(file, md5, ps, arrivals), m)
  {
    hide UploadStep;
    assert (arrivals + [m])[..|arrivals|] == arrivals;
  }

  /** Every request of a run that is under way is answered at once, with what it asked for and nothing
      else; once the machine has ended or canceled it, nothing more is sent. */
  lemma RequestAnswered(file: Bytes, md5: Bytes, ps: nat, arrivals: seq<Msg>, m: Msg)
    requires ps > 0
    ensures var s, t := UploadRun(file, md5, ps, arrivals), UploadRun(file, md5, ps, arrivals + [m]);
            && s.sent != [] && s.sent <= t.sent
            && if Over(s) then t == s
               else Answers(file, md5, ps, m, s.sent[|s.sent| - 1], t.sent[|s.sent|..])
  {
    hide UploadStep, UploadRun, Answers;
    RunSteps(file, md5, ps, arrivals, m);
    UploadHonest(file, md5, ps, arrivals);
    var s := UploadRun(file, md5, ps, arrivals);
    if Over(s) {
      OverStays(file, md5, ps, s, m);
    } else {
      UploadAnswers(file, md5, ps, s, m);
    }
  }

  lemma OverStays(file: Bytes, md5: Bytes, ps: nat, s: Sender, m: Msg)
    requires ps > 0 && Over(s)
    ensures UploadStep(file, md5, ps, s, m) == s
  {
  }

  /** Arrival i is the first of its kind: the machine ends or cancels the upload with it. */
  ghost predicate StopsAt(arrivals: seq<Msg>, i: nat, cmd: bv8) {
    && i < |arrivals| && arrivals[i].cmd == cmd
    && forall k :: 0 <= k < i ==> arrivals[k].cmd != CMD_FILE_END && arrivals[k].cmd != CMD_FILE_CANCEL
  }

  /** An upload has succeeded if and only if the machine has ended it before canceling it, and is canceled
      if and only if it was the other way round. */
  lemma {:induction false} UploadEnds(file: Bytes, md5: Bytes, ps: nat, arrivals: seq<Msg>)
    requires ps > 0
    ensures UploadRun(file, md5, ps, arrivals).ended <==> exists i :: StopsAt(arrivals, i, CMD_FILE_END)
    ensures UploadRun(file, md5, ps, arrivals).canceled <==> exists i :: StopsAt(arrivals, i, CMD_FILE_CANCEL)
  {
    hide UploadStep;
    if arrivals != [] {
      var n := |arrivals| - 1;
      var before := arrivals[..n];
      UploadEnds(file, md5, ps, before);
      UploadHonest(file, md5, ps, before);
      var s := UploadRun(file, md5, ps, before);
      forall i, cmd ensures StopsAt(before, i, cmd) ==> StopsAt(arrivals, i, cmd) {
      }
      forall i: nat, cmd | i < n ensures StopsAt(arrivals, i, cmd) ==> StopsAt(before, i, cmd) {
      }
      if Over(s) {
        OverStays(file, md5, ps, s, arrivals[n]);
      } else {
        UploadAnswers(file, md5, ps, s, arrivals[n]);
        NeverStopped(before);
        assert arrivals[n].cmd == CMD_FILE_END ==> StopsAt(arrivals, n, CMD_FILE_END);
        assert arrivals[n].cmd == CMD_FILE_CANCEL ==> StopsAt(arrivals, n, CMD_FILE_CANCEL);
        forall i: nat | StopsAt(arrivals, i, CMD_FILE_END) || StopsAt(arrivals, i, CMD_FILE_CANCEL) ensures i == n {
        }
      }
    }
  }

  lemma NeverStopped(arrivals: seq<Msg>)
    requires !(exists i :: StopsAt(arrivals, i, CMD_FILE_END)) && !(exists i :: StopsAt(arrivals, i, CMD_FILE_CANCEL))
    ensures forall k :: 0 <= k < |arrivals| ==> arrivals[k].cmd != CMD_FILE_END && arrivals[k].cmd != CMD_FILE_CANCEL
  {
    NoneBefore(arrivals, |arrivals|);
  }

  lemma {:induction false} NoneBefore(arrivals: seq<Msg>, n: nat)
    requires n <= |arrivals|
    requires !(exists i :: StopsAt(arrivals, i, CMD_FILE_END)) && !(exists i :: StopsAt(arrivals, i, CMD_FILE_CANCEL))
    ensures forall k :: 0 <= k < n ==> arrivals[k].cmd != CMD_FILE_END && arrivals[k].cmd != CMD_FILE_CANCEL
  {
    if n > 0 {
      NoneBefore(arrivals, n - 1);
      assert !StopsAt(arrivals, n - 1, CMD_FILE_END) && !StopsAt(arrivals, n - 1, CMD_FILE_CANCEL);
    }
  }

  // ----- A machine that asks for everything -----

  /** The machine asks for the view, and then for packets 1 to n. */
  function Asking(n: nat): seq<Msg> {
    if n == 0 then [Msg(CMD_FILE_VIEW, [])] else Asking(n - 1) + [Request(n)]
  }

  /** The payloads of some frames, end to end. */
  function PayloadsOf(frames: seq<Msg>): Bytes
    requires forall i :: 0 <= i < |frames| ==> |frames[i].data| >= 4
  {
    if frames == [] then [] else PayloadsOf(frames[..|frames| - 1]) + frames[|frames| - 1].data[4..]
  }

  /** The MD5, the view, and n packets in the order asked for. */
  ghost predicate Delivered(file: Bytes, md5: Bytes, ps: nat, sent: seq<Msg>, n: nat)
    requires ps > 0
  {
    && |sent| == n + 2 && sent[0] == Msg(CMD_FILE_MD5, md5)
    && sent[1].cmd == CMD_FILE_VIEW && |sent[1].data| == 6 && Get32(sent[1].data) == UploadTotal(|file|, ps)
    && (forall i :: 2 <= i < n + 2 ==> |sent[i].data| >= 4)
    && PayloadsOf(sent[2..]) == Assembled(file, ps, n)
  }

  lemma {:induction false} AskedAndDelivered(file: Bytes, md5: Bytes, ps: nat, n: nat)
    requires ps > 0 && n <= MAX_UINT32
    ensures var s := UploadRun(file, md5, ps, Asking(n)); !Over(s) && Delivered(file, md5, ps, s.sent, n)
  {
    hide UploadStep, UploadTotal, Get32, Put32, Chunk, UploadRun, Assembled, PayloadsOf;
    if n == 0 {
      FirstDelivered(file, md5, ps);
    } else {
      AskedAndDelivered(file, md5, ps, n - 1);
      var s := UploadRun(file, md5, ps, Asking(n - 1));
      RunSteps(file, md5, ps, Asking(n - 1), Request(n));
      UploadHonest(file, md5, ps, Asking(n - 1));
      UploadAnswers(file, md5, ps, s, Request(n));
      assert Put32(n) + [] == Put32(n);
      Get32OfPut32(n, []);
      OneMore(file, md5, ps, s.sent, UploadRun(file, md5, ps, Asking(n)).sent, n);
    }
  }

  lemma FirstDelivered(file: Bytes, md5: Bytes, ps: nat)
    requires ps > 0
    ensures var s := UploadRun(file, md5, ps, Asking(0)); !Over(s) && Delivered(file, md5, ps, s.sent, 0)
  {
    hide UploadStep, UploadTotal, Get32, UploadRun, LowByte, BE16;
    var s := UploadStart(md5);
    NothingArrived(file, md5, ps);
    assert [] + [Msg(CMD_FILE_VIEW, [])] == Asking(0);
    RunSteps(file, md5, ps, [], Msg(CMD_FILE_VIEW, []));
    UploadAnswers(file, md5, ps, s, Msg(CMD_FILE_VIEW, []));
  }

  lemma NothingArrived(file: Bytes, md5: Bytes, ps: nat)
    requires ps > 0
    ensures UploadRun(file, md5, ps, []) == UploadStart(md5)
  {
  }

  lemma OneMore(file: Bytes, md5: Bytes, ps: nat, sent: seq<Msg>, more: seq<Msg>, n: nat)
    requires ps > 0 && n >= 1 && Delivered(file, md5, ps, sent, n - 1) && sent <= more && |more| == |sent| + 1
    requires |more[n + 1].data| >= 4 && more[n + 1].data[4..] == Chunk(file, ps, n)
    ensures Delivered(file, md5, ps, more, n)
  {
    hide UploadTotal, Get32, Chunk;
    assert more[2..][..n - 1] == sent[2..];
    assert more[2..][n - 1] == more[n + 1];
  }

  /** A machine that asks for the view and then for as many packets as it announces gets the file, exactly
      when its packets can be counted in 32 bits. */
  lemma MachineGetsFile(file: Bytes, md5: Bytes, ps: nat, n: nat)
    requires ps > 0
    requires var view := UploadRun(file, md5, ps, Asking(0)).sent;
             |view| == 2 && |view[1].data| >= 4 && n == Get32(view[1].data)
    ensures var sent := UploadRun(file, md5, ps, Asking(n)).sent;
            && |sent| == n + 2 && (forall i :: 0 <= i < n ==> |sent[2..][i].data| >= 4)
            && (PayloadsOf(sent[2..]) == file <==> PacketsNeeded(|file|, ps) <= MAX_UINT32)
  {
    hide UploadRun, UploadTotal, PacketsNeeded, Get32, Assembled;
    FirstDelivered(file, md5, ps);
    TotalCounts(|file|, ps);
    AskedAndDelivered(file, md5, ps, n);
    UploadComplete(file, ps);
  }
}
