/** File transfer by numbered packets: the download receiver, the upload sender and the cached
    download's sender. */
module Transfer {
  import opened Framing

  const CMD_FILE_MD5: bv8 := 0xB1
  const CMD_FILE_VIEW: bv8 := 0xB2
  const CMD_FILE_DATA: bv8 := 0xB3
  const CMD_FILE_END: bv8 := 0xB4
  const CMD_FILE_CANCEL: bv8 := 0xB5
  const CMD_FILE_RETRY: bv8 := 0xB6

  const MAX_UINT32: nat := 0xFFFF_FFFF
  const TCP_PACKET_SIZE: nat := 8192

  /** A frame's command and payload. */
  datatype Msg = Msg(cmd: bv8, data: Bytes)

  function Put32(n: nat): (b: Bytes)
    ensures |b| == 4
  {
    [LowByte(n / 0x100_0000), LowByte(n / 0x1_0000), LowByte(n / 0x100), LowByte(n)]
  }

  function Get32(b: Bytes): (n: nat)
    requires |b| >= 4
    ensures n <= MAX_UINT32
  {
    BE16(b[0], b[1]) * 0x1_0000 + BE16(b[2], b[3])
  }

  lemma Get32OfPut32(n: nat, more: Bytes)
    requires n <= MAX_UINT32
    ensures Get32(Put32(n) + more) == n
  {
    hide BE16, LowByte;
    var hi, lo := n / 0x1_0000, n % 0x1_0000;
    assert n / 0x100_0000 == hi / 256;
    assert (n / 0x100) % 256 == lo / 256;
    assert n % 256 == lo % 256;
    LengthField(hi);
    LengthField(lo);
    SameLowByte(n / 0x100, lo / 256);
    SameLowByte(n, lo);
    assert (Put32(n) + more)[..4] == Put32(n);
  }

  lemma LowWord(n: nat)
    ensures BE16(LowByte(n / 256), LowByte(n)) == n % 0x1_0000
  {
    hide LowByte;
    assert (n / 256) % 256 == (n % 0x1_0000) / 256 && n % 256 == (n % 0x1_0000) % 256;
  }

  lemma SameLowByte(a: nat, b: nat)
    requires a % 256 == b % 256
    ensures LowByte(a) == LowByte(b)
  {
  }

  // ----- Packets of a file -----

  /** Packet `k`, counted from 1, of `file` cut into packets of `ps` bytes; empty past the end. */
  function Chunk(file: Bytes, ps: nat, k: nat): Bytes
    requires k >= 1
  {
    Slice(file, (k - 1) * ps, ps)
  }

  /** Up to `ps` bytes of `file` from `from` on. */
  function Slice(file: Bytes, from: nat, ps: nat): Bytes {
    if from >= |file| then []
    else if from + ps > |file| then file[from..]
    else file[from..from + ps]
  }

  /** The first `n` bytes of `file`, or all of it. */
  function Start(file: Bytes, n: nat): Bytes {
    if n < |file| then file[..n] else file
  }

  lemma StartSlice(file: Bytes, from: nat, ps: nat)
    ensures Start(file, from) + Slice(file, from, ps) == Start(file, from + ps)
  {
  }

  /** Packets 1 to `n`, end to end. */
  function Assembled(file: Bytes, ps: nat, n: nat): Bytes {
    if n == 0 then [] else Assembled(file, ps, n - 1) + Chunk(file, ps, n)
  }

  lemma Distribute(n: nat, ps: nat)
    requires n >= 1
    ensures n * ps == (n - 1) * ps + ps
  {
  }

  lemma {:induction false} StartSlices(file: Bytes, ps: nat, n: nat)
    ensures Assembled(file, ps, n) == Start(file, n * ps)
  {
    hide Slice, Start;
    if n == 0 {
      StartsEmpty(file);
    } else {
      StartSlices(file, ps, n - 1);
      Distribute(n, ps);
      StartSlice(file, (n - 1) * ps, ps);
    }
  }

  lemma StartsEmpty(file: Bytes)
    ensures Start(file, 0) == []
  {
  }

  /** The first `n` packets are the first `n * ps` bytes. */
  lemma {:induction false} AssembledIs(file: Bytes, ps: nat, n: nat)
    ensures Assembled(file, ps, n) == if n * ps < |file| then file[..n * ps] else file
  {
    hide Slice;
    assert Assembled(file, ps, n) == Start(file, n * ps) by {
      StartSlices(file, ps, n);
    }
  }

  /** How many packets a file needs. */
  function PacketsNeeded(size: nat, ps: nat): nat
    requires ps > 0
  {
    (size + ps - 1) / ps
  }

  lemma PacketsNeededIs(size: nat, ps: nat, n: nat)
    requires ps > 0
    ensures n * ps >= size <==> n >= PacketsNeeded(size, ps)
  {
    var q := PacketsNeeded(size, ps);
    var r := (size + ps - 1) % ps;
    assert size + ps - 1 == q * ps + r;
    if n >= q {
      MulMono(q, n, ps);
    } else {
      MulMono(n + 1, q, ps);
    }
  }

  lemma MulMono(a: nat, b: nat, p: nat)
    requires a <= b
    ensures a * p <= b * p && (a + 1) * p == a * p + p
  {
  }

  /** All packets of a file, end to end, are the file as soon as there are enough of them. */
  lemma EnoughPackets(file: Bytes, ps: nat, n: nat)
    requires ps > 0
    ensures Assembled(file, ps, n) == file <==> n >= PacketsNeeded(|file|, ps)
  {
    hide PacketsNeeded, Assembled;
    AssembledIs(file, ps, n);
    PacketsNeededIs(|file|, ps, n);
  }

  // ----- The upload sender -----

  /** The packet count an upload announces: 32 bits, and 1 for an empty file. */
  function UploadTotal(size: nat, ps: nat): nat
    requires ps > 0
  {
    var t := PacketsNeeded(size, ps) % (MAX_UINT32 + 1);
    if t == 0 then 1 else t
  }

  /** Packets 1 to the announced total are the file exactly when the true count fits in 32 bits,
      whatever the packet size. */
  lemma UploadComplete(file: Bytes, ps: nat)
    requires ps > 0
    ensures Assembled(file, ps, UploadTotal(|file|, ps)) == file <==> PacketsNeeded(|file|, ps) <= MAX_UINT32
  {
    hide PacketsNeeded, Assembled;
    EnoughPackets(file, ps, UploadTotal(|file|, ps));
  }

  /** The payload the sender builds for sequence number `seq`: the predecessor wraps at 32 bits. */
  method DataPacket(file: Bytes, ps: nat, seqNo: nat) returns (data: Bytes)
    requires ps > 0 && seqNo <= MAX_UINT32
    ensures data == Put32(seqNo) + Chunk(file, ps, if seqNo == 0 then MAX_UINT32 + 1 else seqNo)
  {
    hide Put32;
    var prev := if seqNo == 0 then MAX_UINT32 else seqNo - 1;
    var offset := prev * ps;
    var n: int := ps;
    if offset + n > |file| {
      n := |file| - offset;
    }
    if n < 0 {
      n := 0;
    }
    var chunk: Bytes := [];
    if n > 0 {
      chunk := file[offset..offset + n];
    }
    data := Put32(seqNo) + chunk;
  }

  /** The upload's side of the conversation: the last frame sent, all frames sent, and whether the
      machine has ended it. */
  datatype Sender = Sender(last: Msg, sent: seq<Msg>, ended: bool, canceled: bool)

  function Send(s: Sender, m: Msg): Sender {
    s.(last := m, sent := s.sent + [m])
  }

  function UploadStart(md5: Bytes): Sender {
    Sender(Msg(CMD_FILE_MD5, md5), [Msg(CMD_FILE_MD5, md5)], false, false)
  }

  /** The sender's reaction to one frame from the machine. */
  function UploadStep(file: Bytes, md5: Bytes, ps: nat, s: Sender, m: Msg): Sender
    requires ps > 0
  {
    if s.ended || s.canceled then s
    else if m.cmd == CMD_FILE_CANCEL then s.(canceled := true)
    else if m.cmd == CMD_FILE_RETRY then s.(sent := s.sent + [s.last])
    else if m.cmd == CMD_FILE_MD5 then Send(s, Msg(CMD_FILE_MD5, md5))
    else if m.cmd == CMD_FILE_VIEW then
      Send(s, Msg(CMD_FILE_VIEW, Put32(UploadTotal(|file|, ps)) + [LowByte(ps / 256), LowByte(ps)]))
    else if m.cmd == CMD_FILE_DATA then
      if |m.data| < 4 then s
      else
        var q := Get32(m.data);
        Send(s, Msg(CMD_FILE_DATA, Put32(q) + Chunk(file, ps, if q == 0 then MAX_UINT32 + 1 else q)))
    else if m.cmd == CMD_FILE_END then s.(ended := true)
    else s
  }

  function UploadRun(file: Bytes, md5: Bytes, ps: nat, arrivals: seq<Msg>): Sender
    requires ps > 0
  {
    if arrivals == [] then UploadStart(md5)
    else UploadStep(file, md5, ps, UploadRun(file, md5, ps, arrivals[..|arrivals| - 1]), arrivals[|arrivals| - 1])
  }

  /** The upload loop; it stops at FILE_END or FILE_CANCEL, or when `arrivals` runs out (a read
      deadline). */
  method Upload(file: Bytes, md5: Bytes, ps: nat, arrivals: seq<Msg>) returns (s: Sender)
    requires ps > 0
    ensures s == UploadRun(file, md5, ps, arrivals)
  {
    hide UploadTotal, Chunk;
    var last := Msg(CMD_FILE_MD5, md5);
    var sent := [last];
    var i := 0;
    while i < |arrivals|
      invariant i <= |arrivals|
      invariant UploadRun(file, md5, ps, arrivals[..i]) == Sender(last, sent, false, false)
    {
      var f := arrivals[i];
      ghost var before := UploadRun(file, md5, ps, arrivals[..i]);
      assert arrivals[..i + 1][..i] == arrivals[..i];
      assert UploadRun(file, md5, ps, arrivals[..i + 1]) == UploadStep(file, md5, ps, before, f);
      i := i + 1;
      if f.cmd == CMD_FILE_CANCEL {
        StoppedUpload(file, md5, ps, arrivals, i);
        return Sender(last, sent, false, true);
      } else if f.cmd == CMD_FILE_RETRY {
        sent := sent + [last];
      } else if f.cmd == CMD_FILE_MD5 {
        last := Msg(CMD_FILE_MD5, md5);
        sent := sent + [last];
      } else if f.cmd == CMD_FILE_VIEW {
        last := Msg(CMD_FILE_VIEW, Put32(UploadTotal(|file|, ps)) + [LowByte(ps / 256), LowByte(ps)]);
        sent := sent + [last];
      } else if f.cmd == CMD_FILE_DATA {
        if |f.data| < 4 {
          continue;
        }
        var data := DataPacket(file, ps, Get32(f.data));
        last := Msg(CMD_FILE_DATA, data);
        sent := sent + [last];
      } else if f.cmd == CMD_FILE_END {
        StoppedUpload(file, md5, ps, arrivals, i);
        return Sender(last, sent, true, false);
      }
    }
    assert arrivals[..|arrivals|] == arrivals;
    s := Sender(last, sent, false, false);
  }

  /** Once ended or canceled, later frames are not read. */
  lemma {:induction false} StoppedUpload(file: Bytes, md5: Bytes, ps: nat, arrivals: seq<Msg>, i: nat)
    requires ps > 0 && i <= |arrivals|
    requires UploadRun(file, md5, ps, arrivals[..i]).ended || UploadRun(file, md5, ps, arrivals[..i]).canceled
    ensures UploadRun(file, md5, ps, arrivals) == UploadRun(file, md5, ps, arrivals[..i])
    decreases |arrivals| - i
  {
    assert arrivals[..|arrivals|] == arrivals;
    if i < |arrivals| {
      assert arrivals[..i + 1][..i] == arrivals[..i];
      StoppedUpload(file, md5, ps, arrivals, i + 1);
    }
  }

  /** A frame the machine can rely on: the MD5, the view, or a packet that carries the bytes its
      number says. */
  ghost predicate Honest(file: Bytes, md5: Bytes, ps: nat, m: Msg)
    requires ps > 0
  {
    || m == Msg(CMD_FILE_MD5, md5)
    || m == Msg(CMD_FILE_VIEW, Put32(UploadTotal(|file|, ps)) + [LowByte(ps / 256), LowByte(ps)])
    || exists q: nat | q <= MAX_UINT32 ::
         m == Msg(CMD_FILE_DATA, Put32(q) + Chunk(file, ps, if q == 0 then MAX_UINT32 + 1 else q))
  }

  /** Every frame sent is honest, and the one kept for a repeat is the last one sent. */
  ghost predicate HonestSender(file: Bytes, md5: Bytes, ps: nat, s: Sender)
    requires ps > 0
  {
    && s.sent != [] && s.last == s.sent[|s.sent| - 1]
    && forall i :: 0 <= i < |s.sent| ==> Honest(file, md5, ps, s.sent[i])
  }

  lemma StepHonest(file: Bytes, md5: Bytes, ps: nat, s: Sender, m: Msg)
    requires ps > 0 && HonestSender(file, md5, ps, s)
    ensures HonestSender(file, md5, ps, UploadStep(file, md5, ps, s, m))
    ensures m.cmd == CMD_FILE_RETRY && !s.ended && !s.canceled ==>
              UploadStep(file, md5, ps, s, m).sent == s.sent + [s.sent[|s.sent| - 1]]
  {
    hide Chunk, UploadTotal, Put32, LowByte;
  }

  /** Whatever the machine asks for, in whatever order and however often it asks for a repeat, every
      frame sent is honest, and a repeat is the frame sent just before. */
  lemma {:induction false} UploadHonest(file: Bytes, md5: Bytes, ps: nat, arrivals: seq<Msg>)
    requires ps > 0
    ensures HonestSender(file, md5, ps, UploadRun(file, md5, ps, arrivals))
    ensures arrivals != [] && arrivals[|arrivals| - 1].cmd == CMD_FILE_RETRY ==>
              var before := UploadRun(file, md5, ps, arrivals[..|arrivals| - 1]);
              !before.ended && !before.canceled ==>
                && before.sent != []
                && UploadRun(file, md5, ps, arrivals).sent == before.sent + [before.sent[|before.sent| - 1]]
  {
    hide Honest, UploadStep;
    if arrivals == [] {
      assert Honest(file, md5, ps, Msg(CMD_FILE_MD5, md5)) by { FirstHonest(file, md5, ps); }
    } else {
      UploadHonest(file, md5, ps, arrivals[..|arrivals| - 1]);
      StepHonest(file, md5, ps, UploadRun(file, md5, ps, arrivals[..|arrivals| - 1]), arrivals[|arrivals| - 1]);
    }
  }

  lemma FirstHonest(file: Bytes, md5: Bytes, ps: nat)
    requires ps > 0
    ensures Honest(file, md5, ps, Msg(CMD_FILE_MD5, md5))
  {
  }

  // ----- The download receiver -----

  datatype Outcome = Complete | EndedEarly | Canceled | ShortView | ZeroPackets

  datatype Phase = WaitMD5 | WaitView | ReadData(total: nat, next: nat) | Finished(outcome: Outcome)

  datatype Receiver = Receiver(phase: Phase, md5: Bytes, written: Bytes, sent: seq<Msg>)

  function Request(n: nat): Msg {
    Msg(CMD_FILE_DATA, Put32(n))
  }

  function DownloadStart(command: Msg): Receiver {
    Receiver(WaitMD5, [], [], [command])
  }

  /** The receiver's reaction to one frame. */
  function Receive(r: Receiver, m: Msg): Receiver {
    if r.phase.Finished? then r
    else if m.cmd == CMD_FILE_CANCEL then r.(phase := Finished(Canceled))
    else
      match r.phase
      case WaitMD5 =>
        if m.cmd != CMD_FILE_MD5 then r
        else r.(phase := WaitView, md5 := m.data, sent := r.sent + [Msg(CMD_FILE_VIEW, [])])
      case WaitView =>
        if m.cmd != CMD_FILE_VIEW then r
        else if |m.data| < 6 then r.(phase := Finished(ShortView))
        else if Get32(m.data) == 0 then r.(phase := Finished(ZeroPackets))
        else r.(phase := ReadData(Get32(m.data), 1), sent := r.sent + [Request(1)])
      case ReadData(total, next) =>
        if m.cmd == CMD_FILE_END then r.(phase := Finished(EndedEarly))
        else if m.cmd != CMD_FILE_DATA || |m.data| < 4 then r
        else if Get32(m.data) != next then r.(sent := r.sent + [Request(next)])
        else if next >= total then
          r.(phase := Finished(Complete), written := r.written + m.data[4..], sent := r.sent + [Msg(CMD_FILE_END, [])])
        else
          r.(phase := ReadData(total, next + 1), written := r.written + m.data[4..],
             sent := r.sent + [Request(next + 1)])
  }

  function DownloadRun(command: Msg, arrivals: seq<Msg>): Receiver {
    if arrivals == [] then DownloadStart(command)
    else Receive(DownloadRun(command, arrivals[..|arrivals| - 1]), arrivals[|arrivals| - 1])
  }

  /** The download loop; when `arrivals` runs out the read deadline has passed. */
  method Download(command: Msg, arrivals: seq<Msg>) returns (r: Receiver)
    ensures r == DownloadRun(command, arrivals)
  {
    hide Get32, Put32;
    var state := WaitMD5;
    var md5: Bytes, written: Bytes, sent := [], [], [command];
    var i := 0;
    while i < |arrivals|
      invariant i <= |arrivals| && !state.Finished?
      invariant DownloadRun(command, arrivals[..i]) == Receiver(state, md5, written, sent)
    {
      var f := arrivals[i];
      assert arrivals[..i + 1][..i] == arrivals[..i];
      assert DownloadRun(command, arrivals[..i + 1]) == Receive(DownloadRun(command, arrivals[..i]), f);
      i := i + 1;
      if f.cmd == CMD_FILE_CANCEL {
        StoppedDownload(command, arrivals, i);
        return Receiver(Finished(Canceled), md5, written, sent);
      }
      match state {
        case WaitMD5 =>
          if f.cmd == CMD_FILE_MD5 {
            md5 := f.data;
            sent := sent + [Msg(CMD_FILE_VIEW, [])];
            state := WaitView;
          }
        case WaitView =>
          if f.cmd == CMD_FILE_VIEW {
            if |f.data| < 6 {
              StoppedDownload(command, arrivals, i);
              return Receiver(Finished(ShortView), md5, written, sent);
            }
            var total := Get32(f.data);
            if total == 0 {
              StoppedDownload(command, arrivals, i);
              return Receiver(Finished(ZeroPackets), md5, written, sent);
            }
            sent := sent + [Request(1)];
            state := ReadData(total, 1);
          }
        case ReadData(total, next) =>
          if f.cmd == CMD_FILE_END {
            StoppedDownload(command, arrivals, i);
            return Receiver(Finished(EndedEarly), md5, written, sent);
          }
          if f.cmd != CMD_FILE_DATA || |f.data| < 4 {
            continue;
          }
          var q := Get32(f.data);
          if q != next {
            sent := sent + [Request(next)];
            continue;
          }
          written := written + f.data[4..];
          if q >= total {
            sent := sent + [Msg(CMD_FILE_END, [])];
            StoppedDownload(command, arrivals, i);
            return Receiver(Finished(Complete), md5, written, sent);
          }
          sent := sent + [Request(next + 1)];
          state := ReadData(total, next + 1);
      }
    }
    assert arrivals[..|arrivals|] == arrivals;
    r := Receiver(state, md5, written, sent);
  }

  lemma {:induction false} StoppedDownload(command: Msg, arrivals: seq<Msg>, i: nat)
    requires i <= |arrivals| && DownloadRun(command, arrivals[..i]).phase.Finished?
    ensures DownloadRun(command, arrivals) == DownloadRun(command, arrivals[..i])
    decreases |arrivals| - i
  {
    hide Get32, Put32;
    assert arrivals[..|arrivals|] == arrivals;
    if i < |arrivals| {
      assert arrivals[..i + 1][..i] == arrivals[..i];
      StoppedDownload(command, arrivals, i + 1);
    }
  }

  function Payloads(arrivals: seq<Msg>, taken: seq<nat>): Bytes
    requires forall i :: 0 <= i < |taken| ==> taken[i] < |arrivals| && |arrivals[taken[i]].data| >= 4
  {
    if taken == [] then [] else Payloads(arrivals, taken[..|taken| - 1]) + arrivals[taken[|taken| - 1]].data[4..]
  }

  /** `taken` are the arrivals accepted: in order of arrival, and numbered 1, 2, 3, ... */
  ghost predicate InOrder(arrivals: seq<Msg>, taken: seq<nat>) {
    && (forall i :: 0 <= i < |taken| ==>
          taken[i] < |arrivals| && arrivals[taken[i]].cmd == CMD_FILE_DATA && |arrivals[taken[i]].data| >= 4
          && Get32(arrivals[taken[i]].data) == i + 1)
    && (forall i, j :: 0 <= i < j < |taken| ==> taken[i] < taken[j])
  }

  /** How many packets the receiver has taken. */
  ghost predicate Took(r: Receiver, n: nat) {
    match r.phase
    case WaitMD5 => n == 0
    case WaitView => n == 0
    case ReadData(total, next) => 1 <= next <= total && n == next - 1
    case Finished(_) => true
  }

  /** `m` is the packet the receiver waits for. */
  ghost predicate Expected(r: Receiver, m: Msg) {
    r.phase.ReadData? && m.cmd == CMD_FILE_DATA && |m.data| >= 4 && Get32(m.data) == r.phase.next
  }

  /** Only the expected packet is written, and only it moves the count on. */
  lemma ReceiveTakes(r: Receiver, m: Msg, n: nat)
    requires Took(r, n)
    ensures Expected(r, m) ==> Get32(m.data) == n + 1
    ensures Receive(r, m).written == if Expected(r, m) then r.written + m.data[4..] else r.written
    ensures Took(Receive(r, m), if Expected(r, m) then n + 1 else n)
  {
    hide Get32, Put32;
  }

  /** Taking one more arrival, the packet after those taken. */
  lemma TakesNext(arrivals: seq<Msg>, taken: seq<nat>)
    requires arrivals != [] && InOrder(arrivals[..|arrivals| - 1], taken)
    requires var m := arrivals[|arrivals| - 1]; m.cmd == CMD_FILE_DATA && |m.data| >= 4 && Get32(m.data) == |taken| + 1
    ensures var n := |arrivals| - 1;
            && InOrder(arrivals, taken + [n])
            && Payloads(arrivals, taken + [n]) == Payloads(arrivals[..n], taken) + arrivals[n].data[4..]
  {
    hide Get32;
    var n := |arrivals| - 1;
    SamePayloads(arrivals[..n], arrivals, taken);
    assert (taken + [n])[..|taken|] == taken;
  }

  lemma RunReceives(command: Msg, arrivals: seq<Msg>)
    requires arrivals != []
    ensures DownloadRun(command, arrivals)
         == Receive(DownloadRun(command, arrivals[..|arrivals| - 1]), arrivals[|arrivals| - 1])
  {
    hide Receive;
  }

  lemma ExpectedIs(r: Receiver, m: Msg)
    ensures Expected(r, m) ==> m.cmd == CMD_FILE_DATA && |m.data| >= 4
  {
    hide Get32;
  }

  /** Under any duplication, loss or reordering of what arrives, the receiver accepts packets
      1, 2, 3, ... each once and in order, and writes exactly their payloads. */
  lemma {:induction false} AcceptsInOrder(command: Msg, arrivals: seq<Msg>) returns (taken: seq<nat>)
    ensures InOrder(arrivals, taken)
    ensures DownloadRun(command, arrivals).written == Payloads(arrivals, taken)
    ensures Took(DownloadRun(command, arrivals), |taken|)
  {
    hide Get32, Receive, Took, Expected, DownloadRun, InOrder, Payloads;
    if arrivals == [] {
      taken := [];
      NoneTaken(command);
    } else {
      var n := |arrivals| - 1;
      taken := AcceptsInOrder(command, arrivals[..n]);
      var r := DownloadRun(command, arrivals[..n]);
      RunReceives(command, arrivals);
      ReceiveTakes(r, arrivals[n], |taken|);
      ExpectedIs(r, arrivals[n]);
      if Expected(r, arrivals[n]) {
        TakesNext(arrivals, taken);
        taken := taken + [n];
      } else {
        SamePayloads(arrivals[..n], arrivals, taken);
      }
    }
  }

  lemma NoneTaken(command: Msg)
    ensures Took(DownloadRun(command, []), 0) && DownloadRun(command, []).written == []
    ensures InOrder([], []) && Payloads([], []) == []
  {
  }

  lemma {:induction false} SamePayloads(before: seq<Msg>, after: seq<Msg>, taken: seq<nat>)
    requires before <= after && InOrder(before, taken)
    ensures InOrder(after, taken) && Payloads(after, taken) == Payloads(before, taken)
  {
    hide Get32;
    if taken == [] {
    } else {
      SamePayloads(before, after, taken[..|taken| - 1]);
    }
  }

  // ----- Receiver against sender -----

  /** `m` is what a sender of `file` in packets of `ps` bytes, `total` in all, may send. */
  ghost predicate FromSender(file: Bytes, ps: nat, total: nat, m: Msg) {
    && (m.cmd == CMD_FILE_VIEW && |m.data| >= 6 ==> Get32(m.data) == total)
    && (m.cmd == CMD_FILE_DATA && |m.data| >= 4 && Get32(m.data) >= 1 ==> m.data[4..] == Chunk(file, ps, Get32(m.data)))
  }

  /** What is written so far is the packets before the next one. */
  ghost predicate WrittenSoFar(r: Receiver, file: Bytes, ps: nat, total: nat) {
    && (r.phase.WaitMD5? || r.phase.WaitView? ==> r.written == [])
    && (r.phase.ReadData? ==>
          && r.phase.total == total && 1 <= r.phase.next <= total
          && r.written == Assembled(file, ps, r.phase.next - 1))
    && (r.phase == Finished(Complete) ==> r.written == Assembled(file, ps, total))
  }

  lemma ReceiveFromSender(r: Receiver, m: Msg, file: Bytes, ps: nat, total: nat)
    requires WrittenSoFar(r, file, ps, total) && FromSender(file, ps, total, m)
    ensures WrittenSoFar(Receive(r, m), file, ps, total)
  {
    hide Get32, Put32, Chunk;
  }

  /** Against such a sender, what is written so far is always the packets before the next one, and
      on completion all of them. */
  lemma {:induction false} WrittenIsPrefix(command: Msg, arrivals: seq<Msg>, file: Bytes, ps: nat, total: nat)
    requires forall i :: 0 <= i < |arrivals| ==> FromSender(file, ps, total, arrivals[i])
    ensures WrittenSoFar(DownloadRun(command, arrivals), file, ps, total)
  {
    hide Receive, FromSender;
    if arrivals == [] {
    } else {
      WrittenIsPrefix(command, arrivals[..|arrivals| - 1], file, ps, total);
      ReceiveFromSender(DownloadRun(command, arrivals[..|arrivals| - 1]), arrivals[|arrivals| - 1], file, ps, total);
    }
  }

  // ----- The cached download's sender -----

  /** The packet count the cache announces: at least 1, and saturated at 32 bits. */
  function CacheTotal(size: nat, ps: nat): nat {
    if ps <= 0 then 1
    else
      var packets := PacketsNeeded(size, ps);
      if packets < 1 then 1 else if packets > MAX_UINT32 then MAX_UINT32 else packets
  }

  function ViewFrame(file: Bytes, ps: nat): Msg {
    Msg(CMD_FILE_VIEW, Put32(CacheTotal(|file|, ps)) + [LowByte(ps / 256), LowByte(ps)])
  }

  function DataFrame(file: Bytes, ps: nat, q: nat): Msg
    requires 1 <= q <= MAX_UINT32
  {
    Msg(CMD_FILE_DATA, Put32(q) + Chunk(file, ps, q))
  }

  /** What the cache sends on a controller frame, `last` being what it sent before. */
  function Reply(file: Bytes, ps: nat, last: seq<Msg>, f: Msg): seq<Msg> {
    if f.cmd == CMD_FILE_RETRY then last
    else if f.cmd == CMD_FILE_VIEW then [ViewFrame(file, ps)]
    else if f.cmd == CMD_FILE_DATA && |f.data| >= 4 then
      [DataFrame(file, ps, if Get32(f.data) == 0 then 1 else Get32(f.data))]
    else if f.cmd == CMD_FILE_END then [Msg(CMD_FILE_END, [])]
    else []
  }

  /** The cache's side of a download: the frame kept for a repeat, all frames sent, and whether it is
      over. */
  datatype Cache = Cache(last: seq<Msg>, sent: seq<Msg>, done: bool)

  function CacheStep(file: Bytes, ps: nat, c: Cache, f: Msg): Cache {
    if c.done then c
    else
      var r := Reply(file, ps, c.last, f);
      Cache(if r == [] then c.last else r, c.sent + r, f.cmd == CMD_FILE_END || f.cmd == CMD_FILE_CANCEL)
  }

  function CacheRun(file: Bytes, md5hex: Bytes, ps: nat, requests: seq<Msg>): Cache {
    if requests == [] then Cache([Msg(CMD_FILE_MD5, md5hex)], [Msg(CMD_FILE_MD5, md5hex)], false)
    else CacheStep(file, ps, CacheRun(file, md5hex, ps, requests[..|requests| - 1]), requests[|requests| - 1])
  }

  lemma {:induction false} StoppedCache(file: Bytes, md5hex: Bytes, ps: nat, requests: seq<Msg>, i: nat)
    requires i <= |requests| && CacheRun(file, md5hex, ps, requests[..i]).done
    ensures CacheRun(file, md5hex, ps, requests) == CacheRun(file, md5hex, ps, requests[..i])
    decreases |requests| - i
  {
    hide Reply;
    assert requests[..|requests|] == requests;
    if i < |requests| {
      assert requests[..i + 1][..i] == requests[..i];
      StoppedCache(file, md5hex, ps, requests, i + 1);
    }
  }

  /** A download served from the cache. */
  class ControllerDownload {
    const file: Bytes
    const md5hex: Bytes
    const packetSize: nat := TCP_PACKET_SIZE
    var lastFrame: seq<Msg>

    constructor (file: Bytes, md5hex: Bytes)
      ensures this.file == file && this.md5hex == md5hex && lastFrame == []
    {
      this.file := file;
      this.md5hex := md5hex;
      lastFrame := [];
    }

    method Write(cmd: bv8, payload: Bytes) returns (sent: seq<Msg>)
      modifies this
      ensures sent == lastFrame == [Msg(cmd, payload)]
    {
      lastFrame := [Msg(cmd, payload)];
      sent := lastFrame;
    }

    method Start() returns (sent: seq<Msg>)
      modifies this
      ensures sent == lastFrame == [Msg(CMD_FILE_MD5, md5hex)]
    {
      sent := Write(CMD_FILE_MD5, md5hex);
    }

    method WriteView() returns (sent: seq<Msg>)
      modifies this
      ensures sent == lastFrame == [ViewFrame(file, packetSize)]
    {
      var size := [LowByte(packetSize / 256), LowByte(packetSize)];
      sent := Write(CMD_FILE_VIEW, Put32(CacheTotal(|file|, packetSize)) + size);
    }

    /** Packet `seq`; a request for packet 0 gets packet 1. */
    method WriteData(seqNo: nat) returns (sent: seq<Msg>)
      requires seqNo <= MAX_UINT32
      modifies this
      ensures sent == lastFrame == [DataFrame(file, packetSize, if seqNo == 0 then 1 else seqNo)]
    {
      var q := if seqNo == 0 then 1 else seqNo;
      var off := (q - 1) * packetSize;
      if off > |file| {
        off := |file|;
      }
      var n := packetSize;
      if off + n > |file| {
        n := |file| - off;
      }
      assert file[off..off + n] == Chunk(file, packetSize, q);
      sent := Write(CMD_FILE_DATA, Put32(q) + file[off..off + n]);
    }

    /** The reaction to a controller frame: whether the transfer is over, whether the frame was
        dealt with, and what was sent. */
    method Handle(f: Msg) returns (done: bool, handled: bool, sent: seq<Msg>)
      modifies this
      ensures handled <==> f.cmd in {CMD_FILE_RETRY, CMD_FILE_VIEW, CMD_FILE_DATA, CMD_FILE_END, CMD_FILE_CANCEL}
      ensures done <==> f.cmd == CMD_FILE_END || f.cmd == CMD_FILE_CANCEL
      ensures sent == Reply(file, packetSize, old(lastFrame), f)
      ensures lastFrame == if sent == [] then old(lastFrame) else sent
    {
      hide Get32, ViewFrame, DataFrame;
      done, handled, sent := false, true, [];
      if f.cmd == CMD_FILE_RETRY {
        if |lastFrame| > 0 {
          sent := lastFrame;
        }
      } else if f.cmd == CMD_FILE_VIEW {
        sent := WriteView();
      } else if f.cmd == CMD_FILE_DATA {
        if |f.data| < 4 {
          return;
        }
        sent := WriteData(Get32(f.data));
      } else if f.cmd == CMD_FILE_END {
        sent := Write(CMD_FILE_END, []);
        done := true;
      } else if f.cmd == CMD_FILE_CANCEL {
        done := true;
      } else {
        handled := false;
      }
    }

    /** The whole transfer, as the controller's frames come in. */
    method Serve(requests: seq<Msg>) returns (log: seq<Msg>)
      modifies this
      ensures log == CacheRun(file, md5hex, packetSize, requests).sent
      ensures lastFrame == CacheRun(file, md5hex, packetSize, requests).last
    {
      hide Reply;
      log := Start();
      for i := 0 to |requests|
        invariant CacheRun(file, md5hex, packetSize, requests[..i]) == Cache(lastFrame, log, false)
      {
        assert requests[..i + 1][..i] == requests[..i];
        var done, _, sent := Handle(requests[i]);
        log := log + sent;
        if done {
          StoppedCache(file, md5hex, packetSize, requests, i + 1);
          return;
        }
      }
      assert requests[..|requests|] == requests;
    }
  }

  lemma FramesFromSender(file: Bytes, ps: nat, q: nat)
    requires ps > 0 && 1 <= q <= MAX_UINT32
    ensures FromSender(file, ps, CacheTotal(|file|, ps), DataFrame(file, ps, q))
    ensures FromSender(file, ps, CacheTotal(|file|, ps), ViewFrame(file, ps))
  {
    hide Get32, Put32, Chunk, CacheTotal;
    Get32OfPut32(q, Chunk(file, ps, q));
    TotalFits(|file|, ps);
    Get32OfPut32(CacheTotal(|file|, ps), [LowByte(ps / 256), LowByte(ps)]);
    assert (Put32(q) + Chunk(file, ps, q))[4..] == Chunk(file, ps, q);
  }

  lemma TotalFits(size: nat, ps: nat)
    ensures CacheTotal(size, ps) <= MAX_UINT32
  {
  }

  /** Every frame sent is one the receiver can trust, and the one kept for a repeat was sent. */
  ghost predicate TrustedCache(file: Bytes, ps: nat, c: Cache) {
    && (forall m :: m in c.sent ==> FromSender(file, ps, CacheTotal(|file|, ps), m))
    && (forall m :: m in c.last ==> m in c.sent)
  }

  lemma CacheStepKeeps(file: Bytes, ps: nat, c: Cache, f: Msg)
    requires ps > 0 && TrustedCache(file, ps, c)
    ensures TrustedCache(file, ps, CacheStep(file, ps, c, f))
  {
    hide FromSender, Reply, CacheTotal;
    ReplyFromSender(file, ps, c.last, f);
    var r := Reply(file, ps, c.last, f);
    assert forall m :: m in c.sent + r <==> m in c.sent || m in r;
  }

  /** Every frame the cache ever sends, repeats included, is one the receiver can trust. */
  lemma {:induction false} CacheIsSender(file: Bytes, md5hex: Bytes, ps: nat, requests: seq<Msg>)
    requires ps > 0
    ensures TrustedCache(file, ps, CacheRun(file, md5hex, ps, requests))
  {
    hide FromSender, CacheStep, CacheTotal;
    if requests == [] {
      OtherFrames(file, ps, Msg(CMD_FILE_MD5, md5hex));
    } else {
      var n := |requests| - 1;
      CacheIsSender(file, md5hex, ps, requests[..n]);
      CacheStepKeeps(file, ps, CacheRun(file, md5hex, ps, requests[..n]), requests[n]);
    }
  }

  lemma OtherFrames(file: Bytes, ps: nat, m: Msg)
    requires m.cmd != CMD_FILE_VIEW && m.cmd != CMD_FILE_DATA
    ensures FromSender(file, ps, CacheTotal(|file|, ps), m)
  {
  }

  lemma ReplyFromSender(file: Bytes, ps: nat, last: seq<Msg>, f: Msg)
    requires ps > 0
    ensures forall m :: m in Reply(file, ps, last, f) ==> m in last || FromSender(file, ps, CacheTotal(|file|, ps), m)
  {
    hide FromSender, Get32, ViewFrame, DataFrame, CacheTotal;
    OtherFrames(file, ps, Msg(CMD_FILE_END, []));
    FramesFromSender(file, ps, 1);
    if |f.data| >= 4 && Get32(f.data) >= 1 {
      FramesFromSender(file, ps, Get32(f.data));
    }
  }

  /** A download that finishes on its last packet, against a sender that computes packets and their
      number as the cache does, has written the file exactly when the file's packets can be
      counted in 32 bits. */
  lemma DownloadIsFile(command: Msg, arrivals: seq<Msg>, file: Bytes, ps: nat)
    requires ps > 0
    requires forall i :: 0 <= i < |arrivals| ==> FromSender(file, ps, CacheTotal(|file|, ps), arrivals[i])
    requires DownloadRun(command, arrivals).phase == Finished(Complete)
    ensures DownloadRun(command, arrivals).written == file <==> PacketsNeeded(|file|, ps) <= MAX_UINT32
  {
    hide PacketsNeeded, Assembled, DownloadRun, FromSender;
    WrittenIsPrefix(command, arrivals, file, ps, CacheTotal(|file|, ps));
    EnoughPackets(file, ps, CacheTotal(|file|, ps));
  }

  /** Both ends together: whatever the controller asked the cache for, and however the frames it sent
      were lost, repeated or reordered on the way, a download that completes on its last packet has
      written the file exactly when the file's packets can be counted in 32 bits. */
  lemma DownloadFromCache(command: Msg, arrivals: seq<Msg>, file: Bytes, md5hex: Bytes, ps: nat, requests: seq<Msg>)
    requires ps > 0
    requires forall i :: 0 <= i < |arrivals| ==> arrivals[i] in CacheRun(file, md5hex, ps, requests).sent
    requires DownloadRun(command, arrivals).phase == Finished(Complete)
    ensures DownloadRun(command, arrivals).written == file <==> PacketsNeeded(|file|, ps) <= MAX_UINT32
  {
    hide PacketsNeeded, DownloadRun, FromSender, CacheRun;
    CacheIsSender(file, md5hex, ps, requests);
    DownloadIsFile(command, arrivals, file, ps);
  }
}
