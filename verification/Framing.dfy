/** Wire frames and the resynchronising stream scanner. */
module Framing {
  import opened Crc

  type Bytes = seq<bv8>

  const MAX_RETAINED: nat := 0x1_0000
  const MAX_TOTAL: nat := 0x2_0000

  /** One decoded packet; `raw` is its exact wire bytes. */
  datatype Frame = Frame(cmd: bv8, data: Bytes, raw: Bytes)

  function BE16(hi: bv8, lo: bv8): (n: nat)
    ensures n < 0x1_0000
  {
    (hi as nat) * 256 + (lo as nat)
  }

  /** The low byte of a number, as Go's `byte(n)`. */
  function LowByte(n: nat): (b: bv8)
    ensures b as nat == n % 256
  {
    var m: int := n % 256;
    assert m % 256 == m;
    m as bv8
  }

  // ----- Encoding -----

  /** LEN, CMD and DATA: what the checksum covers.  LEN counts CMD, DATA and CRC. */
  function Covered(cmd: bv8, data: Bytes): Bytes {
    [LowByte((|data| + 3) / 256), LowByte(|data| + 3), cmd] + data
  }

  function Wire(cmd: bv8, data: Bytes): (w: Bytes)
    ensures |w| == |data| + 9
  {
    var c := Covered(cmd, data);
    [0x86, 0x68] + c + [HighOf(ByTable(c)), LowOf(ByTable(c))] + [0x55, 0xAA]
  }

  method Encode(table: seq<bv16>, cmd: bv8, data: Bytes) returns (out: Bytes)
    requires IsTable(table)
    ensures out == Wire(cmd, data)
  {
    var dataLen := 1 + |data| + 2;
    out := [0x86, 0x68];
    out := out + [LowByte(dataLen / 256), LowByte(dataLen)];
    out := out + [cmd];
    out := out + data;
    assert out[2..] == Covered(cmd, data);
    var crc := CRC16(table, out[2..]);
    out := out + [HighOf(crc), LowOf(crc)];
    out := out + [0x55, 0xAA];
  }

  /** The checksum over LEN, CMD, DATA and CRC of any encoded frame is zero. */
  lemma WireSelfCheck(cmd: bv8, data: Bytes)
    ensures var w := Wire(cmd, data);
            ByTable(w[2..|w| - 2]) == 0
  {
    hide ByTable, HighOf, LowOf, LowByte;
    var c := Covered(cmd, data);
    SelfCheck(c);
    assert Wire(cmd, data)[2..|data| + 7] == c + [HighOf(ByTable(c)), LowOf(ByTable(c))];
  }

  // ----- Scanning -----

  /** The outcome of one look at the buffer: a frame, bytes to discard, or nothing yet. */
  datatype Parse = Got(f: Frame, consumed: nat) | Skip(consumed: nat) | Wait

  /** The first index from `i` on that holds a header's first byte, or the length. */
  function NextHeaderByte(b: Bytes, i: nat): (k: nat)
    requires i <= |b|
    ensures i <= k <= |b|
    ensures forall j :: i <= j < k ==> b[j] != 0x86
    ensures k < |b| ==> b[k] == 0x86
    decreases |b| - i
  {
    if i == |b| || b[i] == 0x86 then i else NextHeaderByte(b, i + 1)
  }

  predicate HeaderAt0(b: Bytes) {
    |b| >= 2 && b[0] == 0x86 && b[1] == 0x68
  }

  function ParseOne(b: Bytes): (p: Parse)
    ensures p.Got? ==> 9 <= p.consumed <= |b| && p.consumed <= 65541 && |p.f.raw| == p.consumed
    ensures p.Skip? ==> 1 <= p.consumed <= |b|
  {
    if |b| >= 2 && !HeaderAt0(b) then Skip(NextHeaderByte(b, 1))
    else if |b| < 2 then (if |b| == 1 && b[0] != 0x86 then Skip(1) else Wait)
    else if |b| < 5 then Wait
    else
      var dataLen := BE16(b[2], b[3]);
      var total := 4 + dataLen + 2;
      if dataLen < 3 || total > MAX_TOTAL then Skip(2)
      else if |b| < total then Wait
      else if b[total - 2] != 0x55 || b[total - 1] != 0xAA then Skip(2)
      else Got(Frame(b[4], b[5..5 + dataLen - 3], b[..total]), total)
  }

  datatype Scan = Scan(frames: seq<Frame>, rest: Bytes)

  /** Everything one push can extract from a buffer, before the garbage cap. */
  function ScanAll(b: Bytes): Scan
    decreases |b|
  {
    match ParseOne(b)
    case Wait => Scan([], b)
    case Skip(n) => ScanAll(b[n..])
    case Got(f, n) =>
      var s := ScanAll(b[n..]);
      Scan([f] + s.frames, s.rest)
  }

  function Cap(rest: Bytes): Bytes {
    if |rest| > MAX_RETAINED then rest[|rest| - 2..] else rest
  }

  /** The scanner: the bytes that do not yet form a frame are kept for the next push. */
  class Scanner {
    var buf: Bytes

    constructor ()
      ensures buf == []
    {
      buf := [];
    }

    method Push(p: Bytes) returns (frames: seq<Frame>)
      modifies this
      ensures frames == ScanAll(old(buf) + p).frames
      ensures buf == Cap(ScanAll(old(buf) + p).rest)
    {
      hide ParseOne;
      buf := buf + p;
      frames := [];
      ghost var goal := ScanAll(buf);
      var waiting := false;
      while !waiting
        invariant waiting ==> ScanAll(buf) == Scan([], buf)
        invariant goal == Scan(frames + ScanAll(buf).frames, ScanAll(buf).rest)
        decreases !waiting, |buf|
      {
        var r := FindFrame();
        match r {
          case Wait =>
            waiting := true;
          case Skip(n) =>
            buf := buf[n..];
          case Got(f, n) =>
            ghost var more := ScanAll(buf[n..]).frames;
            assert frames + ([f] + more) == frames + [f] + more;
            buf := buf[n..];
            frames := frames + [f];
        }
      }
      if |buf| > MAX_RETAINED {
        buf := buf[|buf| - 2..];
      }
    }

    /** One look at the front of the buffer. */
    method FindFrame() returns (p: Parse)
      ensures p == ParseOne(buf)
    {
      if |buf| >= 2 && !HeaderAt0(buf) {
        for i := 1 to |buf|
          invariant NextHeaderByte(buf, i) == NextHeaderByte(buf, 1)
        {
          if buf[i] == 0x86 {
            return Skip(i);
          }
        }
        return Skip(|buf|);
      }
      if |buf| < 2 {
        return if |buf| == 1 && buf[0] != 0x86 then Skip(1) else Wait;
      }
      if |buf| < 5 {
        return Wait;
      }
      var dataLen := BE16(buf[2], buf[3]);
      var total := 4 + dataLen + 2;
      if dataLen < 3 || total > MAX_TOTAL {
        return Skip(2);
      }
      if |buf| < total {
        return Wait;
      }
      if buf[total - 2] != 0x55 || buf[total - 1] != 0xAA {
        return Skip(2);
      }
      return Got(Frame(buf[4], buf[5..5 + dataLen - 3], buf[..total]), total);
    }
  }

  // ----- Cutting a stream does not matter -----

  /** More input does not change a decision already made. */
  lemma ParseStable(a: Bytes, b: Bytes)
    ensures ParseOne(a).Got? ==> ParseOne(a + b) == ParseOne(a)
    ensures ParseOne(a).Skip? && ParseOne(a).consumed < |a| ==> ParseOne(a + b) == ParseOne(a)
  {
    hide BE16;
    var ab := a + b;
    if |a| >= 2 {
      assert ab[0] == a[0] && ab[1] == a[1];
      if !HeaderAt0(a) {
        NextHeaderByteStable(a, b, 1);
      } else if |a| >= 5 {
        assert ab[2] == a[2] && ab[3] == a[3] && ab[4] == a[4];
        var total := 4 + BE16(a[2], a[3]) + 2;
        if 9 <= total <= |a| {
          assert ab[..total] == a[..total] && ab[5..total - 4] == a[5..total - 4];
          assert ab[total - 2] == a[total - 2] && ab[total - 1] == a[total - 1];
        }
      }
    }
  }

  lemma {:induction false} NextHeaderByteStable(a: Bytes, b: Bytes, i: nat)
    requires i <= |a|
    ensures NextHeaderByte(a + b, i)
         == if NextHeaderByte(a, i) < |a| then NextHeaderByte(a, i) else |a| + NextHeaderByte(b, 0)
    decreases |a| - i
  {
    if i < |a| {
      assert (a + b)[i] == a[i];
      NextHeaderByteStable(a, b, i + 1);
    } else {
      NextHeaderByteShift(a, b, 0);
    }
  }

  lemma {:induction false} NextHeaderByteShift(a: Bytes, b: Bytes, i: nat)
    requires i <= |b|
    ensures NextHeaderByte(a + b, |a| + i) == |a| + NextHeaderByte(b, i)
    decreases |b| - i
  {
    if i < |b| {
      assert (a + b)[|a| + i] == b[i];
      NextHeaderByteShift(a, b, i + 1);
    }
  }

  /** Leading bytes that cannot start a header do not matter. */
  lemma DropJunk(b: Bytes)
    ensures ScanAll(b) == ScanAll(b[NextHeaderByte(b, 0)..])
  {
    var k := NextHeaderByte(b, 0);
    if k == 0 {
      assert b[0..] == b;
    } else {
      assert ParseOne(b) == Skip(k);
    }
  }

  /** Scanning a stream is scanning its start, then what was kept of it with the rest. */
  lemma {:induction false} ScanSplit(a: Bytes, b: Bytes)
    ensures var s := ScanAll(a);
            var t := ScanAll(s.rest + b);
            ScanAll(a + b) == Scan(s.frames + t.frames, t.rest)
    decreases |a|
  {
    hide ParseOne;
    ParseStable(a, b);
    match ParseOne(a) {
      case Wait =>
        ConcatNil(ScanAll(a + b).frames);
      case Got(f, n) =>
        assert (a + b)[n..] == a[n..] + b;
        ScanSplit(a[n..], b);
        var s := ScanAll(a[n..]);
        ConcatAssoc([f], s.frames, ScanAll(s.rest + b).frames);
      case Skip(n) =>
        if n < |a| {
          assert (a + b)[n..] == a[n..] + b;
          ScanSplit(a[n..], b);
        } else {
          AllJunk(a, b);
          assert a[n..] == [] && [] + b == b;
          ScanEmpty();
          ConcatNil(ScanAll(b).frames);
        }
    }
  }

  lemma ConcatNil(f: seq<Frame>)
    ensures [] + f == f
  {
  }

  lemma ConcatAssoc(a: seq<Frame>, b: seq<Frame>, c: seq<Frame>)
    ensures (a + b) + c == a + (b + c)
  {
  }

  lemma ScanEmpty()
    ensures ScanAll([]) == Scan([], [])
  {
  }

  /** A buffer that is discarded whole leaves no trace. */
  lemma AllJunk(a: Bytes, b: Bytes)
    requires ParseOne(a) == Skip(|a|)
    ensures ScanAll(a + b) == ScanAll(b)
  {
    hide ParseOne;
    if b == [] {
      assert a + b == a;
      assert a[|a|..] == [];
    } else {
      var k := NextHeaderByte(b, 0);
      JunkRunsOn(a, b);
      assert (a + b)[|a| + k..] == b[k..];
      DropJunk(b);
    }
  }

  lemma JunkRunsOn(a: Bytes, b: Bytes)
    requires ParseOne(a) == Skip(|a|) && b != []
    ensures ParseOne(a + b) == Skip(|a| + NextHeaderByte(b, 0))
  {
    NextHeaderByteStable(a, b, 1);
    assert (a + b)[0] == a[0];
    assert !HeaderAt0(a + b);
  }

  // ----- Pushes -----

  /** The frames and the buffer after pushing `chunks` one after another. */
  function PushAll(buf: Bytes, chunks: seq<Bytes>): Scan
    decreases |chunks|
  {
    if chunks == [] then Scan([], buf)
    else
      var s := ScanAll(buf + chunks[0]);
      var t := PushAll(Cap(s.rest), chunks[1..]);
      Scan(s.frames + t.frames, t.rest)
  }

  function Join(chunks: seq<Bytes>): Bytes {
    if chunks == [] then [] else chunks[0] + Join(chunks[1..])
  }

  /** The garbage cap never fires: after each chunk at most 64 KiB are retained. */
  ghost predicate NeverCapped(before: Bytes, chunks: seq<Bytes>)
    decreases |chunks|
  {
    chunks != [] ==>
      |ScanAll(before + chunks[0]).rest| <= MAX_RETAINED && NeverCapped(before + chunks[0], chunks[1..])
  }

  lemma {:induction false} PushAllIsScan(before: Bytes, chunks: seq<Bytes>)
    requires NeverCapped(before, chunks)
    ensures var s := ScanAll(before);
            var t := PushAll(s.rest, chunks);
            ScanAll(before + Join(chunks)) == Scan(s.frames + t.frames, t.rest)
    decreases |chunks|
  {
    hide ScanAll;
    var s := ScanAll(before);
    if chunks == [] {
      assert before + [] == before;
      assert s.frames + [] == s.frames;
    } else {
      var now := before + chunks[0];
      ScanSplit(before, chunks[0]);
      PushAllIsScan(now, chunks[1..]);
      assert before + Join(chunks) == now + Join(chunks[1..]);
      var t := ScanAll(s.rest + chunks[0]);
      ConcatAssoc(s.frames, t.frames, PushAll(t.rest, chunks[1..]).frames);
    }
  }

  /** Any two ways of cutting one stream give the same frames and retain the same bytes, as long
      as the garbage cap fires in neither. */
  lemma CutInvariance(chunks: seq<Bytes>, chunks': seq<Bytes>)
    requires Join(chunks) == Join(chunks')
    requires NeverCapped([], chunks) && NeverCapped([], chunks')
    ensures PushAll([], chunks) == PushAll([], chunks') == ScanAll(Join(chunks))
  {
    hide ScanAll;
    ScanEmpty();
    PushAllIsScan([], chunks);
    PushAllIsScan([], chunks');
    assert [] + Join(chunks) == Join(chunks);
    ConcatNil(PushAll([], chunks).frames);
    ConcatNil(PushAll([], chunks').frames);
  }

  // ----- Encoded frames through the scanner -----

  datatype Packet = Packet(cmd: bv8, data: Bytes)

  /** The longest payload whose frame, one byte short, the scanner still retains. */
  const MAX_PAYLOAD: nat := 65528

  function Sent(packets: seq<Packet>): Bytes {
    if packets == [] then [] else Wire(packets[0].cmd, packets[0].data) + Sent(packets[1..])
  }

  function FrameOf(p: Packet): Frame {
    Frame(p.cmd, p.data, Wire(p.cmd, p.data))
  }

  function Received(packets: seq<Packet>): seq<Frame> {
    if packets == [] then [] else [FrameOf(packets[0])] + Received(packets[1..])
  }

  lemma LengthField(n: nat)
    requires n < 0x1_0000
    ensures BE16(LowByte(n / 256), LowByte(n)) == n
  {
    hide LowByte;
    assert (n / 256) % 256 == n / 256;
  }

  lemma WireBytes(cmd: bv8, data: Bytes)
    ensures var w, n := Wire(cmd, data), |data|;
            && w[0] == 0x86 && w[1] == 0x68
            && w[2] == LowByte((n + 3) / 256) && w[3] == LowByte(n + 3) && w[4] == cmd
            && w[5..5 + n] == data && w[n + 7] == 0x55 && w[n + 8] == 0xAA
  {
  }

  /** A whole frame at the front of the buffer is returned, byte for byte. */
  lemma ParseWire(cmd: bv8, data: Bytes)
    requires |data| <= 65532
    ensures ParseOne(Wire(cmd, data)) == Got(Frame(cmd, data, Wire(cmd, data)), |data| + 9)
  {
    hide Wire, BE16, LowByte;
    WireBytes(cmd, data);
    LengthField(|data| + 3);
    var w := Wire(cmd, data);
    assert HeaderAt0(w) && BE16(w[2], w[3]) == |data| + 3;
    assert w[..|data| + 9] == w;
  }

  /** A frame cut short is waited for. */
  lemma PartialWaits(cmd: bv8, data: Bytes, k: nat)
    requires |data| <= 65532 && k < |data| + 9
    ensures ParseOne(Wire(cmd, data)[..k]) == Wait
  {
    hide Wire, BE16, LowByte;
    WireBytes(cmd, data);
    LengthField(|data| + 3);
    var w, p := Wire(cmd, data), Wire(cmd, data)[..k];
    if k >= 1 {
      assert p[0] == w[0];
    }
    if k >= 2 {
      assert p[1] == w[1];
    }
    if k >= 5 {
      assert p[2] == w[2] && p[3] == w[3];
    }
  }

  lemma ScanWire(cmd: bv8, data: Bytes, more: Bytes)
    requires |data| <= 65532
    ensures ScanAll(Wire(cmd, data) + more)
         == Scan([Frame(cmd, data, Wire(cmd, data))] + ScanAll(more).frames, ScanAll(more).rest)
  {
    hide Wire, ParseOne;
    ParseWire(cmd, data);
    ParseStable(Wire(cmd, data), more);
    var w := Wire(cmd, data);
    assert (w + more)[|w|..] == more;
  }

  /** What is retained after any part of a stream of frames is a frame cut short. */
  lemma {:induction false} PrefixRetained(packets: seq<Packet>, k: nat)
    requires forall i :: 0 <= i < |packets| ==> |packets[i].data| <= MAX_PAYLOAD
    requires k <= |Sent(packets)|
    ensures |ScanAll(Sent(packets)[..k]).rest| <= MAX_RETAINED
    decreases |packets|
  {
    hide Wire, ParseOne;
    if packets == [] {
      ScanEmpty();
    } else {
      var cmd, data := packets[0].cmd, packets[0].data;
      var w, more := Wire(cmd, data), Sent(packets[1..]);
      if k < |w| {
        assert Sent(packets)[..k] == w[..k];
        PartialWaits(cmd, data, k);
      } else {
        assert Sent(packets)[..k] == w + more[..k - |w|];
        ScanWire(cmd, data, more[..k - |w|]);
        PrefixRetained(packets[1..], k - |w|);
      }
    }
  }

  lemma {:induction false} ScanSent(packets: seq<Packet>)
    requires forall i :: 0 <= i < |packets| ==> |packets[i].data| <= MAX_PAYLOAD
    ensures ScanAll(Sent(packets)) == Scan(Received(packets), [])
    decreases |packets|
  {
    hide Wire, ParseOne;
    if packets == [] {
      ScanEmpty();
    } else {
      ScanWire(packets[0].cmd, packets[0].data, Sent(packets[1..]));
      ScanSent(packets[1..]);
    }
  }

  lemma {:induction false} SentNeverCapped(packets: seq<Packet>, before: Bytes, chunks: seq<Bytes>)
    requires forall i :: 0 <= i < |packets| ==> |packets[i].data| <= MAX_PAYLOAD
    requires before + Join(chunks) == Sent(packets)
    ensures NeverCapped(before, chunks)
    decreases |chunks|
  {
    hide ScanAll, Sent;
    if chunks != [] {
      var now := before + chunks[0];
      assert Sent(packets)[..|now|] == now;
      PrefixRetained(packets, |now|);
      assert now + Join(chunks[1..]) == Sent(packets);
      SentNeverCapped(packets, now, chunks[1..]);
    }
  }

  /** Any concatenation of encoded frames, cut anywhere, yields exactly those frames, each with its
      wire bytes, and leaves nothing behind. */
  lemma FramesSurvive(packets: seq<Packet>, chunks: seq<Bytes>)
    requires forall i :: 0 <= i < |packets| ==> |packets[i].data| <= MAX_PAYLOAD
    requires Join(chunks) == Sent(packets)
    ensures PushAll([], chunks) == Scan(Received(packets), [])
  {
    hide ScanAll, Sent, PushAll, Received, Join;
    assert [] + Join(chunks) == Join(chunks);
    SentNeverCapped(packets, [], chunks);
    CutInvariance(chunks, chunks);
    ScanSent(packets);
  }

  /** No frame is longer than the buffer it came from, nor than a length field can say. */
  lemma {:induction false} FramesBounded(b: Bytes)
    ensures forall f :: f in ScanAll(b).frames ==> |f.raw| <= |b| && |f.raw| <= 65541
    decreases |b|
  {
    hide ParseOne;
    match ParseOne(b)
    case Wait =>
    case Skip(n) => FramesBounded(b[n..]);
    case Got(f, n) => FramesBounded(b[n..]);
  }

  /** A single frame arrives intact however it is cut. */
  ghost predicate SurvivesEveryCut(cmd: bv8, data: Bytes) {
    forall chunks :: Join(chunks) == Wire(cmd, data) ==>
      PushAll([], chunks) == Scan([Frame(cmd, data, Wire(cmd, data))], [])
  }

  /** The exact reach of the scanner: a frame survives every cut if and only if its payload has at
      most 65528 bytes. */
  lemma SurvivesExactly(cmd: bv8, data: Bytes)
    ensures SurvivesEveryCut(cmd, data) <==> |data| <= MAX_PAYLOAD
  {
    hide PushAll, Wire, Join, ScanAll;
    if |data| <= MAX_PAYLOAD {
      forall chunks | Join(chunks) == Wire(cmd, data)
        ensures PushAll([], chunks) == Scan([Frame(cmd, data, Wire(cmd, data))], [])
      {
        OnePacket(Packet(cmd, data));
        FramesSurvive([Packet(cmd, data)], chunks);
      }
    } else {
      var chunks := BadCut(cmd, data);
    }
  }

  lemma OnePacket(p: Packet)
    ensures Sent([p]) == Wire(p.cmd, p.data) && Received([p]) == [FrameOf(p)]
  {
    hide Wire;
    assert [p][1..] == [];
  }

  /** A cut that loses an oversized frame: one byte past the retention limit, or for a payload
      whose length does not fit the length field, no cut at all. */
  lemma BadCut(cmd: bv8, data: Bytes) returns (chunks: seq<Bytes>)
    requires |data| > MAX_PAYLOAD
    ensures Join(chunks) == Wire(cmd, data)
    ensures PushAll([], chunks) != Scan([Frame(cmd, data, Wire(cmd, data))], [])
  {
    hide Wire, ParseOne;
    var w := Wire(cmd, data);
    if |data| > 65532 {
      chunks := [w];
      JoinOne(w);
      FramesBounded(w);
      PushOne([], w);
    } else {
      var head, tail := w[..MAX_RETAINED + 1], w[MAX_RETAINED + 1..];
      chunks := [head, tail];
      JoinTwo(head, tail);
      PartialWaits(cmd, data, MAX_RETAINED + 1);
      FramesBounded(Cap(head) + tail);
      PushTwo(head, tail);
    }
  }

  lemma JoinOne(a: Bytes)
    ensures Join([a]) == a
  {
    assert [a][1..] == [];
  }

  lemma JoinTwo(a: Bytes, b: Bytes)
    ensures Join([a, b]) == a + b
  {
    assert [a, b][1..] == [b];
    JoinOne(b);
  }

  lemma PushOne(buf: Bytes, a: Bytes)
    ensures PushAll(buf, [a]).frames == ScanAll(buf + a).frames
    ensures buf == [] ==> PushAll(buf, [a]).frames == ScanAll(a).frames
  {
    hide ScanAll;
    assert [a][1..] == [];
    assert buf == [] ==> buf + a == a;
  }

  lemma PushTwo(a: Bytes, b: Bytes)
    requires ParseOne(a) == Wait
    ensures PushAll([], [a, b]).frames == ScanAll(Cap(a) + b).frames
  {
    assert ScanAll(a) == Scan([], a);
    hide ScanAll, ParseOne;
    assert [a, b][1..] == [b] && [] + a == a;
    PushOne(Cap(a), b);
    ConcatNil(PushAll(Cap(a), [b]).frames);
  }

  /** Junk that holds no header byte is skipped without touching the frames behind it. */
  lemma JunkSkipped(junk: Bytes, packets: seq<Packet>)
    requires forall i :: 0 <= i < |junk| ==> junk[i] != 0x86
    requires forall i :: 0 <= i < |packets| ==> |packets[i].data| <= MAX_PAYLOAD
    ensures ScanAll(junk + Sent(packets)) == Scan(Received(packets), [])
  {
    hide Sent, Received, ParseOne, ScanAll;
    if junk == [] {
      assert junk + Sent(packets) == Sent(packets);
    } else {
      JunkIsDropped(junk);
      AllJunk(junk, Sent(packets));
    }
    ScanSent(packets);
  }

  lemma JunkIsDropped(junk: Bytes)
    requires junk != [] && forall i :: 0 <= i < |junk| ==> junk[i] != 0x86
    ensures ParseOne(junk) == Skip(|junk|)
  {
  }

  // ----- Junk that looks like a frame -----

  /** At position i stands a header that starts no frame: its length field is too small, or the bytes where its
      frame would end are not the trailer. */
  predicate FalseHeader(b: Bytes, i: nat)
    requires i + 5 <= |b|
  {
    var n := BE16(b[i + 2], b[i + 3]);
    n < 3 || (i + n + 6 <= |b| && !(b[i + n + 4] == 0x55 && b[i + n + 5] == 0xAA))
  }

  /** Every header that starts in the first k bytes is a false one. */
  ghost predicate OnlyFalseHeaders(b: Bytes, k: nat) {
    forall i :: 0 <= i < k && i + 1 < |b| && b[i] == 0x86 && b[i + 1] == 0x68 ==> i + 5 <= |b| && FalseHeader(b, i)
  }

  lemma FalseIsSkipped(b: Bytes, i: nat)
    requires i + 5 <= |b| && b[i] == 0x86 && b[i + 1] == 0x68 && FalseHeader(b, i)
    ensures ParseOne(b[i..]) == Skip(2)
  {
    hide BE16;
    var c := b[i..];
    assert c[0] == b[i] && c[1] == b[i + 1] && c[2] == b[i + 2] && c[3] == b[i + 3];
    var total := 4 + BE16(c[2], c[3]) + 2;
    if BE16(c[2], c[3]) >= 3 {
      assert c[total - 2] == b[i + total - 2] && c[total - 1] == b[i + total - 1];
    }
  }

  /** What is skipped at position i ends before the frame. */
  lemma SkipsWithin(b: Bytes, i: nat, k: nat) returns (n: nat)
    requires i < k < |b| && b[k] == 0x86 && OnlyFalseHeaders(b, k)
    ensures 1 <= n <= k - i && ParseOne(b[i..]) == Skip(n)
  {
    hide BE16, FalseHeader, ParseOne;
    var c := b[i..];
    assert c[0] == b[i] && c[1] == b[i + 1] && c[k - i] == b[k];
    if HeaderAt0(c) {
      FalseIsSkipped(b, i);
      n := 2;
    } else {
      n := NextHeaderByte(c, 1);
      NoHeaderSkips(c);
    }
  }

  lemma NoHeaderSkips(c: Bytes)
    requires |c| >= 2 && !HeaderAt0(c)
    ensures ParseOne(c) == Skip(NextHeaderByte(c, 1))
  {
  }

  /** Junk costs only itself, even if it is full of headers, as long as none of them starts a frame: a false
      header never swallows the frame behind it. */
  lemma {:induction false} JunkCostsItself(b: Bytes, i: nat, k: nat)
    requires i <= k < |b| && b[k] == 0x86 && OnlyFalseHeaders(b, k)
    ensures ScanAll(b[i..]) == ScanAll(b[k..])
    decreases k - i
  {
    hide ParseOne, OnlyFalseHeaders;
    if i < k {
      var n := SkipsWithin(b, i, k);
      assert b[i..][n..] == b[i + n..];
      JunkCostsItself(b, i + n, k);
    }
  }

  /** So the frames sent behind such junk all arrive. */
  lemma FalseHeadersSkipped(junk: Bytes, packets: seq<Packet>)
    requires forall i :: 0 <= i < |packets| ==> |packets[i].data| <= MAX_PAYLOAD
    requires packets != [] && OnlyFalseHeaders(junk + Sent(packets), |junk|)
    ensures ScanAll(junk + Sent(packets)) == Scan(Received(packets), [])
  {
    hide ParseOne, ScanAll, OnlyFalseHeaders, Wire;
    var b := junk + Sent(packets);
    SentStarts(packets);
    assert b[|junk|..] == Sent(packets) && b[0..] == b && b[|junk|] == Sent(packets)[0];
    JunkCostsItself(b, 0, |junk|);
    ScanSent(packets);
  }

  lemma SentStarts(packets: seq<Packet>)
    requires packets != []
    ensures Sent(packets) != [] && Sent(packets)[0] == 0x86
  {
    hide Wire;
    WireBytes(packets[0].cmd, packets[0].data);
  }

  /** Dropping an overlong buffer never cuts off the header of a frame that has just begun: its one or two bytes
      are the bytes kept, and the frame arrives with the next push. */
  lemma CapKeepsStart(junk: Bytes, cmd: bv8, data: Bytes, k: nat)
    requires 1 <= k <= 2 && |junk| + k > MAX_RETAINED && |data| <= MAX_PAYLOAD
    ensures var w := Wire(cmd, data);
            ScanAll(Cap(junk + w[..k]) + w[k..]) == Scan([Frame(cmd, data, w)], [])
  {
    hide ParseOne, Wire, ScanAll;
    var w, rest := Wire(cmd, data), junk + Wire(cmd, data)[..k];
    WireBytes(cmd, data);
    OnePacket(Packet(cmd, data));
    ScanSent([Packet(cmd, data)]);
    if k == 2 {
      assert Cap(rest) == w[..2] && w[..2] + w[2..] == w;
    } else {
      var x := junk[|junk| - 1];
      assert Cap(rest) == [x, 0x86];
      var b := [x] + w;
      assert [x, 0x86] + w[1..] == b && b[1..] == w && b[0..] == b;
      if x == 0x86 {
        assert b[1] == 0x86;
      }
      JunkCostsItself(b, 0, 1);
    }
  }
}
