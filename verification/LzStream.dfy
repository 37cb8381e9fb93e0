/** The `.lz` container: length-prefixed blocks, then a 16-bit sum of the original bytes. */
module LzStream {
  import opened Bytes
  import opened QuickLzFormat
  import opened QuickLzRatio
  import QuickLzExact
  import QuickLzOverrun
  import opened QuickLzDecode
  import opened QuickLzEncode
  import opened QuickLzRoundTrip

  const BLOCK_SIZE: nat := 4096

  /** `n` bytes of `f`, most significant first. */
  function BE(f: nat, n: nat): (r: seq<byte>)
    ensures |r| == n
  {
    if n == 0 then [] else BE(f / 256, n - 1) + [f % 256]
  }

  function FromBE(b: seq<byte>): nat {
    if b == [] then 0 else 256 * FromBE(b[..|b| - 1]) + b[|b| - 1]
  }

  lemma {:induction false} BERoundTrip(f: nat, n: nat)
    requires f < Pow256(n)
    ensures FromBE(BE(f, n)) == f
  {
    if n == 0 {
    } else {
      BERoundTrip(f / 256, n - 1);
      var b := BE(f, n);
      assert b[..|b| - 1] == BE(f / 256, n - 1);
    }
  }

  lemma {:induction false} BEInjective(a: seq<byte>, b: seq<byte>)
    requires |a| == |b| && FromBE(a) == FromBE(b)
    ensures a == b
  {
    if a == [] {
    } else {
      BEInjective(a[..|a| - 1], b[..|b| - 1]);
      assert a == a[..|a| - 1] + [a[|a| - 1]] && b == b[..|b| - 1] + [b[|b| - 1]];
    }
  }

  function Sum(b: seq<byte>): nat {
    if b == [] then 0 else Sum(b[..|b| - 1]) + b[|b| - 1]
  }

  lemma {:induction false} SumAppend(a: seq<byte>, b: seq<byte>)
    ensures Sum(a + b) == Sum(a) + Sum(b)
  {
    if b == [] {
      assert a + b == a;
    } else {
      assert (a + b)[..|a + b| - 1] == a + b[..|b| - 1];
      SumAppend(a, b[..|b| - 1]);
    }
  }

  /** The sum notices every change of a single byte. */
  lemma SumNotices(a: seq<byte>, b: seq<byte>, i: nat, x: byte)
    requires i < |a| && b == a[i := x] && x != a[i]
    ensures Sum(b) - Sum(a) == x - a[i] && Sum(a) % 65536 != Sum(b) % 65536
  {
    var l, r := a[..i], a[i + 1..];
    assert a == l + [a[i]] + r && b == l + [x] + r;
    SumAppend(l + [a[i]], r);
    SumAppend(l + [x], r);
    SumAppend(l, [a[i]]);
    SumAppend(l, [x]);
    One(a[i]);
    One(x);
    Differ(Sum(a), Sum(b));
  }

  lemma One(x: byte)
    ensures Sum([x]) == x
  {
  }

  lemma Differ(p: nat, q: nat)
    requires p != q && -256 < p - q < 256
    ensures p % 65536 != q % 65536
  {
  }

  /** The number with these digits, the first the greatest. */
  function Base256Down(a: int, b: int, c: int, d: int): int {
    ((a * 256 + b) * 256 + c) * 256 + d
  }

  lemma FromBESnoc(b: seq<byte>, x: byte)
    ensures FromBE(b + [x]) == 256 * FromBE(b) + x
  {
    assert (b + [x])[..|b|] == b;
  }

  /** Numbers in the container are big-endian. */
  lemma BigEndian(a: byte, b: byte, c: byte, d: byte)
    ensures FromBE([a, b, c, d]) == Base256Down(a, b, c, d)
    ensures BE(Base256Down(a, b, c, d), 4) == [a, b, c, d]
  {
    hide FromBE, BE;
    NoDigits();
    FromBESnoc([], a);
    FromBESnoc([a], b);
    FromBESnoc([a, b], c);
    FromBESnoc([a, b, c], d);
    assert [] + [a] == [a] && [a] + [b] == [a, b] && [a, b] + [c] == [a, b, c] && [a, b, c] + [d] == [a, b, c, d];
    PowerValues();
    BERoundTrip(Base256Down(a, b, c, d), 4);
    BEInjective(BE(Base256Down(a, b, c, d), 4), [a, b, c, d]);
  }

  lemma NoDigits()
    ensures FromBE([]) == 0
  {
  }

  /** A 32-bit running sum has the right low 16 bits however often it wrapped. */
  lemma WrapKeepsChecksum(sum: nat, total: nat)
    requires sum == total % TWO_TO_THE_32
    ensures sum % 65536 == total % 65536
  {
    var q := total / TWO_TO_THE_32;
    assert total == 65536 * (65536 * q) + sum;
    ModUnique(total, 65536, 65536 * q + sum / 65536, sum % 65536);
  }

  /** The running sum of a loop over `block`. */
  method AddAll(sum0: nat, block: seq<byte>) returns (sum: nat)
    requires sum0 < TWO_TO_THE_32
    ensures sum == (sum0 + Sum(block)) % TWO_TO_THE_32
  {
    sum := sum0;
    for i := 0 to |block|
      invariant sum == (sum0 + Sum(block[..i])) % TWO_TO_THE_32
    {
      assert block[..i + 1][..i] == block[..i];
      WrapAdd(sum0 + Sum(block[..i]), block[i]);
      sum := (sum + block[i]) % TWO_TO_THE_32;
    }
    assert block[..|block|] == block;
  }

  lemma WrapAdd(a: nat, b: nat)
    ensures (a % TWO_TO_THE_32 + b) % TWO_TO_THE_32 == (a + b) % TWO_TO_THE_32
  {
    var q, r := a / TWO_TO_THE_32, a % TWO_TO_THE_32 + b;
    ModUnique(a + b, TWO_TO_THE_32, q + r / TWO_TO_THE_32, r % TWO_TO_THE_32);
  }

  // ----- What a container is -----

  function BlockLen(data: seq<byte>): nat {
    if |data| < BLOCK_SIZE then |data| else BLOCK_SIZE
  }

  /** A frame behind its 4-byte length. */
  function Chunk(frame: seq<byte>): seq<byte> {
    BE(|frame|, 4) + frame
  }

  function Chunks(frames: seq<seq<byte>>): seq<byte> {
    if frames == [] then [] else Chunk(frames[0]) + Chunks(frames[1..])
  }

  /** `frames` are `data` cut into 4096-byte blocks (the last may be shorter), each compressed. */
  ghost predicate AreFrames(frames: seq<seq<byte>>, data: seq<byte>)
    decreases |data|
  {
    if data == [] then frames == []
    else
      && frames != []
      && IsOutput(frames[0], data[..BlockLen(data)])
      && AreFrames(frames[1..], data[BlockLen(data)..])
  }

  ghost predicate IsContainer(out: seq<byte>, data: seq<byte>) {
    exists frames :: AreFrames(frames, data) && out == Chunks(frames) + BE(Sum(data) % 65536, 2)
  }

  lemma {:induction false} ChunksAppend(frames: seq<seq<byte>>, frame: seq<byte>)
    ensures Chunks(frames + [frame]) == Chunks(frames) + Chunk(frame)
  {
    hide Chunk;
    if frames == [] {
      assert frames + [frame] == [frame] && [frame][1..] == [];
    } else {
      assert (frames + [frame])[1..] == frames[1..] + [frame];
      ChunksAppend(frames[1..], frame);
    }
  }

  lemma {:induction false} FramesAppend(frames: seq<seq<byte>>, data: seq<byte>, frame: seq<byte>, block: seq<byte>)
    requires AreFrames(frames, data) && |data| % BLOCK_SIZE == 0
    requires IsOutput(frame, block) && 1 <= |block| <= BLOCK_SIZE
    ensures AreFrames(frames + [frame], data + block)
    decreases |data|
  {
    hide IsOutput;
    if data == [] {
      assert data + block == block && frames + [frame] == [frame];
      assert block[..BlockLen(block)] == block && block[BlockLen(block)..] == [];
      assert [frame][1..] == [];
    } else {
      FirstBlock(data, block);
      FramesAppend(frames[1..], data[BLOCK_SIZE..], frame, block);
      assert (frames + [frame])[1..] == frames[1..] + [frame];
    }
  }

  lemma FirstBlock(data: seq<byte>, block: seq<byte>)
    requires data != [] && |data| % BLOCK_SIZE == 0
    ensures BlockLen(data) == BlockLen(data + block) == BLOCK_SIZE && |data[BLOCK_SIZE..]| % BLOCK_SIZE == 0
    ensures (data + block)[..BLOCK_SIZE] == data[..BLOCK_SIZE]
    ensures (data + block)[BLOCK_SIZE..] == data[BLOCK_SIZE..] + block
  {
  }

  /** Compression of a whole stream; returns the container and the number of bytes consumed.
      The reader delivers `data` and then end-of-file; every write succeeds. */
  method CompressStream(data: seq<byte>) returns (w: seq<byte>, total: nat)
    ensures IsContainer(w, data)
    ensures total == |data|
  {
    hide AreFrames, IsOutput, Chunks, Sum, BE;
    w, total := [], 0;
    var sum: nat := 0;
    ghost var frames: seq<seq<byte>> := [];
    NoFrames();
    while true
      invariant total <= |data| && total % BLOCK_SIZE == 0
      invariant sum == Sum(data[..total]) % TWO_TO_THE_32
      invariant AreFrames(frames, data[..total]) && w == Chunks(frames)
      decreases |data| - total
    {
      var n := if |data| - total < BLOCK_SIZE then |data| - total else BLOCK_SIZE;
      if n > 0 {
        var block := data[total..total + n];
        sum := AddBlock(data[..total], block, sum);
        var comp := CompressBlock(block);
        assert data[..total + n] == data[..total] + block;
        FramesAppend(frames, data[..total], comp, block);
        ChunksAppend(frames, comp);
        frames := frames + [comp];
        w := w + Chunk(comp);
        total := total + n;
      }
      if n < BLOCK_SIZE {
        break;
      }
    }
    assert data[..total] == data;
    WrapKeepsChecksum(sum, Sum(data));
    w := w + BE(sum % 65536, 2);
  }

  /** A block is 4096 bytes, and only the last may be shorter. */
  lemma {:induction false} ContainerBlocks(frames: seq<seq<byte>>, data: seq<byte>)
    requires AreFrames(frames, data)
    ensures |frames| == (|data| + 4095) / 4096
    ensures forall k :: 0 <= k < |frames| ==>
                IsOutput(frames[k], data[4096 * k..if 4096 * (k + 1) <= |data| then 4096 * (k + 1) else |data|])
    decreases |data|
  {
    hide IsOutput;
    if data != [] {
      var n := BlockLen(data);
      var rest := data[n..];
      ContainerBlocks(frames[1..], rest);
      if rest == [] {
        assert |frames| == 1 && data[0..|data|] == data[..n];
      } else {
        forall k | 0 <= k < |frames|
          ensures IsOutput(frames[k], data[4096 * k..if 4096 * (k + 1) <= |data| then 4096 * (k + 1) else |data|])
        {
          if k > 0 {
            var to := if 4096 * k <= |rest| then 4096 * k else |rest|;
            assert rest[4096 * (k - 1)..to] == data[4096 * k..4096 + to];
            assert frames[1..][k - 1] == frames[k];
          }
        }
      }
    }
  }

  /** There is one container for each stream. */
  lemma OneContainer(out: seq<byte>, other: seq<byte>, data: seq<byte>)
    requires IsContainer(out, data) && IsContainer(other, data)
    ensures out == other
  {
    hide AreFrames, Chunks, BE, Sum;
    var frames :| AreFrames(frames, data) && out == Chunks(frames) + BE(Sum(data) % 65536, 2);
    var others :| AreFrames(others, data) && other == Chunks(others) + BE(Sum(data) % 65536, 2);
    SameFrames(frames, others, data);
  }

  lemma {:induction false} SameFrames(frames: seq<seq<byte>>, others: seq<seq<byte>>, data: seq<byte>)
    requires AreFrames(frames, data) && AreFrames(others, data)
    ensures frames == others
    decreases |data|
  {
    hide IsOutput;
    if data != [] {
      var n := BlockLen(data);
      QuickLzExact.OneOutput(frames[0], others[0], data[..n]);
      SameFrames(frames[1..], others[1..], data[n..]);
      assert frames == [frames[0]] + frames[1..] && others == [others[0]] + others[1..];
    }
  }

  lemma NoFrames()
    ensures AreFrames([], []) && Chunks([]) == [] && Sum([]) == 0
  {
  }

  /** The bytes of `block` join the running sum of those before it. */
  method AddBlock(ghost before: seq<byte>, block: seq<byte>, sum0: nat) returns (sum: nat)
    requires sum0 == Sum(before) % TWO_TO_THE_32
    ensures sum == Sum(before + block) % TWO_TO_THE_32
  {
    WrapAdd(Sum(before), Sum(block));
    SumAppend(before, block);
    sum := AddAll(sum0, block);
  }

  lemma FrameLength(frame: seq<byte>, block: seq<byte>)
    requires 1 <= |block| <= BLOCK_SIZE && IsOutput(frame, block)
    ensures 4 <= |frame| < TWO_TO_THE_32
  {
    hide IsBody, IsKeptFrame, PoorRatio, Header;
    if IsKeptFrame(frame, block) {
      KeptIsCompressed(frame, block);
      var body :| IsBody(body, block) && frame == Header(true, HeaderSize(|block|) + |body|, |block|) + body;
      BodySize(body, block);
    }
  }

  // ----- Reading a container -----

  datatype StreamError = TooShort | TruncatedHeader | TruncatedBlock | BadBlock | BadChecksum

  /** `Panicked` is the run-time panic of an index past the end of a block; it is no error value. */
  datatype StreamResult =
    | Fine(written: seq<byte>)
    | Failed(written: seq<byte>, error: StreamError)
    | Panicked(written: seq<byte>)

  /** The blocks of `body` from index `i`, after `written`. */
  function DecodeBlocks(body: seq<byte>, i: nat, written: seq<byte>): StreamResult
    decreases |body| - i
  {
    if i >= |body| then Fine(written)
    else if i + 4 > |body| then Failed(written, TruncatedHeader)
    else
      var blkLen := FromBE(body[i..i + 4]);
      if blkLen == 0 || i + 4 + blkLen > |body| then Failed(written, TruncatedBlock)
      else
        var r := DecodeBlock(body[i + 4..i + 4 + blkLen]);
        if r.OutOfRange? then Panicked(written)
        else if r.Corrupt? then Failed(written, BadBlock)
        else DecodeBlocks(body, i + 4 + blkLen, written + r.data)
  }

  function DecodeStream(src: seq<byte>): StreamResult {
    if |src| < 2 then Failed([], TooShort)
    else
      var body := src[..|src| - 2];
      var r := DecodeBlocks(body, 0, []);
      if r.Fine? && Sum(r.written) % 65536 != FromBE(src[|src| - 2..]) then Failed(r.written, BadChecksum) else r
  }

  /** The block loop, with its running sum. */
  method ReadBlocks(body: seq<byte>) returns (r: StreamResult, sum: nat)
    ensures r == DecodeBlocks(body, 0, [])
    ensures r.Fine? ==> sum == Sum(r.written) % TWO_TO_THE_32
  {
    hide Sum, FromBE, DecodeBlock;
    var i: nat, w := 0, [];
    sum := 0;
    NoFrames();
    ghost var goal := DecodeBlocks(body, 0, []);
    while i < |body|
      invariant sum == Sum(w) % TWO_TO_THE_32
      invariant DecodeBlocks(body, i, w) == goal
      decreases |body| - i
    {
      if i + 4 > |body| {
        return Failed(w, TruncatedHeader), sum;
      }
      var blkLen := FromBE(body[i..i + 4]);
      if blkLen == 0 || i + 4 + blkLen > |body| {
        return Failed(w, TruncatedBlock), sum;
      }
      var out := DecompressBlock(body[i + 4..i + 4 + blkLen]);
      if out.OutOfRange? {
        return Panicked(w), sum;
      }
      if out.Corrupt? {
        return Failed(w, BadBlock), sum;
      }
      i := i + 4 + blkLen;
      sum := AddBlock(w, out.data, sum);
      w := w + out.data;
    }
    r := Fine(w);
  }

  method DecompressStream(src: seq<byte>) returns (r: StreamResult)
    ensures r == DecodeStream(src)
  {
    hide DecodeBlocks, Sum, FromBE;
    if |src| < 2 {
      return Failed([], TooShort);
    }
    var wantSum := FromBE(src[|src| - 2..]);
    var sum;
    r, sum := ReadBlocks(src[..|src| - 2]);
    if r.Fine? {
      WrapKeepsChecksum(sum, Sum(r.written));
      if sum % 65536 != wantSum {
        r := Failed(r.written, BadChecksum);
      }
    }
  }

  // ----- Streams that run past a block's end -----

  /** A block of the body whose length and declared size let the decompressor overrun. */
  ghost predicate OverrunBlock(body: seq<byte>, j: nat) {
    && j + 4 <= |body|
    && var n := FromBE(body[j..j + 4]);
       j + 4 + n <= |body| && QuickLzOverrun.OverrunSizes(n, SizeCompressed(body[j + 4..j + 4 + n]))
  }

  /** A stream panics only at such a block. */
  lemma {:induction false} PanicsAtBlock(body: seq<byte>, i: nat, written: seq<byte>) returns (j: nat)
    requires DecodeBlocks(body, i, written).Panicked?
    ensures OverrunBlock(body, j)
    decreases |body| - i
  {
    hide DecodeBlock, SizeCompressed, FromBE;
    var n := FromBE(body[i..i + 4]);
    var block := body[i + 4..i + 4 + n];
    if DecodeBlock(block).OutOfRange? {
      QuickLzOverrun.OverrunOnlyThen(block);
      j := i;
    } else {
      j := PanicsAtBlock(body, i + 4 + n, written + DecodeBlock(block).data);
    }
  }

  function PanicWitness(m: nat): (src: seq<byte>)
    requires m >= 9
    ensures |src| == m
  {
    BE(3, 4) + [77, 200, 5] + QuickLzOverrun.Zeros(m - 7)
  }

  lemma WitnessPanics(m: nat)
    requires m >= 9
    ensures DecodeStream(PanicWitness(m)).Panicked?
  {
    hide DecodeBlock, BE, FromBE, Sum;
    var body := PanicWitness(m)[..m - 2];
    PowerValues();
    BERoundTrip(3, 4);
    assert body[0..4] == BE(3, 4) && body[4..7] == [77, 200, 5];
    QuickLzOverrun.ThreeBytesOverrun();
    assert DecodeBlocks(body, 0, []).Panicked?;
  }

  /** A malformed stream makes the decoder panic for exactly the lengths from 9 bytes on: one block
      header, three bytes and the checksum. */
  lemma PanicsExactly(m: nat)
    ensures (exists src: seq<byte> :: |src| == m && DecodeStream(src).Panicked?) <==> m >= 9
  {
    hide DecodeBlocks, Sum, FromBE;
    if src: seq<byte> :| |src| == m && DecodeStream(src).Panicked? {
      var j := PanicsAtBlock(src[..m - 2], 0, []);
    }
    if m >= 9 {
      WitnessPanics(m);
    }
  }

  // ----- The round trip -----

  /** A frame behind its length decodes to its block, and decoding goes on behind it. */
  lemma ChunkDecodes(body: seq<byte>, i: nat, frame: seq<byte>, block: seq<byte>, written: seq<byte>)
    requires 1 <= |block| <= BLOCK_SIZE && IsOutput(frame, block)
    requires i + 4 + |frame| <= |body| && body[i..i + 4 + |frame|] == Chunk(frame)
    ensures DecodeBlocks(body, i, written) == DecodeBlocks(body, i + 4 + |frame|, written + block)
  {
    FrameLength(frame, block);
    EmittedDecodes(frame, block);
    hide IsOutput, DecodeBlock, DecodeBlocks;
    ChunkReads(body, i, frame);
    OneBlock(body, i, frame, block, written);
  }

  lemma ChunkReads(body: seq<byte>, i: nat, frame: seq<byte>)
    requires |frame| < TWO_TO_THE_32
    requires i + 4 + |frame| <= |body| && body[i..i + 4 + |frame|] == Chunk(frame)
    ensures FromBE(body[i..i + 4]) == |frame| && body[i + 4..i + 4 + |frame|] == frame
  {
    hide BE, FromBE;
    var c := body[i..i + 4 + |frame|];
    PowerValues();
    BERoundTrip(|frame|, 4);
    assert body[i..i + 4] == c[..4] == BE(|frame|, 4);
    assert body[i + 4..i + 4 + |frame|] == c[4..] == frame;
  }

  lemma OneBlock(body: seq<byte>, i: nat, frame: seq<byte>, block: seq<byte>, written: seq<byte>)
    requires i + 4 + |frame| <= |body| && |frame| > 0
    requires FromBE(body[i..i + 4]) == |frame| && body[i + 4..i + 4 + |frame|] == frame
    requires DecodeBlock(frame) == Ok(block)
    ensures DecodeBlocks(body, i, written) == DecodeBlocks(body, i + 4 + |frame|, written + block)
  {
    hide DecodeBlock, FromBE;
  }

  /** Blocks decode, in order, to the data they were cut from. */
  lemma {:induction false} ChunksDecode(body: seq<byte>, i: nat, frames: seq<seq<byte>>, data: seq<byte>,
                                        written: seq<byte>)
    requires i <= |body| && body[i..] == Chunks(frames) && AreFrames(frames, data)
    ensures DecodeBlocks(body, i, written) == Fine(written + data)
    decreases |data|
  {
    hide IsOutput, Chunk, Chunks, DecodeBlocks;
    if data == [] {
      NoChunks(body, i, frames, written);
      assert written + data == written;
    } else {
      var n, more := BlockLen(data), i + 4 + |frames[0]|;
      FirstChunk(body, i, frames);
      ChunkDecodes(body, i, frames[0], data[..n], written);
      ChunksDecode(body, more, frames[1..], data[n..], written + data[..n]);
      assert written + data[..n] + data[n..] == written + data;
    }
  }

  lemma NoChunks(body: seq<byte>, i: nat, frames: seq<seq<byte>>, written: seq<byte>)
    requires i <= |body| && body[i..] == Chunks(frames) && frames == []
    ensures DecodeBlocks(body, i, written) == Fine(written)
  {
    assert |body[i..]| == |body| - i;
  }

  lemma FirstChunk(body: seq<byte>, i: nat, frames: seq<seq<byte>>)
    requires i <= |body| && frames != [] && body[i..] == Chunks(frames)
    ensures var more := i + 4 + |frames[0]|;
            more <= |body| && body[i..more] == Chunk(frames[0]) && body[more..] == Chunks(frames[1..])
  {
    hide Chunk;
    ChunkLength(frames[0]);
    var c := Chunk(frames[0]);
    assert body[i..][..|c|] == c && body[i..][|c|..] == Chunks(frames[1..]);
    assert body[i..i + |c|] == c && body[i + |c|..] == Chunks(frames[1..]);
  }

  lemma ChunkLength(frame: seq<byte>)
    ensures |Chunk(frame)| == 4 + |frame|
  {
  }

  /** For every byte stream, of any length: decompressing its container writes the stream back and
      the checksum matches. */
  lemma StreamRoundTrip(out: seq<byte>, data: seq<byte>)
    requires IsContainer(out, data)
    ensures DecodeStream(out) == Fine(data)
  {
    var frames :| AreFrames(frames, data) && out == Chunks(frames) + BE(Sum(data) % 65536, 2);
    TrailerDecides(frames, data, BE(Sum(data) % 65536, 2));
  }

  /** Over intact blocks exactly one trailer is accepted. */
  lemma TrailerDecides(frames: seq<seq<byte>>, data: seq<byte>, trailer: seq<byte>)
    requires AreFrames(frames, data) && |trailer| == 2
    ensures DecodeStream(Chunks(frames) + trailer)
         == if trailer == BE(Sum(data) % 65536, 2) then Fine(data) else Failed(data, BadChecksum)
  {
    hide AreFrames, Chunks, Sum, DecodeBlocks;
    var body := Chunks(frames);
    var src, sum := body + trailer, Sum(data) % 65536;
    assert src[..|src| - 2] == body && src[|src| - 2..] == trailer && body[0..] == body;
    ChunksDecode(body, 0, frames, data, []);
    assert [] + data == data;
    PowerValues();
    TrailerValue(trailer, sum);
  }

  lemma TrailerValue(trailer: seq<byte>, sum: nat)
    requires |trailer| == 2 && sum < 65536
    ensures FromBE(trailer) == sum <==> trailer == BE(sum, 2)
  {
    PowerValues();
    BERoundTrip(sum, 2);
    if FromBE(trailer) == sum {
      BEInjective(trailer, BE(sum, 2));
    }
  }

  // ----- A container cut short -----

  lemma FirstChunkThen(body: seq<byte>, i: nat, frames: seq<seq<byte>>, tail: seq<byte>)
    requires i <= |body| && frames != [] && body[i..] == Chunks(frames) + tail
    ensures var more := i + 4 + |frames[0]|;
            && more <= |body| && body[i..more] == Chunk(frames[0])
            && body[more..] == Chunks(frames[1..]) + tail
  {
    hide Chunk;
    ChunkLength(frames[0]);
    var c, rest := Chunk(frames[0]), Chunks(frames[1..]);
    assert Chunks(frames) == c + rest;
    hide Chunks;
    assert (c + rest) + tail == c + (rest + tail);
    Split(body, i, c, rest + tail);
  }

  lemma Split(body: seq<byte>, i: nat, c: seq<byte>, rest: seq<byte>)
    requires i <= |body| && body[i..] == c + rest
    ensures i + |c| <= |body| && body[i..i + |c|] == c && body[i + |c|..] == rest
  {
    assert body[i..][..|c|] == body[i..i + |c|] && body[i..][|c|..] == body[i + |c|..];
  }

  lemma CutChunk(body: seq<byte>, i: nat, frame: seq<byte>, k: nat, written: seq<byte>)
    requires i <= |body| && |frame| < TWO_TO_THE_32 && 0 < k < 4 + |frame|
    requires k <= |Chunk(frame)| && body[i..] == Chunk(frame)[..k]
    ensures DecodeBlocks(body, i, written) == Failed(written, if k < 4 then TruncatedHeader else TruncatedBlock)
  {
    hide BE, FromBE, DecodeBlock;
    assert |body[i..]| == k;
    if k >= 4 {
      PowerValues();
      BERoundTrip(|frame|, 4);
      assert body[i..i + 4] == body[i..][..4] == BE(|frame|, 4);
    }
  }

  /** A container that ends inside a block is refused: the blocks before it are written, and the error says whether
      the cut fell into its length or into the block. */
  lemma {:induction false} CutIsRefused(body: seq<byte>, i: nat, frames: seq<seq<byte>>, data: seq<byte>,
                                        frame: seq<byte>, k: nat, written: seq<byte>)
    requires AreFrames(frames, data) && |frame| < TWO_TO_THE_32 && 0 < k < 4 + |frame|
    requires k <= |Chunk(frame)| && i <= |body| && body[i..] == Chunks(frames) + Chunk(frame)[..k]
    ensures DecodeBlocks(body, i, written) == Failed(written + data, if k < 4 then TruncatedHeader else TruncatedBlock)
    decreases |data|
  {
    hide IsOutput, Chunk, Chunks, DecodeBlocks;
    ChunkLength(frame);
    if data == [] {
      NoneBefore(frames);
      assert body[i..] == Chunk(frame)[..k] && written + data == written;
      CutChunk(body, i, frame, k, written);
    } else {
      var n, more := BlockLen(data), i + 4 + |frames[0]|;
      FirstChunkThen(body, i, frames, Chunk(frame)[..k]);
      ChunkDecodes(body, i, frames[0], data[..n], written);
      CutIsRefused(body, more, frames[1..], data[n..], frame, k, written + data[..n]);
      assert written + data[..n] + data[n..] == written + data;
    }
  }

  lemma NoneBefore(frames: seq<seq<byte>>)
    requires frames == []
    ensures Chunks(frames) == []
  {
  }

  /** A container shorter than its checksum is refused. */
  lemma TooShortExactly(src: seq<byte>)
    ensures DecodeStream(src) == Failed([], TooShort) <==> |src| < 2
  {
    hide DecodeBlocks, Sum, FromBE;
    if |src| >= 2 {
      NeverTooShort(src[..|src| - 2], 0, []);
    }
  }

  lemma {:induction false} NeverTooShort(body: seq<byte>, i: nat, written: seq<byte>)
    ensures DecodeBlocks(body, i, written).Failed? ==> DecodeBlocks(body, i, written).error != TooShort
    decreases |body| - i
  {
    hide DecodeBlock, FromBE;
    if i + 4 <= |body| {
      var n := FromBE(body[i..i + 4]);
      if i + 4 + n <= |body| && DecodeBlock(body[i + 4..i + 4 + n]).Ok? {
        NeverTooShort(body, i + 4 + n, written + DecodeBlock(body[i + 4..i + 4 + n]).data);
      }
    }
  }
}
