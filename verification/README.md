# Verified model of the CNC proxy

The proxy sits between a CNC machine's single connection and everyone who wants to use it: the
official controller, a file-sync engine, jog sessions and realtime controls. This project models the
parts of it where a mistake loses data or motion control, and proves what they promise.

| module | models |
|---|---|
| `Bytes`, `QuickLzFormat`, `QuickLzDecode`, `QuickLzSearch`, `QuickLzRatio`, `QuickLzEncode`, `QuickLzExact`, `QuickLzRoundTrip`, `QuickLzOverrun` | the QuickLZ level-3 codec: the token formats and control words, the decompressor and the malformed blocks it runs past the end of, the bail-out, the hash-table compressor, and the proof that one undoes the other |
| `LzStream` | the `.lz` container: length-prefixed blocks and a 16-bit checksum |
| `Crc`, `Framing` | CRC-16/XMODEM, the frame encoder and the resynchronising scanner |
| `Transfer`, `UploadLoop`, `TransferLoop` | the packet handshake of uploads, downloads and cache-served downloads, what every request is answered with, and whole transfers with both ends talking |
| `RelayMux`, `RelayRuns`, `RelayTransfers` | the injection multiplexer, and every interleaving of pump, injector, release flush and reader |
| `Arbiter`, `ArbiterRuns` | who owns the machine connection, and every interleaving of operations, realtime controls and controllers |
| `Jog`, `JogSession`, `JogRuns` | jog arithmetic, a session's locked sections, and whole sessions |
| `StoreModel`, `StoreLife`, `Store` | the durable catalog and queue as values, what every sequence of operations keeps, and the records changed in place behind them |
| `SyncEngine`, `EngineRuns`, `JobRuns`, `JobOutcomes`, `EngineStore` | one pass over the queue, passes in sequence, one job against a changing store, what it leaves behind, and the engine's writes |
| `StockFill` | the multi-source fill of a stock height map |

Code that updates state is a class or a method proved equal to a function of the old state; what the
source promises is then proved of that function. Each protocol is a transition system whose steps
are the source's locked sections and I/O calls, so that the theorems hold for every interleaving of
them. In the codec shifts and masks are divisions and remainders by powers of two, and fields that do
not overlap are added; the CRC uses bit vectors.

## Where the code and its documentation differ

- `internal/session/arbiter.go:226-229` says the connection generation changes for every fresh
  conversation. A connection published by a realtime control does not change it
  (`internal/session/arbiter.go:513-516`): `ArbiterRuns.TwoConversationsOneGeneration` is such a run,
  `ArbiterRuns.GenerationChanges` the exact condition.
- The scanner drops a buffer of more than 65536 bytes (`internal/protocol/frame.go:151`), also when
  it is the start of a sound frame. `Framing.SurvivesExactly`: a frame survives every way of cutting
  the stream if and only if its payload has at most 65528 bytes.
- The codec's headers hold 32-bit sizes: a block comes back if and only if it is shorter than 2^32
  bytes (`QuickLzRoundTrip.RoundTrip`).
- `internal/quicklz/quicklz.go:25` promises `ErrCorrupt` on malformed input. The tail loop checks its
  index against the declared compressed size instead of the slice
  (`internal/quicklz/decompress.go:155-158`), and so can run past its end:
  `QuickLzOverrun.ThreeBytesOverrun` gives three bytes that do. `QuickLzOverrun.OverrunExactly`: some
  slice of `n` bytes declaring a compressed size of `c` overruns if and only if `n < c` and either
  `n >= 3` and `11 <= c <= 255`, or `n >= 6` and `17 <= c < 2^32`. A stream of `m` bytes can therefore
  make the `.lz` decoder panic if and only if `m >= 9` (`LzStream.PanicsExactly`).
- `internal/relay/mux.go:430-432` promises that an injection fails after an overflow instead of acting
  on a truncated reply. A read that was already waiting when the frame was lost may still time out,
  which `internal/client/conn.go:418-427` takes for the end of a console reply:
  `RelayRuns.TimeoutAfterLoss` is such a run. `RelayRuns.LossIsFatal` lists all results possible after
  a loss, and `RelayRuns.OneLateRead` shows that there is at most one such read;
  `RelayRuns.TimeoutExactly`: after any loss a timeout can still follow if and only if a read was
  waiting.
- Packet counts hold 32 bits: `Transfer.UploadComplete` and `Transfer.DownloadIsFile` say exactly for
  which files a transfer is complete.
- The backoff shift can wrap around 64 bits. `SyncEngine.WaitIsDoubling` says exactly when the wait
  is the capped doubling, `SyncEngine.WrappedWait` gives settings where it is not, and
  `SyncEngine.DefaultWait` shows that the defaults are sound.
- `internal/synceng/engine.go:155-160` promises per-path order within a pass. A rename that waits
  does not hold back jobs for its other path. `SyncEngine.FifoExactly` gives the queues for which the
  promise holds, whatever fails.
- A rename onto its own path drops the entry instead of keeping it: `JobRuns.MovesExactly`.
- A failing mkdir does not ask whether the entry is a directory: `JobRuns.MkdirFailureTouchesFile`.
- An Idle report without a position drops the jog plan, and the next tick may then start from a
  report that is not Idle: `JogRuns.TickAnchorsWhileRunning`.

## Main results

Of the table below, these are the theorems the rest builds to.

- Codec: `QuickLzRoundTrip.RoundTrip`, `QuickLzExact.OneOutput`, `QuickLzExact.EqualBlock`,
  `QuickLzOverrun.OverrunExactly`, `QuickLzRatio.GivenUpExactly`, `QuickLzRatio.KeptBodySize`,
  `LzStream.StreamRoundTrip`, `LzStream.OneContainer`, `LzStream.CutIsRefused`
- Wire: `Crc.CrcIsDivision`, `Crc.BurstDetected`, `Framing.CutInvariance`, `Framing.SurvivesExactly`,
  `Framing.FalseHeadersSkipped`
- Transfers: `UploadLoop.MachineGetsFile`, `UploadLoop.RequestAnswered`, `Transfer.UploadHonest`,
  `Transfer.AcceptsInOrder`, `Transfer.DownloadFromCache`, `TransferLoop.DownloadCompletes`,
  `TransferLoop.DownloadEnds`
- Multiplexer: `RelayRuns.ControllerOrder`, `RelayRuns.WindowEndsFlushed`, `RelayRuns.RepliesGapFree`,
  `RelayRuns.LossIsFatal`, `RelayRuns.TimeoutExactly`, `RelayTransfers.InTransferExactly`,
  `RelayTransfers.RoutedExactly`, `RelayTransfers.PollAnswered`, `RelayTransfers.AbortedExactly`
- Arbiter: `ArbiterRuns.ConnectionFate`, `ArbiterRuns.RelayHasNoOwner`, `ArbiterRuns.OnlyOwnFailureDrops`,
  `ArbiterRuns.NeverRepublished`, `ArbiterRuns.GenerationChanges`
- Jogging: `JogRuns.LeadBounded`, `JogRuns.AdmissionsInTime`, `JogRuns.FirstPushMoves`,
  `JogRuns.StaysInsideOnceInside`, `JogRuns.QueueEndExactly`, `JogRuns.PlanIsSum`,
  `JogRuns.CaptureIsEndpoint`, `JogRuns.NothingAdmittedAfterCapture`, `JogRuns.AlarmStops`,
  `JogRuns.AnchorsOnlyWhenDrained`
- Queue and sync: `Store.Store.Batch`, `StoreModel.BatchesKeep`, `StoreModel.PruneFailedKeepsNewest`,
  `StoreLife.JobLifecycle`, `StoreLife.BackupRestores`, `SyncEngine.FifoExactly`, `SyncEngine.PassWaits`,
  `EngineRuns.AttemptsInOrder`, `JobRuns.UploadNeverStale`, `JobRuns.TransferOnlyWhenMatching`,
  `JobRuns.DeleteNeverStale`, `JobOutcomes.UndisturbedSucceeds`, `JobOutcomes.DoneOnlyWhenCarriedOut`
- Stock: `StockFill.FillUncoveredStockHeights`

## Model

| member | source | states |
|---|---|---|
| QuickLzFormat.MatchDecodes | internal/quicklz/decompress.go:90-118 | whatever follows a match's bytes, the decoder reads back its offset, length and width: the five formats are unambiguous |
| QuickLzFormat.RunningWordStep | internal/quicklz/quicklz.go:192-219 | shifting one flag into the running control word keeps the sentinel below the flags |
| QuickLzFormat.RunningWordFull | internal/quicklz/quicklz.go:130-146 | the sentinel reaches bit 0 exactly after 31 flags |
| QuickLzFormat.WordOfNext | internal/quicklz/decompress.go:79-95 | the decoder's view of a control word: its low bit is the next token's flag, and it is used up exactly when the tokens and the padding are |
| QuickLzFormat.PayloadSize | internal/quicklz/quicklz.go:192-219 | a token never takes more bytes than it stands for |
| QuickLzFormat.BodySize | internal/quicklz/quicklz.go:116-245 | a body is at most `max(9, size + 4 * ceil(size / 31))` bytes |
| QuickLzFormat.ShortHeaderExact | internal/quicklz/quicklz.go:84-103 | below 216 bytes the one-byte size fields never truncate |
| QuickLzFormat.HeaderFields | internal/quicklz/quicklz.go:84-103 | the bits of the first header byte, level 3 among them, and the little-endian length fields |
| QuickLzDecode.BitlutCounts | internal/quicklz/decompress.go:68-148 | the literal-run table counts the zero flags of the low nibble |
| QuickLzDecode.CopyUp | internal/quicklz/decompress.go:127-130 | a forward copy that may read what it just wrote: every byte equals the one `offset` before it |
| QuickLzDecode.AppendCopy | internal/quicklz/decompress.go:127-130 | the byte-by-byte copy loop is that copy |
| QuickLzDecode.LiteralTail | internal/quicklz/decompress.go:149-163 | the tail loop with its skipped control words, against its specification |
| QuickLzDecode.ReadLittleEndian | internal/quicklz/quicklz.go:32-40 | the guarded little-endian read, zero past the end |
| QuickLzDecode.DecompressCore | internal/quicklz/decompress.go:67-166 | on any input the loops terminate and compute the specified outcome |
| QuickLzDecode.DecompressBlock | internal/quicklz/decompress.go:39-64 | the header, the stored form and the compressed form, against the specification |
| QuickLzDecode.DecodeBlockSafe | internal/quicklz/decompress.go:39-166 | on any input success gives exactly the declared size, and no index is out of range if the declared compressed size is within the slice; `QuickLzOverrun.OverrunExactly` has the exact reach |
| QuickLzDecode.MatchGuards | internal/quicklz/decompress.go:120-130 | a match is taken exactly if it reaches back at least 3 bytes, not past the start, and leaves the last 4 bytes alone; any other is corrupt |
| QuickLzOverrun.OverrunOnlyThen | internal/quicklz/decompress.go:39-166 | a block that is overrun declares more than it has, and enough for the two guards to let its first literal pass |
| QuickLzOverrun.OverrunExactly | internal/quicklz/decompress.go:39-166 | for which lengths and declared sizes some block is overrun, in both directions |
| QuickLzOverrun.ThreeBytesOverrun | internal/quicklz/decompress.go:149-163 | a block of three bytes that is overrun instead of being reported as corrupt |
| QuickLzRatio.KeptBodySize | internal/quicklz/quicklz.go:137-146 | a body the bail-out lets through is at most `size - size/32 + 150` bytes |
| QuickLzRatio.KeptFrameFits | internal/quicklz/quicklz.go:84-100 | so a kept frame's length fits its header field whenever the block's does |
| QuickLzRatio.GivenUpExactly | internal/quicklz/quicklz.go:130-140 | a block is given up exactly when some start of its coding, of more than half of it, takes more than 31/32 of what it codes |
| QuickLzSearch.HashSpreads | internal/quicklz/quicklz.go:28 | three-byte words that share a 12-bit half never share a hash |
| QuickLzSearch.HashOfEqualHalves | internal/quicklz/quicklz.go:28 | a word of two equal halves hashes to 0 |
| QuickLzSearch.Read3Injective | internal/quicklz/quicklz.go:158-184 | three-byte reads are equal exactly if the bytes are, so an accepted candidate really repeats |
| QuickLzSearch.RecentIsOffered | internal/quicklz/quicklz.go:157-199 | each of the last 16 positions is looked at if it shares the hash, unless the counter has just wrapped |
| QuickLzSearch.RepeatIsFound | internal/quicklz/quicklz.go:157-219 | if the three bytes also stand at a position looked at, and those are near enough, the token is a match at least that long |
| QuickLzSearch.ChosenUnique | internal/quicklz/quicklz.go:157-219 | at most one token belongs at a place |
| QuickLzSearch.GreedyUnique | internal/quicklz/quicklz.go:116-219 | of two codings made of such tokens one is the start of the other |
| QuickLzEncode.HashTable.Record | internal/quicklz/quicklz.go:187-190 | remembering a position changes one slot and one wrapping counter, and nothing else |
| QuickLzEncode.RecordAt | internal/quicklz/quicklz.go:187-199 | after a position is recorded the table holds, for each hash, the last 16 positions so far and their number in a byte |
| QuickLzEncode.SlotsAreOffered | internal/quicklz/quicklz.go:157-187 | what stands in the slots the search looks at are exactly the positions offered |
| QuickLzEncode.RecordMatched | internal/quicklz/quicklz.go:194-199 | every position a match covers is recorded |
| QuickLzEncode.ExtendMatch | internal/quicklz/quicklz.go:175-179 | the extension loop finds how far a candidate agrees, and all of it repeats |
| QuickLzEncode.FindMatch | internal/quicklz/quicklz.go:157-187 | for any table contents the search returns a match the decoder can replay, taken from a slot looked at, and no stored candidate is longer, or as long and nearer |
| QuickLzEncode.ChooseToken | internal/quicklz/quicklz.go:148-219 | the token chosen describes the data and is the one that belongs at the place: the longest, then nearest match among the positions recorded, if near enough, else a literal; and the table holds every position up to its end |
| QuickLzEncode.FlushWord | internal/quicklz/quicklz.go:130-146 | a full control word goes into its slot and a fresh group begins |
| QuickLzEncode.FinishBody | internal/quicklz/quicklz.go:232-244 | the last control word and the padding complete a body that codes all of the data and was never poor |
| QuickLzEncode.CompressTail | internal/quicklz/quicklz.go:222-244 | the second loop codes the remaining bytes as literals, and its flushes ask for no bail-out |
| QuickLzEncode.CompressCore | internal/quicklz/quicklz.go:116-245 | a kept body codes all of the data in the tokens that belong at their places, and was poor at no flush of the main loop; otherwise such a coding of a prefix was poor |
| QuickLzEncode.CompressBlock | internal/quicklz/quicklz.go:64-105 | empty for an empty block; otherwise the kept body in its frame, or the stored block if a prefix was poor |
| QuickLzExact.OneOutput | internal/quicklz/quicklz.go:64-245 | for each block that contract admits one output only, byte for byte |
| QuickLzExact.NotPoorly | internal/quicklz/quicklz.go:130-140 | where a coding was kept the bail-out fires after no start of it |
| QuickLzExact.EqualToken | internal/quicklz/quicklz.go:148-219 | in a block of equal bytes three places in 256 get a literal and the others the longest match there can be |
| QuickLzExact.EqualInLoop | internal/quicklz/quicklz.go:116-219 | so its coding takes two tokens and five bytes for every 256 bytes |
| QuickLzExact.EqualBlock | internal/quicklz/quicklz.go:64-245 | a block of n equal bytes is always kept, in about n/50 bytes and a constant |
| QuickLzRoundTrip.NoMoreMatches | internal/quicklz/decompress.go:131-163 | a literal in the last eleven bytes is followed by literals only, so the tail loop may ignore flags |
| QuickLzRoundTrip.DecodeInStep | internal/quicklz/decompress.go:67-166 | a decoder in step with the encoder's groups decodes the rest of the data |
| QuickLzRoundTrip.GuardsPass | internal/quicklz/decompress.go:120-126 | no decoder guard rejects a match the encoder emits |
| QuickLzRoundTrip.StoredDecodes | internal/quicklz/decompress.go:39-64 | a stored frame decodes to its data exactly when the length fits in 32 bits |
| QuickLzRoundTrip.CompressedDecodes | internal/quicklz/decompress.go:39-166 | a compressed frame decodes to its data exactly when both lengths fit in 32 bits |
| QuickLzRoundTrip.EmittedDecodes | internal/quicklz/decompress.go:39-166 | what the compressor may emit decodes to its block exactly when the block is shorter than 2^32 bytes |
| QuickLzRoundTrip.FrameDecodes | internal/quicklz/quicklz.go:64-105 | even a frame whose compressor never bailed out decodes to its block, up to 3.8 GB |
| QuickLzRoundTrip.RoundTrip | internal/quicklz/quicklz.go:64-245 | for every non-empty block, decompressing what compressing it gives returns it if and only if the block is shorter than 2^32 bytes |
| LzStream.CompressStream | internal/quicklz/lzfile.go:20-55 | the output is the data's blocks, framed, with the checksum of the data; the count is the data's length |
| LzStream.ReadBlocks | internal/quicklz/lzfile.go:70-92 | the block loop with its wrapping sum, against the specification |
| LzStream.DecompressStream | internal/quicklz/lzfile.go:63-97 | the decoder with each of its errors, and with the panic that is none, against the specification |
| LzStream.PanicsAtBlock | internal/quicklz/lzfile.go:70-92 | a stream panics only at a block whose length and declared size allow an overrun |
| LzStream.PanicsExactly | internal/quicklz/lzfile.go:63-97 | some stream of a length panics if and only if the length is at least 9 |
| LzStream.WrapKeepsChecksum | internal/quicklz/lzfile.go:23-50 | a 32-bit sum keeps the right low 16 bits however often it wraps |
| LzStream.SumNotices | internal/quicklz/lzfile.go:23-50 | the checksum notices every change of a single byte |
| LzStream.BigEndian | internal/quicklz/lzfile.go:36-52 | lengths and checksum are big-endian |
| LzStream.ContainerBlocks | internal/quicklz/lzfile.go:26-48 | a stream is cut into blocks of 4096 bytes, of which only the last may be shorter, each compressed on its own |
| LzStream.OneContainer | internal/quicklz/lzfile.go:20-55 | there is one container for each stream |
| LzStream.ChunksDecode | internal/quicklz/lzfile.go:70-92 | the blocks decode in order to the data they were cut from |
| LzStream.StreamRoundTrip | internal/quicklz/lzfile.go:20-97 | every byte stream of any length comes back, with a matching checksum |
| LzStream.TrailerDecides | internal/quicklz/lzfile.go:67-96 | over intact blocks exactly one trailer is accepted |
| LzStream.CutIsRefused | internal/quicklz/lzfile.go:70-92 | a container that ends inside a block is refused, with the error that says where, after the blocks before it |
| LzStream.TooShortExactly | internal/quicklz/lzfile.go:63-66 | a container is too short exactly if it cannot hold the checksum |
| Crc.MakeTable | internal/protocol/crc.go:8-22 | the generated table holds eight shifts of each byte |
| Crc.CRC16 | internal/protocol/crc.go:27-34 | the loop is the table-driven register |
| Crc.EntryIsEightBits | internal/protocol/crc.go:27-34 | one lookup does the work of eight single-bit shifts |
| Crc.FromTopIsDivide | internal/protocol/crc.go:27-34 | a register fed from the top is the long-division register sixteen shifts on |
| Crc.CrcIsDivision | internal/protocol/crc.go:8-34 | for every message the CRC is the remainder of the message times x^16 on division by x^16 + x^12 + x^5 + 1 |
| Crc.OneGivesGenerator | internal/protocol/crc.go:8-34 | the CRC of the single byte 1 is 0x1021, the generator below its leading term |
| Crc.SelfCheck | internal/protocol/crc.go:27-34 | a message followed by its own CRC has CRC zero |
| Crc.BurstDetected | internal/protocol/crc.go:27-34 | every nonzero error within 16 consecutive bits changes the CRC |
| Framing.Encode | internal/protocol/frame.go:101-112 | header, length, command, data, CRC and trailer, in the specified layout |
| Framing.WireSelfCheck | internal/protocol/frame.go:101-112 | the CRC over length, command, data and CRC of any frame is zero |
| Framing.Scanner.FindFrame | internal/protocol/frame.go:160-195 | one look at the buffer, against its specification |
| Framing.Scanner.Push | internal/protocol/frame.go:124-155 | a push returns all frames of the buffer and the input, and keeps the rest unless it exceeds the cap |
| Framing.ParseStable | internal/protocol/frame.go:160-195 | more input never changes a decision already made |
| Framing.ScanSplit | internal/protocol/frame.go:124-195 | scanning a stream is scanning its start, then what was kept of it with the rest |
| Framing.PushAllIsScan | internal/protocol/frame.go:124-155 | any sequence of pushes that never reaches the cap is one scan of the whole |
| Framing.CutInvariance | internal/protocol/frame.go:124-195 | two ways of cutting one stream give the same frames and the same buffer while neither reaches the cap |
| Framing.PrefixRetained | internal/protocol/frame.go:124-195 | for frames with payloads up to 65528 bytes no prefix of the stream retains more than the cap |
| Framing.FramesSurvive | internal/protocol/frame.go:101-195 | any concatenation of such frames, cut anywhere, yields exactly those frames with their wire bytes, and nothing is left |
| Framing.SurvivesExactly | internal/protocol/frame.go:124-195 | a frame survives every cut if and only if its payload has at most 65528 bytes |
| Framing.BadCut | internal/protocol/frame.go:149-153 | a cut that loses an oversized frame |
| Framing.JunkSkipped | internal/protocol/frame.go:160-171 | junk without a header byte is skipped and the frames behind it arrive |
| Framing.JunkCostsItself | internal/protocol/frame.go:160-195 | junk, even full of headers, costs only itself if no header in it starts a frame |
| Framing.FalseHeadersSkipped | internal/protocol/frame.go:160-195 | the frames sent behind such junk all arrive |
| Framing.CapKeepsStart | internal/protocol/frame.go:149-153 | dropping an overlong buffer never cuts off the header of a frame that has just begun |
| Transfer.EnoughPackets | internal/client/conn.go:743-765 | packets 1 to n are the file exactly when n is at least the number needed |
| Transfer.UploadComplete | internal/client/conn.go:743-765 | the announced packets are the file exactly when their true number fits in 32 bits, for any packet size |
| Transfer.DataPacket | internal/client/conn.go:743-765 | the payload for a sequence number, with the 32-bit predecessor |
| Transfer.Upload | internal/client/conn.go:615-705 | the upload loop, against its specification |
| Transfer.UploadHonest | internal/client/conn.go:646-705 | whatever the machine asks for, every frame sent carries what its number says, and an asked repeat is the frame sent just before |
| UploadLoop.RequestAnswered | internal/client/conn.go:646-705 | every request is answered at once with exactly what it asked for: the packet of its number, the view, the MD5 or the frame sent before; any other frame with nothing, and so after the end |
| UploadLoop.UploadEnds | internal/client/conn.go:659-703 | an upload succeeds exactly if the machine ends it before canceling it, and is canceled exactly the other way round |
| UploadLoop.MachineGetsFile | internal/client/conn.go:615-765 | a machine that asks for the view and then for as many packets as it announces gets the file, exactly when its packets can be counted in 32 bits |
| Transfer.Download | internal/client/conn.go:786-873 | the download loop, against its specification |
| Transfer.AcceptsInOrder | internal/client/conn.go:786-873 | under any duplication, loss or reordering, packets 1, 2, 3, ... are accepted each once and in order, and exactly their payloads are written |
| Transfer.WrittenIsPrefix | internal/client/conn.go:786-873 | against an honest sender the bytes written are always the packets before the next one |
| Transfer.DownloadIsFile | internal/client/conn.go:786-873 | a download that finishes on its last packet has written the file exactly when its packets can be counted in 32 bits |
| Transfer.ControllerDownload.WriteView | internal/relay/download_cache.go:71-77 | the view carries the packet count and the packet size |
| Transfer.ControllerDownload.WriteData | internal/relay/download_cache.go:79-102 | a data frame carries the bytes of its packet; a request for packet 0 gets packet 1 |
| Transfer.ControllerDownload.Handle | internal/relay/download_cache.go:38-63 | whether the transfer is over, whether the frame was dealt with, what is sent, and the frame kept for a repeat |
| Transfer.ControllerDownload.Serve | internal/relay/relay.go:285-295 | the whole transfer is the fold of those reactions |
| Transfer.CacheIsSender | internal/relay/download_cache.go:34-123 | over any requests every frame the cache sends, repeats, MD5 and end included, is one an honest sender may send, and the one kept for a repeat was sent |
| Transfer.DownloadFromCache | internal/relay/download_cache.go:34-123 | both ends together: any frames the cache sent, in any order and number, that complete a download have written the file exactly when its packets can be counted in 32 bits |
| TransferLoop.ExchangeConsistent | internal/relay/download_cache.go:34-123 | delivery in order and without loss is a run of either end, and the receiver has seen a prefix of what the cache sent |
| TransferLoop.DownloadCompletes | internal/client/conn.go:786-873 | such an exchange always completes, after one round for the MD5, one for the view and one for each packet announced, has the cache's MD5, and has written the file exactly when its packets can be counted in 32 bits |
| TransferLoop.RequestServed | internal/relay/download_cache.go:38-102 | every request to the cache is answered at once with exactly what it asked for |
| TransferLoop.DownloadAsks | internal/client/conn.go:786-873 | whatever arrives, the last frame sent asks for what is awaited, and every packet is answered with one frame |
| TransferLoop.Md5IsFirst | internal/client/conn.go:786-873 | a download reports the MD5 of the first MD5 frame that arrived |
| TransferLoop.DownloadEnds | internal/client/conn.go:786-873 | each outcome of a download has its own cause and no other |
| RelayMux.Mux.NoteControllerFrame | internal/relay/mux.go:79-107 | whether a controller frame is forwarded, dropped as a poll, or held, and the whole new state |
| RelayMux.Mux.AbortInteractiveLocked | internal/relay/mux.go:311-321 | the abort channel closes once and the inject channel with it |
| RelayMux.Mux.CachedStatusFrame | internal/relay/mux.go:116-123 | the last status report as a frame, if there was one |
| RelayMux.Mux.BeginLocalControllerTransfer | internal/relay/mux.go:125-136 | refused during a transfer; otherwise aborts an interactive window |
| RelayMux.Mux.FinishLocalControllerTransfer | internal/relay/mux.go:138-142 | only the transfer flag changes |
| RelayMux.Mux.AcquireInjection | internal/relay/mux.go:156-179 | busy exactly during a window or a transfer; otherwise a fresh managed window |
| RelayMux.Mux.AcquireInteractive | internal/relay/mux.go:185-206 | busy exactly during a window or a transfer; otherwise a fresh interactive window |
| RelayMux.Mux.TakeHeld | internal/relay/mux.go:219-256 | one locked section of the release: the next batch, or the end of the window |
| RelayMux.Mux.Flush | internal/relay/mux.go:219-256 | a batch is written in order |
| RelayMux.Mux.ReleaseInjection | internal/relay/mux.go:219-256 | undisturbed, the release writes exactly the held frames in order and closes the window |
| RelayMux.Mux.RouteMachineFrame | internal/relay/mux.go:261-286 | whether a machine frame goes to the controller or the injector, and the whole new state |
| RelayMux.Mux.DeliverInjectLocked | internal/relay/mux.go:288-309 | a full channel loses a frame silently in an interactive window and closes a managed one with an overflow |
| RelayRuns.StepOrdered | internal/relay/mux.go:79-107 | every step keeps: written, being flushed, held and pending are together the noted frames |
| RelayRuns.ControllerOrder | internal/relay/mux.go:219-256 | in every interleaving controller frames reach the machine once and in arrival order, and with no window open and the pump idle all have |
| RelayRuns.WindowEndsFlushed | internal/relay/mux.go:219-256 | a window ends only when the held queue is empty and flushed |
| RelayRuns.RepliesGapFree | internal/relay/mux.go:370-423 | a managed injector reads a gap-free prefix of the frames diverted to it, byte for byte; anything lost raises the overflow flag |
| RelayRuns.LossIsFatal | internal/relay/mux.go:338-423 | after a loss no frame is added, no read begins to wait and no write passes its check; kept bytes, then the overflow error, are all a new call gives, and only a read that was waiting may take a queued frame or time out |
| RelayRuns.OneLateRead | internal/relay/mux.go:394-419 | from a loss to the end of its window at most one waiting read ends, and none unless one was waiting then |
| RelayRuns.TimeoutExactly | internal/relay/mux.go:394-419 | after any loss a timeout can still come in that window if and only if a read was waiting |
| RelayRuns.TimeoutAfterLoss | internal/relay/mux.go:394-419 | a run in which a loss reaches the waiting read as a timeout |
| RelayRuns.StatusTraffic | internal/relay/mux.go:261-286 | during a window only status reports reach the controller, and diverted reports never exceed injected polls |
| RelayTransfers.InTransferExactly | internal/relay/mux.go:79-142 | the transfer mark is set exactly if a transfer was started and none has ended since, told from the steps alone |
| RelayTransfers.NothingOpensInTransfer | internal/relay/mux.go:125-206 | between the start of a transfer and its end no window opens and no other transfer begins |
| RelayTransfers.PollAnswered | internal/relay/mux.go:116-123 | a held poll is answered with the latest status report there was, or with nothing |
| RelayTransfers.PollsCounted | internal/relay/mux.go:353-368 | the polls counted in what an injector writes are its single characters `?`, frame by frame |
| RelayTransfers.RoutedExactly | internal/relay/mux.go:261-309 | every machine frame goes to exactly one side; a status report to a managed injector exactly if one of its polls waits; 256 or 128 frames are queued before one is lost |
| RelayTransfers.AbortedExactly | internal/relay/mux.go:79-142 | an interactive window is aborted exactly when a controller frame other than a poll, or a cached download, has come since it opened |
| RelayTransfers.AbortedIsClosed | internal/relay/mux.go:338-423 | an aborted window takes no writes and reads only what is left |
| RelayTransfers.EndTellsUser | internal/relay/mux.go:219-256 | the abort channel is closed by the end of the window |
| RelayTransfers.NotedExactly | internal/relay/mux.go:79-113 | every controller frame counts as noted, except the single character `?` during a window, which is answered |
| Arbiter.Arbiter.EnterRelay | internal/session/arbiter.go:238-247 | relay mode, no connection, next generation, the old connection closed |
| Arbiter.Arbiter.ExitRelay | internal/session/arbiter.go:250-254 | only the mode changes |
| Arbiter.Arbiter.LookupOwnerConn | internal/session/arbiter.go:536-546 | the first section: refused, the cached connection, or dial exactly in owner mode without one |
| Arbiter.Arbiter.PublishOwnerConn | internal/session/arbiter.go:557-574 | the second section: refused, the other's connection, or published under the next generation |
| Arbiter.Arbiter.PublishControlConn | internal/session/arbiter.go:500-516 | the same for a realtime control, with the generation unchanged |
| Arbiter.Arbiter.DropOwnerConn | internal/session/arbiter.go:458-465 | closes and forgets the connection only if it still is the published one |
| ArbiterRuns.StepKeeps | internal/session/arbiter.go:272-575 | every step keeps the invariant on connections, the operation lock and their users |
| ArbiterRuns.ConnectionFate | internal/session/arbiter.go:479-575 | in every run each dialed connection is exactly one of: in flight with the thread that dialed it, published, or closed once |
| ArbiterRuns.RelayHasNoOwner | internal/session/arbiter.go:238-254 | relay mode means no published connection; at most one operation is past the operation lock |
| ArbiterRuns.OnlyOwnFailureDrops | internal/session/arbiter.go:380-390 | only a controller's arrival, or the failing operation that used this very connection, drops it; a late failure changes nothing |
| ArbiterRuns.OperationKeepsItsConnection | internal/session/arbiter.go:272-317 | nobody else but an arriving controller takes an operation's connection away |
| ArbiterRuns.NeverRepublished | internal/session/arbiter.go:458-575 | a connection that left is closed and never comes back |
| ArbiterRuns.GenerationChanges | internal/session/arbiter.go:226-247 | the generation changes exactly when a controller arrives or an operation publishes; a fresh conversation changes it if and only if no realtime control started it |
| ArbiterRuns.LookupOutcome | internal/session/arbiter.go:479-546 | in relay mode nobody dials; in owner mode operations and controls use the connection there is and dial only without one |
| ArbiterRuns.DialOutcome | internal/session/arbiter.go:536-575 | a connection an operation dialed is published and used, or closed, with the operation going on over the other |
| ArbiterRuns.ControlDialOutcome | internal/session/arbiter.go:479-519 | the same of a realtime control |
| ArbiterRuns.SameGenerationSameConversation | internal/session/arbiter.go:226-233 | without such controls, and short of a full turn of the counter, the generation tells conversations apart |
| ArbiterRuns.TwoConversationsOneGeneration | internal/session/arbiter.go:513-516 | a run with two conversations under one generation |
| Jog.ResponseShape | internal/jog/jog.go:1998-2014 | the stick response is odd, at most full scale, and zero exactly in the dead zone |
| Jog.ResponseCubes | internal/jog/jog.go:1998-2014 | beyond the dead zone the response is the cube of the rest of the way |
| Jog.NormalizeSettles | internal/jog/jog.go:110-160 | the defaults, and that settings in force stand |
| Jog.TimingShape | internal/jog/jog.go:2095-2119 | how long a segment lasts and the queue is filled, and how old a report may be |
| Jog.LeadBudget | internal/jog/jog.go:2095-2119 | lookahead and one segment come to at most 280 ms for any configuration |
| Jog.LeadAfterSegment | internal/jog/jog.go:1724-1731 | a segment admitted under the threshold leaves at most the threshold and one segment queued |
| Jog.PlanarSpeedBound | internal/jog/jog.go:1784-1805 | `dx^2 + dy^2` never exceeds the square of the configured speed times the duration |
| Jog.ReachOfMinute | internal/jog/jog.go:1784-1805 | top speeds are distances a minute |
| Jog.PlanarSpeed | internal/jog/jog.go:1784-1805 | the planar speed is exactly the deflection, up to full, times that maximum, a fifth of it when slow |
| Jog.AxesMove | internal/jog/jog.go:1779-1805 | every axis moves with its own stick and its own top speed: zero exactly in the dead zone, with its sign, at most its reach, all of it at full deflection; the plane keeps the stick's direction |
| Jog.SegmentShorter | internal/jog/jog.go:1896-1921 | clamping shortens each component of a move and never reverses it |
| Jog.StaysInside | internal/jog/jog.go:1896-1921 | a plan inside the soft limits of an axis stays inside |
| Jog.TargetIsNearest | internal/jog/jog.go:1896-1921 | on an axis whose range holds the plan the target is the point of the range nearest to what was asked, on any other what was asked |
| Jog.SegmentSpeedBound | internal/jog/jog.go:1690-1706 | what is sent for a segment keeps to the planar maximum, clamped or not |
| Jog.SegmentFollows | internal/jog/jog.go:1690-1706 | an axis of a segment moves only the way its own stick points outside the dead zone, within its own reach |
| JogSession.FreshReportDecides | internal/jog/jog.go:2126-2171 | within two ticks of a report a segment that nothing else forbids is admitted if and only if it ends within reach of the reported position on all four axes |
| JogSession.Session.SetInput | internal/jog/jog.go:636-646 | the latest input is replaced and nothing else |
| JogSession.Session.Arm | internal/jog/jog.go:1293-1327 | armed only from a fresh Idle report with a position, with the plan there and an empty queue |
| JogSession.Session.Release | internal/jog/jog.go:2486-2513 | disarmed, no plan, no queue |
| JogSession.Session.ApplyStatus | internal/jog/jog.go:1487-1551 | the plan is replaced exactly by an Idle report with no predicted queue; a state that cannot jog releases |
| JogSession.Session.BeginCapture | internal/jog/jog.go:652-671 | the input is dropped and the admission barrier is up |
| JogSession.Session.EndCapture | internal/jog/jog.go:672-689 | the barrier is down and the plan, or the reported position without one, is returned |
| JogSession.Session.BeginTick | internal/jog/jog.go:1553-1658 | how a tick starts, ends at once or disarms |
| JogSession.Session.Admit | internal/jog/jog.go:1668-1717 | the admission checks in order, and the segment admitted |
| JogSession.Session.Commit | internal/jog/jog.go:1724-1745 | plan and queue end after a written segment, and whether the input still asks for motion |
| JogSession.Session.FinishSegmentAdmission | internal/jog/jog.go:1763-1768 | only the in-flight mark is cleared |
| JogRuns.StepKeeps | internal/jog/jog.go:1553-1768 | every step keeps the session's invariant |
| JogRuns.LeadBounded | internal/jog/jog.go:1667-1730 | in every run the predicted queue is at most the lookahead and a segment ahead, at most 280 ms |
| JogRuns.AdmissionsInTime | internal/jog/jog.go:1667-1693 | no segment is admitted later than its input and the deadman timeout, each keeps to the planar maximum, and all four axes follow their own stick within their own maximum |
| JogRuns.FirstPushMoves | internal/jog/jog.go:1553-1717 | whatever is pushed and wherever the machine is, the first tick after arming admits exactly what the stick asks for |
| JogRuns.QueueEndExactly | internal/jog/jog.go:1724-1731 | the predicted end of the queue is the least time by which every segment written since arming can have been worked off in turn |
| JogRuns.TwoSegmentsATick | internal/jog/jog.go:1667-1758 | a tick writes at most two segments, the second exactly if the input still asks for motion |
| JogRuns.TicksOnFreshReport | internal/jog/jog.go:1632-1640 | a tick sends only on a report with a position at most 2.75 s old, or as old as the deadman allows |
| JogRuns.DisarmedStaysStill | internal/jog/jog.go:2486-2513 | while the session is not armed nothing is admitted |
| JogRuns.AlarmStops | internal/jog/jog.go:1487-1551 | after a report of any state but Idle and Run nothing is admitted until the session is armed again |
| JogRuns.PlanIsSum | internal/jog/jog.go:1694-1758 | with nothing in flight the plan is the anchor plus all deltas written since, ends where the last segment does, and is inside the soft limits if the anchor was |
| JogRuns.StaysInsideOnceInside | internal/jog/jog.go:1896-1921 | for X, Y and Z: once the plan is inside the soft limits, wherever it started, it stays inside until it starts afresh from a reported position |
| JogRuns.CaptureIsEndpoint | internal/jog/jog.go:652-705 | a captured position is the end of the last segment admitted before, with nothing on its way |
| JogRuns.NothingAdmittedAfterCapture | internal/jog/jog.go:652-705 | from a capture's beginning, or from arming, no segment is admitted until a later input |
| JogRuns.NothingAdmittedDuringCapture | internal/jog/jog.go:1668-1673 | while a capture is under way no segment is admitted, even under a new input |
| JogRuns.AnchorsOnlyWhenDrained | internal/jog/jog.go:1487-1525 | the plan starts afresh only on arming, on an Idle report at or after the predicted queue end, or in a tick without a plan; a tick's own check never changes it |
| JogRuns.AnchorsWithoutIdle | internal/jog/jog.go:1641-1648 | a tick starts from a report that is not Idle exactly when there is no plan |
| JogRuns.TickAnchorsWhileRunning | internal/jog/jog.go:1641-1648 | a run in which that happens |
| StoreModel.Discard | internal/store/store.go:471-498 | exactly the queued and failed jobs of the path and kinds are finished |
| StoreModel.Find | internal/store/store.go:547-552 | the first job with the identifier |
| StoreModel.TrimIsMiddle | internal/store/store.go:668-669 | the trimmed path is a contiguous part of the path; everything outside it is white space, and neither of its ends is |
| StoreModel.PruneFailedKeepsNewest | internal/store/store.go:625-658 | exactly the newest k failures of each path and every other job remain, in order |
| StoreModel.PruneDoneAll | internal/store/store.go:602-619 | exactly the old finished jobs go, and the order stays |
| StoreModel.ApplyKeepsIds | internal/store/store.go:367-677 | every operation keeps identifiers unique and below the next one |
| StoreModel.BatchesKeep | internal/store/store.go:283-307 | over every sequence of batches, failing or not, disk and memory agree and identifiers stay good |
| StoreModel.MaxNext | internal/store/store.go:147-157 | the counter after a restore is above every identifier and no larger than needed |
| StoreModel.RestoredIds | internal/store/store.go:140-167 | a restored backup has good identifiers exactly when its own are distinct |
| StoreLife.JobLifecycle | internal/store/store.go:451-599 | a job starts only when queued, is queued again only by a retry after failing, with its attempts forgotten, and is given up only while it waits; nothing else changes it |
| StoreLife.PruneAllFailures | internal/store/store.go:625-658 | a limit of zero or less leaves no failed job, and every other |
| StoreLife.EnqueueIsNew | internal/store/store.go:501-512 | a new job is queued behind all others under an identifier of its own |
| StoreLife.EntryLifecycle | internal/store/store.go:367-468 | an operation changes the entry of one path only, and what entries say about their cache stays sound |
| StoreLife.NormalizeSays | internal/store/store.go:169-199 | normalising makes an entry sound in that way, leaves a sound one alone, and changes nothing else |
| StoreLife.BackupRestores | internal/store/store.go:117-167 | whatever was done to a store since it was empty, its backup restores to the very same model |
| StoreLife.RestoredEntries | internal/store/store.go:140-177 | a restored model has exactly the backup's entries, changed only in what they say about a missing cache |
| Store.Store.PutEntry | internal/store/store.go:367-375 | the entry is inserted or replaced, normalised, in a record of its own |
| Store.Store.SetEntrySync | internal/store/store.go:378-424 | the record changes in place exactly when present and matching |
| Store.Store.DeleteEntry | internal/store/store.go:427-448 | removed exactly when present and matching |
| Store.Store.MatchingQueuedOrFailedJobs | internal/store/store.go:485-498 | exactly the records of the path and kinds that are queued or failed |
| Store.Store.DiscardEntry | internal/store/store.go:451-468 | the entry goes and its waiting jobs are finished |
| Store.Store.DiscardJobs | internal/store/store.go:471-483 | the waiting jobs are finished |
| Store.Store.SupersedeQueuedUploads | internal/store/store.go:518-531 | the waiting uploads of the path are finished |
| Store.Store.Enqueue | internal/store/store.go:501-512 | the job joins the end of the queue under the next identifier |
| Store.Store.UpdateJob | internal/store/store.go:547-559 | the first job with the identifier is changed in place |
| Store.Store.StartJob | internal/store/store.go:562-578 | started exactly when that job is queued |
| Store.Store.RetryJob | internal/store/store.go:581-599 | requeued exactly when that job failed |
| Store.Store.PruneDoneJobs | internal/store/store.go:602-619 | the compaction loop removes exactly the old finished jobs |
| Store.Store.PruneFailedJobs | internal/store/store.go:625-658 | the two loops are the pruning specified, with a negative limit taken as 0 |
| Store.Store.MarkNewestFailures | internal/store/store.go:629-645 | the backward loop marks exactly the failures with fewer than k later ones |
| Store.Store.KeepMarked | internal/store/store.go:649-654 | the forward loop keeps the marked records in order |
| Store.Store.SetActive | internal/store/store.go:668-677 | the trimmed path is taken, and the batch is dirty only on a change |
| Store.Store.ReplaceModel | internal/store/store.go:327-336 | the model is replaced by fresh records |
| Store.Store.TakeSnapshot | internal/store/store.go:251-269 | a deep copy that shares no record with the store |
| Store.Store.RestoreSnapshot | internal/store/store.go:271-278 | the copy becomes the model |
| Store.Store.PerformAll | internal/store/store.go:289-296 | a sequence of mutators has the effect specified; unless it is dirty nothing changed |
| Store.Store.Batch | internal/store/store.go:283-307 | a batch whose function or flush fails leaves memory and disk as they were; otherwise memory has all its effects and disk agrees |
| Store.Store.Restore | internal/store/store.go:140-167 | the model becomes the restored backup, or stays if the flush fails |
| SyncEngine.WaitIsDoubling | internal/synceng/engine.go:204-216 | for any base and cap the wait is at most the cap, and the capped doubling exactly when the shift stays in 64 bits or its wrapped value is capped too |
| SyncEngine.DefaultWait | internal/synceng/engine.go:98-106 | with the defaults it is the capped doubling for any number of attempts |
| SyncEngine.WrappedWait | internal/synceng/engine.go:211-215 | settings under which a late attempt waits too little |
| SyncEngine.Drain | internal/synceng/engine.go:163-190 | the pass, against its specification |
| SyncEngine.PassOrder | internal/synceng/engine.go:155-201 | no job runs after an earlier one sharing a path backed off or failed, and a job waits for no other reason |
| SyncEngine.PassWaits | internal/synceng/engine.go:163-216 | a job nothing holds back is attempted exactly when an empty upload has settled for 15 seconds, or its backoff, never more than the cap, is over |
| SyncEngine.FifoExactly | internal/synceng/engine.go:163-201 | passes keep the order of every path, whatever fails and at whatever times, exactly when no job links two jobs without a common path |
| SyncEngine.NoRenamesPrefix | internal/synceng/engine.go:163-201 | without renames the jobs attempted on a path are a prefix of its queue |
| SyncEngine.RenameIsBridge | internal/synceng/engine.go:192-201 | an upload, a rename away and an upload to the destination form such a link |
| EngineRuns.StepKeeps | internal/synceng/engine.go:163-258 | every step of engine and clients keeps the invariant on attempts, queue and pass |
| EngineRuns.AttemptsInOrder | internal/synceng/engine.go:221-258 | across passes, failures recorded or lost before and after a job starts, and restarts, attempts on a path come in queue order, without renames and retries by hand |
| EngineRuns.RestartFailsRunning | internal/synceng/reconcile.go:137-150 | a restart leaves no job running: each that was has failed |
| JobRuns.UploadMarksExactly | internal/synceng/engine.go:379-390 | an upload marks its entry exactly when it still is the job's file in a state to be marked |
| JobRuns.DropsExactly | internal/synceng/engine.go:291-300 | a finished delete removes the entry exactly when it is still to be deleted |
| JobRuns.MovesExactly | internal/synceng/engine.go:303-323 | a rename moves its entry exactly when the entry still waits for it, with the same content and synced; it gives way to local work at the destination, and onto its own path drops the entry |
| JobRuns.StepLegit | internal/synceng/engine.go:221-355 | every section of a run changes only its own job and, only so far as its entry still matches, its entry |
| JobRuns.UploadNeverStale | internal/synceng/engine.go:325-350 | under any concurrent changes an upload marks an entry only while cache path, MD5 and size are the job's |
| JobRuns.TransferOnlyWhenMatching | internal/synceng/engine.go:325-333 | a transfer starts only right after the section that found the entry matching |
| JobRuns.DeleteNeverStale | internal/synceng/engine.go:285-300 | a delete touches an entry only while it is still to be deleted |
| JobRuns.RenameNeverStale | internal/synceng/engine.go:303-323 | a rename moves its entry only while it waits for it, and never over local work at the destination |
| JobRuns.MkdirFailureMarks | internal/synceng/engine.go:528-529 | a failing mkdir marks the entry exactly when an upload is pending there, directory or not |
| JobRuns.MkdirFailureTouchesFile | internal/synceng/engine.go:528-529 | a file put into the error state by a failing mkdir |
| JobOutcomes.SuccessRecorded | internal/synceng/engine.go:463-469 | a success is recorded on the job alone: done, one more attempt, no error |
| JobOutcomes.FailureCounts | internal/synceng/engine.go:476-495 | a failure counts the attempt; with attempts left the job is queued in place and its entry waits again, otherwise both have failed |
| JobOutcomes.CompletedFailureRecorded | internal/synceng/engine.go:497-510 | a completion that could not be recorded fails the job for good, with one more attempt, and its entry |
| JobOutcomes.FailureMayRunAgain | internal/synceng/engine.go:476-528 | a job that failed with attempts left finds its entry waiting as before |
| JobOutcomes.UndisturbedSucceeds | internal/synceng/engine.go:221-355 | a run nobody disturbs leaves the job done and the entry uploaded or made and synced, gone, or moved and synced |
| JobOutcomes.DoneOnlyWhenCarriedOut | internal/synceng/engine.go:221-280 | over every run a job is recorded as done only when the machine has carried it out, or an upload's file was gone |
| JobOutcomes.FailsForGoodWhenCarriedOut | internal/synceng/engine.go:497-510 | so does a job whose completion could not be recorded fail only then |
| JobOutcomes.LocalIntentIs | internal/synceng/engine.go:370-377 | an entry has work of its own unless it is synced or remote only |
| JobOutcomes.RenameFindsOwn | internal/synceng/engine.go:357-368 | a rename finds the entry it was made for and none with other content |
| EngineStore.Engine.SetUploadJobSync | internal/synceng/engine.go:379-390 | the section on the store's records, atomic under a failing write |
| EngineStore.Engine.RecordRunning | internal/synceng/engine.go:471-474 | the same for starting a job |
| EngineStore.Engine.RecordSuccess | internal/synceng/engine.go:463-469 | the same for success |
| EngineStore.Engine.RecordFailure | internal/synceng/engine.go:476-495 | job and entry change in one batch, or neither does |
| EngineStore.Engine.RecordMachineCompletedFailure | internal/synceng/engine.go:497-510 | the same when only the durable update failed: the job ends failed |
| StockFill.NeighborsAre | internal/carveratest/stock.go:362-370 | the four indices are exactly the adjacent cells of the grid |
| StockFill.LevelIsMin | internal/carveratest/stock.go:346-380 | a cell's level is attained at a covered cell and none is nearer |
| StockFill.CoverNext | internal/carveratest/stock.go:371-377 | a cell covered from the head is one level further out |
| StockFill.Advance | internal/carveratest/stock.go:362-379 | once its neighbours are covered the head may move on |
| StockFill.AllReached | internal/carveratest/stock.go:362-379 | covered cells that are closed under adjacency are all cells |
| StockFill.CollectSources | internal/carveratest/stock.go:350-355 | the queue starts as the covered cells in index order |
| StockFill.CoverNeighbors | internal/carveratest/stock.go:366-378 | the inner loop keeps the breadth-first frontier and the heights |
| StockFill.FillFromSources | internal/carveratest/stock.go:362-380 | the outer loop terminates with every cell filled from a nearest source |
| StockFill.FillUncoveredStockHeights | internal/carveratest/stock.go:346-380 | covered heights stay; every other cell gets the height of a covered cell at minimum Manhattan distance; early returns otherwise |

## Left out

- HTTP, WebDAV, the web UI, events to subscribers, authentication, cameras, the tray and deployment: plumbing over libraries and the operating system.
- Sockets, serial ports, deadlines and the file writes inside a flush: a flush succeeds or fails as one step, a machine write is one append to a log, and a read deadline is the end of the arrivals.
- Store.Store.Restore: job diagnostics, which a restore clears, are not part of the model.
- Agreement of the codec with the firmware's C code: the Go encoder is proved against the Go decoder.
- Transfer.Download: an early end of file is the completion `EndedEarly`, about which nothing more is claimed; progress reports are not modelled.
- Transfer.Upload: the start delay, the reason text of a cancel and progress reports are not modelled.
- Store: UI settings, the execution context and job diagnostics are not part of the model, nor are events; timestamps are integers and identifiers do not wrap.
- Store.Store.SetEntrySync: stands for the unconditional, the state-conditional and the matching form, which differ only in the match; likewise `DeleteEntry`.
- EngineRuns.AttemptsInOrder: a failed job retried by hand may run after later ones, restoring a backup replaces the queue, and renames link paths; all three are excluded.
- JobRuns.StepLegit: the paths a job may name and the cache directory check are nondeterministic refusals; a section that changes nothing may fail here, which it cannot in the source.
- JogRuns: steps, tap targets and origins are not modelled; they are not held back by the capture barrier. A pending tap target is always absent, the soft limits are constant over a run, and the time a segment was written is the time it is recorded.
- JogRuns.AnchorsOnlyWhenDrained: a report counts as observed when the session applies it, as in the source.
- Jog: the text of jog commands, rounding to four decimals and floating-point rounding; a hypotenuse is a value whose square is the sum of squares.
- RelayRuns: failing writes end a session and are not modelled; a cached download's own traffic is in `Transfer`; what the console client makes of an error is not part of this model.
- ArbiterRuns: the borrowed connection of relay mode is one step; status refreshes and the tracker are not modelled.
- StockFill.FillUncoveredStockHeights: grids whose cell counts do not multiply to the slices' length are left to the caller, as in the source, which has no branch for them; its only call is with slices allocated for the grid (`internal/carveratest/stock.go:261-262`).
- StockFill: the sampling of the model's triangles and the carving that follow are floating-point geometry.
