# A verified model of a small kernel's codecs, protocols and tables

This project models the parts of a C kernel in which correctness is subtle, and proves what they promise for
every input, every run and every interleaving. `dafny verify dfyconfig.toml` checks all of it.

Nine groups of modules, each a specification on values, the in-place form of the source proved against it, and
the theorems about it:

- **FSE tables** (`FseOrbit`, `FseBuild`, `FsePredefined`, `FseCodec`, `FseStream`, `FseHeader`, `FseHeaderCodec`;
  section 4.1 of RFC 8878). Which probabilities the builder accepts and which cell each symbol gets, why a complete
  table decodes (its intervals tile the states), the round trip through the backward bit stream, the header that
  always describes a complete table, and a predefined table cell by cell.
- **DEFLATE** (`Huffman`, `HuffmanReader`, `Inflate`, `InflateReader`, `DeflateWriter`, `DeflateTables`,
  `DeflateBlocks`, `DeflateFormat`, `DeflateExamples`, `DeflateDynamic`; RFC 1950 and RFC 1951). The decoder inflates
  exactly the streams that carry blocks, to the expansion of those blocks: a writer for stored, fixed and dynamic
  blocks is inverted, and every accepted stream is some writing. The constants are derived as the RFCs define them,
  and whole streams are given byte by byte.
- **Packets** (`Checksum`, `Packets`, `PacketFormats`; RFC 1071, 791, 768, 792 and 793). Build and parse are inverse
  through Ethernet, IPv4 and the transport layer, every field stands where the RFCs put it, built checksums verify, and
  packets with a changed byte are refused.
- **TCP** (`Tcp`, `TcpSystem`, `TcpProgress`, `TcpStreams`, `TcpResends`). Two connection machines and a network that
  loses, repeats and reorders: whatever happens, accepted bytes are a prefix of the bytes given; what comes in order is
  accepted and acknowledged, so that any two streams can be brought across and closed; and which segments can be sent
  again.
- **Compositor** (`Scene`, `ScenePictures`, `Surfaces`, `Compositors`, `WindowManagers`, `WindowTies`). Redrawing the
  damage is redrawing everything, down to the pixel loops; what each change does to the picture; and a hit test finds
  the window that is shown.
- **Btrfs reading** (`BtrfsTree`, `BtrfsFile`, `BtrfsFormats`, `BtrfsTwoLevels`, `BtrfsShortFile`, `Crc32c`). The
  key-guided descent refines a scan of all leaves, a read returns the flat file and succeeds exactly when it should,
  what is written in the format is read back, and the checksum detects every error burst within four bytes.
- **IPv4 reassembly** (`Reassembly`, `ReassemblyCases`, `ReassemblyOrigins`, `ReassemblyRepeats`, `ReassemblyMixes`,
  `ReassemblyTables`; section 3.2 of RFC 791). Any partition in any order of arrival, among any other traffic; where
  the bytes of a datagram that comes out have come from; and what a repeated fragment does.
- **Handles** (`Handles`, `HandleRuns`, `HandleRights`, `HandleLedger`, `HandleTables`). References, deferred release,
  generations, rights that are only ever what was given, and the balance of retains and releases, over every run of
  operations.
- **Block cache and wait queues** (`BlockCache`, `BlockCaches`, `CacheRetention`, `CacheRaces`, `WaitQueues`).
  Coherence, replacement and what stays cached over every run, overlapping operations, and linked queues that serve in
  order of arrival.

`Bits` holds powers, shifts and bit strings, `BitExamples` bytes and small numbers bit by bit, and `Options` the option
type.

## What the proofs found

Where the source does less than one would expect, the model does what the source does, a lemma shows it at an input,
and the exact condition is proved for all inputs:

- The FSE builder accepts more than complete tables: it accepts exactly when the positive counts are a multiple of
  the cells below the threshold (`FseOrbit.BackAtZero`), an accepted table decodes exactly when its probabilities are
  complete (`FseBuild.FseTable.Build`), and `[0]` is accepted without being so (`FseBuild.AcceptedIncomplete`). With
  accuracy logs 1 and 3 the spreading walk never leaves cell 0.
- A probability header that ends in -1 is read back exactly when there is one bit beyond its end
  (`FseHeaderCodec.HeaderReadIff`, with two bytes that are refused in `FseHeaderCodec.SpareBitExample`).
- A TCP FIN that carries data to FIN_WAIT_2 loses the data: the stream is complete exactly when the FIN comes alone
  (`TcpSystem.CompleteIffFinAlone`, with the concrete segment in `TcpSystem.FinLosesItsData`). Acknowledgments are
  compared without wrap-around, so an end is deaf exactly while its outstanding numbers pass 2^32
  (`Tcp.AckHeardIffUnwrapped`, `Tcp.WrappedAckIgnored`). One segment is kept for retransmission: a segment can be sent
  again exactly if it is that one, unacknowledged and with retries left (`TcpResends.CanResendIffKept`), and sending
  anything replaces it (`TcpResends.NextWriteForgets`).
- A hit test breaks ties by window, the compositor by layer; they agree exactly as `WindowManagers.HitShownIff`
  says, which holds while the height counter has not wrapped, and not for the two windows of
  `WindowManagers.HitBehindShown`, which `WindowTies.TieThroughWrap` reaches.
- A file range past the end of the last extent cannot be read, though holes elsewhere can: `BtrfsFile.ReadFile` states
  exactly when a read succeeds, and `BtrfsShortFile.FifthByteUnreadable` gives a file.
- When the reassembly table is full, a fragment of another datagram goes into the oldest entry as it stands
  (`Reassembly.ForeignIffCrowded`), and a datagram counted whole can have a gap. What comes out is made of bytes of its
  own packets exactly when no other packet was put into its entry and nothing in it lay beyond the datagram
  (`ReassemblyOrigins.OutputGenuineIff`). A fragment loses what has arrived exactly when it has arrived before
  (`ReassemblyRepeats.RepeatLosesIff`). `ReassemblyMixes` has a run for each failure.
- Handles of slot 31 are never accepted, because the slot number does not fit its five bits (`Handles.DecodeMade`):
  opening returns a handle that works exactly when a slot before the last was free (`Handles.OpenedOpensIff`), and what
  slot 31 holds is held until everything is closed (`HandleRuns.LastHeldUntilCloseAll`).
- The cache releases its lock during device transfers. A write is safe in every continuation exactly when nothing is
  under way for its sector or it writes nothing new (`CacheRaces.SendSafeIffSeparate`); otherwise another write or a
  fetch can leave cache and device different (`CacheRaces.OverlappingWritesDiverge`,
  `CacheRaces.FetchAndWriteDiverge`).
- The cache clock runs over, and then the cache can give up the sector used last (`BlockCache.WrapEvictsNewest`). It
  gives up the least recently used one exactly when all ages lie on one side of the clock
  (`BlockCache.EvictsLeastRecentIff`).

## Model

| member | source | states |
|---|---|---|
| `FseOrbit.OrbitInjective` | kernel/fs/btrfs/fse.c:104-114 | with an odd step the spreading walk repeats no cell within one period |
| `FseOrbit.OrbitCovers` | kernel/fs/btrfs/fse.c:104-114 | with an odd step one period visits every cell |
| `FseOrbit.UsableAll` | kernel/fs/btrfs/fse.c:104-114 | one period meets exactly as many cells below the threshold as there are |
| `FseOrbit.VisitedAll` | kernel/fs/btrfs/fse.c:104-114 | one period counts each occurrence of a symbol below the threshold once |
| `FseOrbit.BackAtZero` | kernel/fs/btrfs/fse.c:113-114 | after placing n symbols the walk stands on cell 0 exactly when n is a multiple of the cells below the threshold |
| `FseBuild.StepParity` | kernel/fs/btrfs/fse.c:104-104 | the step is odd for every accuracy log but 1 and 3, where it is a multiple of the table size |
| `FseBuild.CompleteIsAccepted` | kernel/fs/btrfs/fse.c:86-124 | probabilities whose magnitudes add up to the table size are always accepted |
| `FseBuild.BuiltIsComplete` | kernel/fs/btrfs/fse.c:86-124 | a built table has complete probabilities: the occurrences of all symbols add up to its size |
| `FseBuild.AcceptedIncomplete` | kernel/fs/btrfs/fse.c:86-124 | probabilities [0] at accuracy log 5 are accepted and are not complete |
| `FseBuild.PlaceLow` | kernel/fs/btrfs/fse.c:93-103 | the k-th symbol of probability -1 stands in cell size - 1 - k, and the other counts are recorded |
| `FseBuild.NextCell` | kernel/fs/btrfs/fse.c:111-111 | the search for the next cell below the threshold terminates, because the walk comes back to cell 0 |
| `FseBuild.PlaceSymbol` | kernel/fs/btrfs/fse.c:108-112 | one symbol gains exactly its count of cells, the next ones of the walk below the threshold, and no other symbol loses one |
| `FseBuild.SpreadSymbols` | kernel/fs/btrfs/fse.c:104-114 | the spread succeeds exactly when it ends on cell 0; then every symbol has exactly its count of cells, and unit i of the symbols in order stands on the i-th cell below the threshold that the walk by size/2 + size/8 + 3 visits |
| `FseBuild.StateFields` | kernel/fs/btrfs/fse.c:117-120 | bits and base of one state follow from its descriptor without overflow of 8 and 16 bits |
| `FseBuild.AssignStates` | kernel/fs/btrfs/fse.c:115-121 | every state gets the bits and base of its own occurrence of its symbol |
| `FseBuild.Fill` | kernel/fs/btrfs/fse.c:92-122 | the three phases together: success is decided by the arguments, and complete probabilities give a built table with every cell where the walk puts it |
| `FseBuild.FseTable.Build` | kernel/fs/btrfs/fse.c:86-124 | succeeds exactly on the accepted arguments; an accepted table is built if and only if its probabilities are complete, where the walk spreads, and then each symbol stands in the cells of the written-out walk and the k-th symbol of probability -1 in cell size - 1 - k; logs 1 and 3 leave cells unwritten; a refusal leaves size and log alone |
| `FsePredefined.BuildPredefined` | kernel/fs/btrfs/fse.c:9-23 | each of the three predefined tables is built, another number is refused; the offset table is the one of appendix A of RFC 8878 |
| `FsePredefined.OffsetTable` | kernel/fs/btrfs/fse.c:86-124 | the whole offset code table of appendix A of RFC 8878: symbol, bits and base of all 32 states |
| `FsePredefined.StreamExample` | kernel/fs/btrfs/fse.c:126-145 | two bytes decode with that table to the offset codes 7, 15 and 20 |
| `FseCodec.IntervalInside` | kernel/fs/btrfs/fse.c:115-121 | the states reachable from a cell lie inside the table |
| `FseCodec.CellForReaches` | kernel/fs/btrfs/fse.c:115-121 | for every symbol and state the inverse encoder finds a cell of the symbol that leads to the state |
| `FseCodec.IntervalsTile` | kernel/fs/btrfs/fse.c:115-121 | for every symbol the intervals of its cells tile the states: each state is in exactly one |
| `FseCodec.OneCellReaches` | kernel/fs/btrfs/fse.c:115-121 | two cells of one symbol never reach the same state |
| `FseCodec.NextStateInside` | kernel/fs/btrfs/fse.c:213-218 | decoding never leaves the table, whatever bits are read |
| `FseCodec.DecodedLength` | kernel/fs/btrfs/fse.c:198-218 | a built table answers every request in full |
| `FseCodec.DecodedEncoded` | kernel/fs/btrfs/fse.c:198-218 | decoding inverts encoding wherever the encoder's bits stand |
| `FseCodec.StreamRoundTrip` | kernel/fs/btrfs/fse.c:198-226 | decoding the framed backward stream of any message returns the message |
| `FseStream.StreamRead` | kernel/fs/btrfs/fse.c:56-68 | the number in the bits before the offset; a read that would start before bit 0 yields what the code yields |
| `FseStream.StreamBegin` | kernel/fs/btrfs/fse.c:220-226 | finds the end mark, and fails exactly on an empty stream or a zero last byte |
| `FseStream.StreamSeed` | kernel/fs/btrfs/fse.c:205-211 | reads the start state |
| `FseStream.StreamPeek` | kernel/fs/btrfs/fse.c:198-203 | the symbol of a state, refused outside the table |
| `FseStream.StreamUpdate` | kernel/fs/btrfs/fse.c:213-218 | the next state, a 32-bit sum, refused outside the table |
| `FseStream.NextSymbol` | kernel/fs/btrfs/fse.c:198-218 | a peek and an update deliver the next symbol of what is still to come and never fail on a built table |
| `FseStream.ReadSymbols` | kernel/fs/btrfs/fse.c:198-218 | repeated peeks and updates deliver the decoded message |
| `FseStream.ReadStream` | kernel/fs/btrfs/fse.c:198-226 | begin, seed, peek and update return the message the stream was made from |
| `FseStream.Decode` | kernel/fs/btrfs/fse.c:126-145 | fills the caller's buffer with what the plain stream says and leaves the rest of it alone; it fails exactly for its arguments or when a table leads out of itself |
| `FseStream.PlainNeverStops` | kernel/fs/btrfs/fse.c:126-145 | on a built table a plain stream holds as many symbols as are asked for |
| `FseStream.PlainRoundTrip` | kernel/fs/btrfs/fse.c:126-145 | decoding a plain stream of any message returns it |
| `FseHeader.ForwardRead` | kernel/fs/btrfs/fse.c:70-84 | the number in the bits from an offset on, refused exactly when they are not there |
| `FseHeader.FieldRange` | kernel/fs/btrfs/fse.c:247-259 | a field never holds more than the remaining cells plus one, so the range check cannot fire |
| `FseHeader.OneConserves` | kernel/fs/btrfs/fse.c:247-273 | each field keeps: remaining cells plus handed-out magnitudes are the table size |
| `FseHeader.AllConserves` | kernel/fs/btrfs/fse.c:245-274 | the sum is kept over all fields |
| `FseHeader.HeaderIsComplete` | kernel/fs/btrfs/fse.c:235-281 | every header that parses describes complete probabilities, so its build succeeds |
| `FseHeader.ReadRun` | kernel/fs/btrfs/fse.c:262-273 | the zero counts after a zero probability are read as specified |
| `FseHeader.Narrow` | kernel/fs/btrfs/fse.c:252-258 | the value of a field and whether a bit is given back |
| `FseHeader.ReadOne` | kernel/fs/btrfs/fse.c:247-273 | one field and its run of zeros are read as specified |
| `FseHeader.ReadProbabilities` | kernel/fs/btrfs/fse.c:245-274 | all probabilities are read as specified |
| `FseHeader.ReadDescription` | kernel/fs/btrfs/fse.c:241-277 | accuracy log, probabilities and the byte after them |
| `FseHeader.ReadHeader` | kernel/fs/btrfs/fse.c:235-281 | a header that reaches the build step builds: success means a built table |
| `FseHeaderCodec.FieldReadsBack` | kernel/fs/btrfs/fse.c:247-258 | a written field is read back, whatever bit follows its short form |
| `FseHeaderCodec.RunReadsBack` | kernel/fs/btrfs/fse.c:262-273 | a written run of zeros is read back |
| `FseHeaderCodec.AllReadsBack` | kernel/fs/btrfs/fse.c:245-274 | all written fields are read back |
| `FseHeaderCodec.HeaderRoundTrip` | kernel/fs/btrfs/fse.c:235-281 | reading a written header returns the probabilities it was written from, given one spare bit when the last is -1 |
| `FseHeaderCodec.FullHeaderRefused` | kernel/fs/btrfs/fse.c:235-281 | a header that ends in -1 and fills its stream is refused |
| `FseHeaderCodec.HeaderReadIff` | kernel/fs/btrfs/fse.c:235-281 | a written header is read back if and only if the stream has room for it and, when the last probability is -1, for one bit more |
| `FseHeaderCodec.SpareBitExample` | kernel/fs/btrfs/fse.c:235-281 | the two bytes 32 and 62 hold a whole header and are refused; with a third byte it is read |
| `FseHeaderCodec.FieldExample` | kernel/fs/btrfs/fse.c:247-259 | the table of values and bits in section 4.1.1 of RFC 8878, for every value read |
| `FseHeaderCodec.RunExample` | kernel/fs/btrfs/fse.c:262-273 | a zero probability is followed by two-bit counts of further zeros, 3 announcing another |
| `Huffman.AcceptsIffKraft` | kernel/fs/btrfs/deflate.c:31-50 | the builder accepts exactly the length vectors that satisfy the Kraft inequality |
| `Huffman.FirstGrows` | kernel/fs/btrfs/deflate.c:41-45 | first codes leave room for all shorter codewords |
| `Huffman.CodeRange` | kernel/fs/btrfs/deflate.c:41-48 | every code fits its length |
| `Huffman.PrefixFree` | kernel/fs/btrfs/deflate.c:31-50 | no codeword of an accepted vector is a prefix of another |
| `HuffmanReader.BitReader.ReadBits` | kernel/fs/btrfs/deflate.c:21-29 | the number in the next bits, refused exactly when they are not there |
| `HuffmanReader.ReverseBits` | kernel/fs/btrfs/deflate.c:15-19 | the bits in the other order |
| `HuffmanReader.CountLengths` | kernel/fs/btrfs/deflate.c:35-39 | how many codes have each length; lengths above 15 are refused |
| `HuffmanReader.FirstCodes` | kernel/fs/btrfs/deflate.c:40-45 | the first code of each length; refused exactly when a length does not fit |
| `HuffmanReader.AssignCodes` | kernel/fs/btrfs/deflate.c:46-48 | the code of each symbol in reading order |
| `HuffmanReader.Build` | kernel/fs/btrfs/deflate.c:31-50 | succeeds exactly on accepted vectors, with the codes of the canonical code |
| `HuffmanReader.ReadsAsOne` | kernel/fs/btrfs/deflate.c:52-63 | at most one symbol stands at a position |
| `HuffmanReader.FindCode` | kernel/fs/btrfs/deflate.c:59-60 | the symbol of a length whose code has been read |
| `HuffmanReader.ReadSymbol` | kernel/fs/btrfs/deflate.c:52-63 | returns the symbol whose codeword stands at the position and consumes its length; fails exactly when none does |
| `Inflate.FixedAccepted` | kernel/fs/btrfs/deflate.c:90-95 | the fixed literal lengths form an accepted vector |
| `Inflate.FixedDistAccepted` | kernel/fs/btrfs/deflate.c:90-95 | the fixed distance lengths form an accepted vector |
| `InflateReader.CopyMatch` | kernel/fs/btrfs/deflate.c:155-155 | an overlapping copy repeats the bytes it has just written |
| `InflateReader.ReadDistance` | kernel/fs/btrfs/deflate.c:151-153 | a distance code and its extra bits |
| `InflateReader.ReadMatch` | kernel/fs/btrfs/deflate.c:149-155 | a length code, its extra bits, a distance and the copy, refused where it leaves either buffer; the codes stand for the lengths and distances of `DeflateFormat.LengthCodes` and `DeflateFormat.DistanceCodes` |
| `InflateReader.ReadToken` | kernel/fs/btrfs/deflate.c:145-155 | one literal, match or end of block |
| `InflateReader.ReadTokens` | kernel/fs/btrfs/deflate.c:144-156 | the tokens of a block; each consumes bits, so the loop ends |
| `InflateReader.ReadCodeLengths` | kernel/fs/btrfs/deflate.c:65-88 | code lengths with their three kinds of repeats |
| `InflateReader.ReadCodeCode` | kernel/fs/btrfs/deflate.c:134-137 | the lengths of the code length code, in their permuted order |
| `InflateReader.ReadDynamicTables` | kernel/fs/btrfs/deflate.c:131-142 | both trees of a dynamic block |
| `InflateReader.FixedTrees` | kernel/fs/btrfs/deflate.c:90-95 | the fixed trees are always built |
| `InflateReader.ReadStored` | kernel/fs/btrfs/deflate.c:117-127 | a stored block: alignment, length and its complement, bytes |
| `InflateReader.ReadCompressed` | kernel/fs/btrfs/deflate.c:128-156 | a fixed or dynamic block |
| `InflateReader.ReadBlocks` | kernel/fs/btrfs/deflate.c:115-158 | blocks until the final one; each consumes bits, so the loop ends |
| `InflateReader.Adler32` | kernel/fs/btrfs/deflate.c:97-101 | the Adler-32 sum of the output |
| `InflateReader.ZlibInflate` | kernel/fs/btrfs/deflate.c:103-165 | succeeds exactly when the stream decompresses within the buffer, and then the buffer holds what it stands for; `DeflateExamples.ZerosInflate` and `DeflateDynamic.LetterInflates` give whole streams |
| `DeflateFormat.ZlibHeader` | kernel/fs/btrfs/deflate.c:110-112 | the two header bytes are accepted exactly as section 2.2 of RFC 1950 says, as bit masks and a multiple of 31 |
| `DeflateFormat.LengthCodes` | kernel/fs/btrfs/deflate.c:106-107 | lengths start at 3 and leave no gap, extra bits rise by one every four codes from code 265 on, and code 285 is 258 without extra bits (section 3.2.5 of RFC 1951) |
| `DeflateFormat.DistanceCodes` | kernel/fs/btrfs/deflate.c:108-109 | distances start at 1 and leave no gap up to 32768, extra bits rise by one every two codes from code 4 on |
| `DeflateFormat.LongestMatch` | kernel/fs/btrfs/deflate.c:148-155 | in any codes, code 285 with a distance appends exactly 258 bytes that repeat the bytes before |
| `DeflateFormat.OrderZigzags` | kernel/fs/btrfs/deflate.c:132-132 | code length codes are sent as 16, 17, 18, 0 and then alternately upwards from 8 and downwards from 7 |
| `DeflateFormat.RunRanges` | kernel/fs/btrfs/deflate.c:71-83 | code 16 repeats 3 to 6 times, 17 gives 3 to 10 zeros and 18 gives 11 to 138 |
| `DeflateFormat.FixedCodes` | kernel/fs/btrfs/deflate.c:90-95 | the codes of section 3.2.6 of RFC 1951 for all 288 symbols |
| `DeflateFormat.FixedDistances` | kernel/fs/btrfs/deflate.c:93-94 | the fixed distance codes are the five-bit numbers |
| `DeflateExamples.EightCodes` | kernel/fs/btrfs/deflate.c:31-50 | the example of section 3.2.2 of RFC 1951: eight lengths and their codes |
| `DeflateExamples.AdlerWraps` | kernel/fs/btrfs/deflate.c:97-101 | the checksum is taken modulo 65521 |
| `DeflateExamples.ZerosInflate` | kernel/fs/btrfs/deflate.c:103-165 | ten bytes with a fixed block, a literal and code 285 at distance 1, inflate to 259 zeros |
| `DeflateDynamic.DynamicCounts` | kernel/fs/btrfs/deflate.c:134-135 | a dynamic block has 257 literal codes and one distance code more than its first two five-bit fields say |
| `DeflateDynamic.LetterInflates` | kernel/fs/btrfs/deflate.c:103-165 | nineteen bytes with a dynamic block inflate to the letter a |
| `DeflateWriter.CopyRepeats` | kernel/fs/btrfs/deflate.c:155-155 | a match copies the window periodically, overlap included |
| `DeflateWriter.EveryMatchHasAToken` | kernel/fs/btrfs/deflate.c:149-153 | every length from 3 to 258 and distance from 1 to 32768 has a code and extra bits |
| `DeflateWriter.DistanceRoundTrip` | kernel/fs/btrfs/deflate.c:151-153 | a written distance is read back |
| `DeflateWriter.MatchRoundTrip` | kernel/fs/btrfs/deflate.c:149-155 | a written match expands to its copy |
| `DeflateWriter.TokenRoundTrip` | kernel/fs/btrfs/deflate.c:145-155 | a written token is read back |
| `DeflateWriter.TokensRoundTrip` | kernel/fs/btrfs/deflate.c:144-156 | written tokens expand to their LZ77 expansion |
| `DeflateWriter.TokensSound` | kernel/fs/btrfs/deflate.c:144-156 | whatever is accepted as tokens is the writing of some tokens |
| `DeflateTables.OrderIsPermutation` | kernel/fs/btrfs/deflate.c:134-137 | the order of the code length code is a permutation |
| `DeflateTables.RunsRoundTrip` | kernel/fs/btrfs/deflate.c:65-88 | written code lengths, run-length coded in any way, are read back |
| `DeflateTables.RunsSound` | kernel/fs/btrfs/deflate.c:65-88 | whatever is accepted as code lengths is the writing of some runs |
| `DeflateTables.CodeCodeRoundTrip` | kernel/fs/btrfs/deflate.c:134-137 | a written code length code is read back |
| `DeflateTables.CodesRoundTrip` | kernel/fs/btrfs/deflate.c:131-142 | written dynamic tables are read back |
| `DeflateTables.CodesSound` | kernel/fs/btrfs/deflate.c:131-142 | whatever is accepted as dynamic tables is the writing of some tables |
| `DeflateBlocks.StoredRoundTrip` | kernel/fs/btrfs/deflate.c:117-127 | a written stored block is read back, whatever the bits skipped for alignment |
| `DeflateBlocks.DynamicRoundTrip` | kernel/fs/btrfs/deflate.c:128-156 | a written dynamic block is read back |
| `DeflateBlocks.BlocksRoundTrip` | kernel/fs/btrfs/deflate.c:115-158 | any written run of stored, fixed and dynamic blocks expands to its tokens |
| `DeflateBlocks.BlocksSound` | kernel/fs/btrfs/deflate.c:115-158 | whatever is accepted is the writing of some run of blocks |
| `DeflateBlocks.InflatesIffCarries` | kernel/fs/btrfs/deflate.c:103-165 | a stream inflates to some bytes if and only if it carries blocks that expand to them and their checksum |
| `DeflateBlocks.ZlibRoundTrip` | kernel/fs/btrfs/deflate.c:103-165 | every run of blocks, packed behind a valid header, inflates to its expansion |
| `Checksum.AddBytes` | kernel/drivers/network/tcp.c:21-25 | the 32-bit sum of big-endian words, an odd byte as a high byte, without wrap |
| `Checksum.FoldAndComplement` | kernel/drivers/network/tcp.c:34-35 | the complement of the ones-complement sum |
| `Checksum.ChecksumVerifies` | kernel/drivers/network/tcp.c:27-36 | a block that holds its own checksum sums to all ones |
| `Packets.ComputeTransportChecksum` | kernel/drivers/network/tcp.c:27-36 | pseudo header and packet are summed without 32-bit overflow |
| `Packets.TcpVerifies` | kernel/drivers/network/tcp.c:38-66 | a built segment passes the checksum test |
| `Packets.TcpRoundTrip` | kernel/drivers/network/tcp.c:38-92 | parsing a built segment returns every field and the payload |
| `Packets.TcpBuild` | kernel/drivers/network/tcp.c:38-66 | the buffer receives exactly the segment, or nothing is written when it does not fit |
| `Packets.ComputeUdpChecksum` | kernel/drivers/network/udp.c:18-31 | the checksum with zero replaced by all ones |
| `Packets.UdpVerifies` | kernel/drivers/network/udp.c:33-56 | a built datagram passes the checksum test |
| `Packets.UdpRoundTrip` | kernel/drivers/network/udp.c:33-77 | parsing a built datagram returns every field and the payload |
| `Packets.UdpBuild` | kernel/drivers/network/udp.c:33-56 | the buffer receives exactly the datagram |
| `Packets.ComputePlainChecksum` | kernel/drivers/network/icmp.c:12-21 | the checksum of a block |
| `Packets.IcmpRoundTrip` | kernel/drivers/network/icmp.c:23-62 | parsing a built echo message returns every field and the payload |
| `Packets.IcmpBuild` | kernel/drivers/network/icmp.c:23-45 | the buffer receives exactly the message |
| `Packets.Ipv4Verifies` | kernel/drivers/network/ipv4.c:23-51 | a built header passes the checksum test |
| `Packets.Ipv4RoundTrip` | kernel/drivers/network/ipv4.c:23-83 | parsing a built packet returns every field and the payload, whatever padding follows |
| `Packets.Ipv4Build` | kernel/drivers/network/ipv4.c:23-51 | the buffer receives exactly the packet |
| `Packets.FrameRoundTrip` | kernel/drivers/network/ethernet.c:12-50 | parsing a built frame returns its fields, with short payloads padded |
| `Packets.FrameBuild` | kernel/drivers/network/ethernet.c:12-35 | the buffer receives exactly the padded frame |
| `Packets.IpFrameDecodes` | kernel/drivers/network/network.c:39-53 | decoding a frame reaches the transport layer with the packet's own fields |
| `Packets.TcpFrameRoundTrip` | kernel/drivers/network/network.c:39-72 | a TCP segment sent through all builders is decoded field by field |
| `Packets.UdpFrameRoundTrip` | kernel/drivers/network/network.c:39-72 | a UDP datagram sent through all builders is decoded field by field |
| `Packets.IcmpFrameRoundTrip` | kernel/drivers/network/network.c:39-72 | an ICMP message sent through all builders is decoded field by field |
| `PacketFormats.ChecksumExample` | kernel/drivers/network/icmp.c:12-21 | the example of section 3 of RFC 1071 |
| `PacketFormats.TransportCoversPseudoHeader` | kernel/drivers/network/tcp.c:27-36 | the checksum covers source, destination, protocol and length in front of the packet |
| `PacketFormats.FlagMasks` | kernel/drivers/network/tcp.c:38-92 | the control bits of section 3.1 of RFC 793 as masks |
| `PacketFormats.TcpLayout` | kernel/drivers/network/tcp.c:38-66 | where every field of a built segment stands |
| `PacketFormats.UdpLayout` | kernel/drivers/network/udp.c:33-56 | where every field of a built datagram stands, and that its checksum is never zero |
| `PacketFormats.IcmpLayout` | kernel/drivers/network/icmp.c:23-45 | where every field of a built echo message stands |
| `PacketFormats.Ipv4Layout` | kernel/drivers/network/ipv4.c:23-51 | where every field of a built packet stands |
| `PacketFormats.FrameLayout` | kernel/drivers/network/ethernet.c:12-35 | where every field of a built frame stands, and that it is padded with zeros to 60 bytes |
| `PacketFormats.FrameTakenIff` | kernel/drivers/network/ethernet.c:37-50 | frames of 60 to 1518 bytes with a type from 1536 on are taken apart, and no others |
| `PacketFormats.FragmentParses` | kernel/drivers/network/ipv4.c:53-83 | any fragment with any options parses with its offset in bytes, its flag and its data, unless it reaches past the largest datagram or is not last and not of whole units |
| `PacketFormats.DamagedTcpRefused` | kernel/drivers/network/tcp.c:68-92 | a segment in which any one byte was changed is refused |
| `PacketFormats.DamagedIcmpRefused` | kernel/drivers/network/icmp.c:47-62 | so is an echo message |
| `PacketFormats.DamagedIpv4Refused` | kernel/drivers/network/ipv4.c:53-83 | so is a packet changed in its header, outside the byte that gives the header its length |
| `PacketFormats.DamagedUdpRefusedIff` | kernel/drivers/network/udp.c:58-77 | so is a datagram changed outside its length, unless the change makes its checksum zero |
| `PacketFormats.PingDecodes` | kernel/drivers/network/network.c:39-72 | an echo request given byte by byte is decoded field by field |
| `Tcp.TcpConnection.StartListening` | kernel/drivers/network/tcp.c:101-106 | a closed connection starts to listen |
| `Tcp.TcpConnection.Open` | kernel/drivers/network/tcp.c:108-116 | a connection is opened with a sequence number and a remote port |
| `Tcp.TcpConnection.OnSegment` | kernel/drivers/network/tcp.c:118-225 | the chain of tests computes the state change and the reply of the specification, which `TcpProgress.InOrderTaken` and `TcpStreams.StreamsClose` judge |
| `Tcp.TcpConnection.OnData` | kernel/drivers/network/tcp.c:199-224 | the tests of an established connection compute the specified change, which accepts data in order (`TcpProgress.InOrderTaken`) |
| `Tcp.TcpConnection.RecordSegment` | kernel/drivers/network/tcp.c:268-280 | a segment is kept for retransmission |
| `Tcp.TcpConnection.Build` | kernel/drivers/network/tcp.c:227-261 | sending builds the specified packet, advances the sequence number and records what must be resent |
| `Tcp.AckHeardIffUnwrapped` | kernel/drivers/network/tcp.c:199-203 | a segment that acknowledges what is outstanding is heard at all if and only if the outstanding numbers do not pass 2^32 |
| `Tcp.WrappedAckIgnored` | kernel/drivers/network/tcp.c:199-203 | two bytes outstanding across 2^32: the segment that acknowledges both is ignored |
| `Tcp.TcpConnection.RetransmitDue` | kernel/drivers/network/tcp.c:282-298 | due once the time since the last sending reaches the timeout, and then the recorded packet goes out unchanged |
| `TcpSystem.DeliverKeeps` | kernel/drivers/network/tcp.c:118-225 | delivering any packet still in flight keeps the system invariant |
| `TcpSystem.WriteKeeps` | kernel/drivers/network/tcp.c:227-261 | sending keeps the system invariant |
| `TcpSystem.TickKeeps` | kernel/drivers/network/tcp.c:282-298 | retransmission keeps the system invariant |
| `TcpSystem.ActKeeps` | kernel/drivers/network/tcp.c:94-298 | every event at either end keeps the system invariant |
| `TcpSystem.RunKeeps` | kernel/drivers/network/tcp.c:94-298 | the invariant holds after every run |
| `TcpSystem.StreamSafety` | kernel/drivers/network/tcp.c:94-298 | for every interleaving of sending, retransmission, loss, repetition and reordering, accepted bytes are a prefix of the given bytes, receive_next counts them with SYN and FIN, and nothing is acknowledged that was not received |
| `TcpProgress.SynTaken` | kernel/drivers/network/tcp.c:130-141 | a listening end takes any SYN, awaits the peer's next number and answers with a SYN of number 0 |
| `TcpProgress.SynAckTaken` | kernel/drivers/network/tcp.c:142-157 | a calling end takes a SYN that acknowledges its own: it is open, its SYN is no longer pending, and it acknowledges in turn |
| `TcpProgress.FirstAckTaken` | kernel/drivers/network/tcp.c:166-174 | an end that has answered a SYN is open once its own is acknowledged |
| `TcpProgress.InOrderTaken` | kernel/drivers/network/tcp.c:199-224 | at an open end, a packet at the receive position with an acknowledgment between what is acknowledged and what was sent is taken: its payload is accepted, its FIN seen, what it acknowledges counts and is no longer pending, and everything received is acknowledged in answer |
| `TcpProgress.AcknowledgedIsNotPending` | kernel/drivers/network/tcp.c:210-214 | over every run, a packet in order that acknowledges everything sent leaves nothing to be sent again |
| `TcpProgress.OutOfOrderAnswered` | kernel/drivers/network/tcp.c:199-209 | a packet at another position changes nothing and is answered with what has been received, or not at all if its acknowledgment is out of range |
| `TcpProgress.ResetCloses` | kernel/drivers/network/tcp.c:118-129 | a reset with the right ports closes the connection from every state |
| `TcpProgress.WindowRespected` | kernel/drivers/network/tcp.c:241-246 | what is sent and not acknowledged never exceeds the window announced last |
| `TcpProgress.LargestPayload` | kernel/drivers/network/tcp.c:233-246 | with nothing outstanding and a wide window, exactly payloads of up to 1480 bytes are sent |
| `TcpStreams.SynAnsweredAgain` | kernel/drivers/network/tcp.c:158-165 | a SYN that comes again before the connection is open is answered again in the same way |
| `TcpStreams.BytesCross` | kernel/drivers/network/tcp.c:199-261 | from an idle connection, any bytes that there are numbers for can be brought across and acknowledged |
| `TcpStreams.FinAcknowledged` | kernel/drivers/network/tcp.c:175-183 | an acknowledgment of everything lets FIN_WAIT_1 pass |
| `TcpStreams.LastFinArrives` | kernel/drivers/network/tcp.c:184-192 | FIN_WAIT_2 takes the other end's FIN and answers it |
| `TcpStreams.LastAcknowledged` | kernel/drivers/network/tcp.c:193-198 | an acknowledgment of everything ends LAST_ACK |
| `TcpStreams.StreamsComplete` | kernel/drivers/network/tcp.c:94-261 | for any two streams there is a run from the start that opens both ends and ends with each having accepted all that the other was given, and everything acknowledged |
| `TcpStreams.StreamsClose` | kernel/drivers/network/tcp.c:94-261 | and one that goes on until both streams are closed, seen to be closed and acknowledged |
| `TcpResends.ResentThreeTimes` | kernel/drivers/network/tcp.c:282-298 | an unacknowledged segment is sent again three times, each a timeout after the last and not before, and then never |
| `TcpResends.CanResendIffKept` | kernel/drivers/network/tcp.c:268-298 | a segment that has been sent can be sent again in some continuation if and only if it is the one kept, is not acknowledged and has retries left |
| `TcpResends.NextWriteForgets` | kernel/drivers/network/tcp.c:268-280 | once another segment is sent no earlier one can be sent again, acknowledged or not |
| `TcpSystem.CompleteIffFinAlone` | kernel/drivers/network/tcp.c:184-192 | in FIN_WAIT_2 the stream is complete when the FIN is taken exactly when the FIN brings no data |
| `TcpSystem.FinLosesItsData` | kernel/drivers/network/tcp.c:184-192 | a concrete segment whose byte is lost that way |
| `Scene.MarkCovers` | kernel/drivers/display/compositor.c:8-34 | marking covers the old damage and every changed point on the screen, and stays on the screen |
| `Scene.MarkIsLeast` | kernel/drivers/display/compositor.c:8-34 | the marked rectangle is the smallest that covers both |
| `Scene.TopIsTopmost` | kernel/drivers/display/compositor.c:164-184 | the layer shown at a point is above all others there, later slots winning ties |
| `Scene.ReplacedCoherent` | kernel/drivers/display/compositor.c:77-128 | a mutator that marks a slot before and after keeps everything outside the damage right |
| `Scene.AppendedCoherent` | kernel/drivers/display/compositor.c:56-75 | adding a layer in a new slot keeps everything outside the damage right |
| `Scene.PaintedIsShown` | kernel/drivers/display/compositor.c:178-184 | painting in stacking order shows the topmost layer at every point |
| `Scene.StackedInsert` | kernel/drivers/display/compositor.c:166-177 | the insertion step keeps the order stacked and stable |
| `Scene.RepairIsFullRedraw` | kernel/drivers/display/compositor.c:130-187 | redrawing only the damage equals a full redraw if and only if everything outside the damage was right |
| `Scene.RedrawThenInvalidate` | kernel/drivers/display/compositor.c:106-110 | drawing into a layer and then invalidating it counts as one change |
| `Scene.ChangedCoherent` | kernel/drivers/display/compositor.c:56-128 | every layer operation keeps everything outside the damage right |
| `Scene.StepCoherent` | kernel/drivers/display/compositor.c:56-187 | so does every operation |
| `Scene.DamageRedrawIsExact` | kernel/drivers/display/compositor.c:56-187 | after one full redraw and any run of operations, redrawing the damage gives exactly the full redraw |
| `ScenePictures.ShowsHighest` | kernel/drivers/display/compositor.c:164-184 | a point shows the pixel of the layer with the greatest height there, the last of equals, at its offset in the image |
| `ScenePictures.ShowsBackground` | kernel/drivers/display/compositor.c:164-184 | where no layer reaches, the background shows |
| `ScenePictures.MoveMovesPicture` | kernel/drivers/display/compositor.c:85-93 | moving the front layer moves its image there and uncovers what was under it |
| `ScenePictures.ResurfaceShowsImage` | kernel/drivers/display/compositor.c:95-110 | another surface, or another image on its own, shows in its place |
| `ScenePictures.RaisedIsSeen` | kernel/drivers/display/compositor.c:112-128 | a layer raised above all others is wholly seen, and so is one shown again |
| `ScenePictures.HiddenLeavesPicture` | kernel/drivers/display/compositor.c:77-128 | hiding a layer and removing it give the picture without the layer |
| `ScenePictures.AddShowsImage` | kernel/drivers/display/compositor.c:56-75 | a layer added on top, while fewer than sixteen slots are taken, shows its image in its place |
| `Surfaces.RowsPutAt` | kernel/drivers/display/surface.c:37-40 | a block written row by row at a pitch lands on its own pixels and changes nothing else, not even between rows |
| `Surfaces.InitializeSurface` | kernel/drivers/display/surface.c:3-16 | a surface over a buffer, refused exactly without a buffer or for a width, height and pitch that cannot be right |
| `Surfaces.Surface.constructor` | kernel/drivers/display/surface.c:3-16 | a surface over a buffer that is large enough |
| `Surfaces.Surface.Clear` | kernel/drivers/display/surface.c:18-24 | the whole image has one colour and the bytes between rows are kept |
| `Surfaces.Surface.FillRect` | kernel/drivers/display/surface.c:26-42 | exactly the part of the rectangle on the image gets the colour |
| `Surfaces.Surface.BlitRegion` | kernel/drivers/display/surface.c:55-86 | exactly the part of the picture inside clip and image is drawn, each pixel from its own place |
| `Surfaces.Surface.Blit` | kernel/drivers/display/surface.c:44-53 | the picture is drawn as far as the image reaches |
| `Compositors.Compositor.constructor` | kernel/drivers/display/compositor.c:43-54 | an empty compositor without damage |
| `Compositors.Compositor.MarkDamage` | kernel/drivers/display/compositor.c:8-34 | the damage becomes the specified rectangle |
| `Compositors.Compositor.AddLayer` | kernel/drivers/display/compositor.c:56-75 | the first free slot is used, else a new one, else the call fails; the scene changes as specified |
| `Compositors.Compositor.RemoveLayer` | kernel/drivers/display/compositor.c:77-83 | the scene loses the layer |
| `Compositors.Compositor.SetPosition` | kernel/drivers/display/compositor.c:85-93 | the layer moves |
| `Compositors.Compositor.SetSurface` | kernel/drivers/display/compositor.c:95-104 | the layer shows another surface |
| `Compositors.Compositor.InvalidateLayer` | kernel/drivers/display/compositor.c:106-110 | the layer's area is damage |
| `Compositors.Compositor.SetZ` | kernel/drivers/display/compositor.c:112-119 | the layer changes height |
| `Compositors.Compositor.SetVisible` | kernel/drivers/display/compositor.c:121-128 | the layer is shown or hidden |
| `Compositors.Compositor.InsertAbove` | kernel/drivers/display/compositor.c:143-148 | the shifting loop inserts a slot above every slot not above it |
| `Compositors.Compositor.PaintingOrder` | kernel/drivers/display/compositor.c:138-149 | the visible layers from the bottom up, stable for equal heights |
| `Compositors.Compositor.PaintLayers` | kernel/drivers/display/compositor.c:150-156 | the region shows the layers painted in order and the rest is kept |
| `Compositors.Compositor.ComposeDamage` | kernel/drivers/display/compositor.c:130-159 | the target becomes the repaired scene and the damage is gone |
| `Compositors.Compositor.Compose` | kernel/drivers/display/compositor.c:161-187 | the target becomes the full rendering and the damage is gone |
| `WindowManagers.UpdateKeeps` | kernel/drivers/display/window_manager.c:138-179 | changing a window and its layer together keeps all windows and layers in agreement |
| `WindowManagers.CreateKeeps` | kernel/drivers/display/window_manager.c:36-63 | so does creating a window over a free layer |
| `WindowManagers.DestroyKeeps` | kernel/drivers/display/window_manager.c:123-136 | so does destroying one |
| `WindowManagers.HitShownIff` | kernel/drivers/display/window_manager.c:257-277 | the window hit is the one shown, cursor aside, if and only if it has the last layer among the highest windows there |
| `WindowManagers.HitBehindShown` | kernel/drivers/display/window_manager.c:257-277 | two windows of equal height, the first on the higher layer: the hit is the second and the screen shows the first |
| `WindowTies.TieThroughWrap` | kernel/drivers/display/window_manager.c:257-277 | creating, destroying, a cursor and 2^32 focusings lead from a new manager to two windows of equal height: the hit is window 1 and the screen shows window 0 |
| `WindowManagers.HitIsShown` | kernel/drivers/display/window_manager.c:257-277 | while heights differ the window hit is the one shown, cursor aside |
| `WindowManagers.WindowManager.constructor` | kernel/drivers/display/window_manager.c:9-20 | no windows, no cursor, heights from zero |
| `WindowManagers.WindowManager.Create` | kernel/drivers/display/window_manager.c:36-63 | first free place, new layer on top in the first free slot; fails exactly when there is no place, no layer or no memory; agreement is kept, and order unless the counter wraps |
| `WindowManagers.WindowManager.CreateBuffered` | kernel/drivers/display/window_manager.c:65-89 | a window with a fresh surface of its own; fails exactly for its size, for memory, or when there is no place or layer |
| `WindowManagers.WindowManager.Move` | kernel/drivers/display/window_manager.c:138-148 | window and layer move together; agreement and order are kept |
| `WindowManagers.WindowManager.SetVisible` | kernel/drivers/display/window_manager.c:150-160 | window and layer are shown or hidden together; a hidden window loses the focus |
| `WindowManagers.WindowManager.Resize` | kernel/drivers/display/window_manager.c:91-121 | window and layer get a fresh surface of the new size together; succeeds exactly for a window that owns its surface, a size of 1 to 4096 each way, and memory |
| `WindowManagers.WindowManager.Destroy` | kernel/drivers/display/window_manager.c:123-136 | window and layer go together |
| `WindowManagers.WindowManager.Focus` | kernel/drivers/display/window_manager.c:168-179 | one visible window has the focus and the greatest height; order is kept unless the counter wraps |
| `WindowManagers.WindowManager.SetCursor` | kernel/drivers/display/window_manager.c:181-192 | the cursor has its own layer at the greatest height; windows are untouched |
| `WindowManagers.WindowManager.MoveCursor` | kernel/drivers/display/window_manager.c:223-228 | only the cursor's layer moves |
| `WindowManagers.WindowManager.HitTest` | kernel/drivers/display/window_manager.c:257-277 | the highest window at the point, which is the one the compositor shows there while heights have not wrapped |
| `BtrfsTree.CompareIsOrder` | kernel/fs/btrfs/btrfs.c:233-240 | key comparison is a total order in which only equal keys compare equal |
| `BtrfsTree.CompareLexicographic` | kernel/fs/btrfs/btrfs.c:233-240 | the order is by object, then by kind, then by offset |
| `BtrfsTree.ItemsWithin` | kernel/fs/btrfs/btrfs.c:310-342 | in a well-formed tree every key below a node lies within its bounds |
| `BtrfsTree.BranchLookup` | kernel/fs/btrfs/btrfs.c:334-340 | only the child chosen by the branch keys can hold a key |
| `BtrfsTree.DescendKeeps` | kernel/fs/btrfs/btrfs.c:334-340 | one step down keeps the answer of a scan of all leaves and lowers the level |
| `BtrfsTree.BeforeAllMissing` | kernel/fs/btrfs/btrfs.c:340-340 | a key before the first branch key is in no leaf below |
| `BtrfsTree.ChooseChild` | kernel/fs/btrfs/btrfs.c:334-339 | the last branch entry whose key is not after the wanted one |
| `BtrfsTree.FindInLeaf` | kernel/fs/btrfs/btrfs.c:320-331 | the first item of the leaf with the key |
| `BtrfsTree.CopyPayload` | kernel/fs/btrfs/btrfs.c:323-329 | the item's bytes, refused exactly when they leave the node or exceed the capacity |
| `BtrfsTree.ReadItem` | kernel/fs/btrfs/btrfs.c:310-342 | the descent terminates and returns exactly what a scan of all leaves would; `BtrfsTwoLevels.FoundAcrossLevels` gives a tree |
| `BtrfsTwoLevels.TwoLevels` | kernel/fs/btrfs/btrfs.c:310-342 | a branch over two leaves, given byte by byte, is well formed, and a scan sees its three items in order |
| `BtrfsTwoLevels.FoundAcrossLevels` | kernel/fs/btrfs/btrfs.c:310-342 | in that tree a key of another kind is found below the branch entry of its object, and one before all entries is not |
| `BtrfsFormats.ItemReads` | kernel/fs/btrfs/btrfs.c:317-325 | item i of a leaf is read back from its 25 bytes |
| `BtrfsFormats.EntryReads` | kernel/fs/btrfs/btrfs.c:333-340 | entry i of a branch is read back from its 33 bytes |
| `BtrfsFile.NearestIsNearest` | kernel/fs/btrfs/btrfs.c:841-849 | the scan keeps the true predecessor or successor |
| `BtrfsFile.ScanLeaf` | kernel/fs/btrfs/btrfs.c:839-851 | one leaf |
| `BtrfsFile.ScanExtents` | kernel/fs/btrfs/btrfs.c:832-857 | all leaves below a node, never stopped by the depth limit in a shaped tree |
| `BtrfsFile.FindExtent` | kernel/fs/btrfs/btrfs.c:859-873 | the true predecessor or successor among the extents of the inode |
| `BtrfsFile.ReadLength` | kernel/fs/btrfs/btrfs.c:905-908 | the length of an extent from its item |
| `BtrfsFormats.InlineLength` | kernel/fs/btrfs/btrfs.c:908-908 | an inline extent is as long as its data in memory |
| `BtrfsFormats.RegularLength` | kernel/fs/btrfs/btrfs.c:908-908 | one on disk is as long as its item says last |
| `BtrfsFile.ReadStat` | kernel/fs/btrfs/btrfs.c:374-381 | size and mode from the inode item |
| `BtrfsFormats.RegularIsMask` | kernel/fs/btrfs/btrfs.c:878-881 | regular files are those with 8 in the upper half of the mode's second byte |
| `BtrfsFile.HoleByte` | kernel/fs/btrfs/btrfs.c:895-916 | between the end of the predecessor and the successor the file is zero |
| `BtrfsFile.CoveredByte` | kernel/fs/btrfs/btrfs.c:917-921 | inside an extent the file is the extent's byte |
| `BtrfsFile.PassKeepsAnswers` | kernel/fs/btrfs/btrfs.c:893-922 | after a pass the rest of the read asks the disk for what the whole read did and has not been answered |
| `BtrfsFile.ReadPass` | kernel/fs/btrfs/btrfs.c:893-922 | one pass writes at least one byte, and what it writes is the file; it fails exactly past the last extent or when the disk does not answer for the extent before the position |
| `BtrfsFile.ReadFile` | kernel/fs/btrfs/btrfs.c:875-924 | a successful read returns the flat file; it succeeds if and only if the request is possible, no wanted byte lies past the end of the last extent, and the disk answers for each extent on the way, with its length and with the part that is wanted |
| `BtrfsShortFile.FifthByteUnreadable` | kernel/fs/btrfs/btrfs.c:875-924 | a file of eight bytes with one extent of four: its fourth byte can be read if the disk answers, its fifth never |
| `Crc32c.ShiftInjective` | kernel/fs/btrfs/btrfs.c:75-76 | one bit through the register loses nothing |
| `Crc32c.RegisterInjective` | kernel/fs/btrfs/btrfs.c:71-79 | a message loses nothing of the register |
| `Crc32c.RegisterWord` | kernel/fs/btrfs/btrfs.c:71-79 | taking in up to four bytes is taking in their word |
| `Crc32c.BurstDetected` | kernel/fs/btrfs/btrfs.c:71-79 | messages that differ only within four neighbouring bytes have different checksums |
| `Crc32c.OneByteDetected` | kernel/fs/btrfs/btrfs.c:71-79 | messages that differ in exactly one byte have different checksums |
| `Crc32c.CheckValue` | kernel/fs/btrfs/btrfs.c:71-79 | the digits 1 to 9 have the check value e3069283 |
| `Crc32c.TakeIn` | kernel/fs/btrfs/btrfs.c:74-77 | one byte goes through the register |
| `Crc32c.Compute` | kernel/fs/btrfs/btrfs.c:71-79 | the loop computes the checksum |
| `Reassembly.AddSound` | kernel/drivers/network/reassembly.c:87-123 | whatever arrives, the received count is the number of set bits |
| `Reassembly.WholeIsComplete` | kernel/drivers/network/reassembly.c:111-119 | an entry counted whole holds every byte of its datagram if and only if it holds none beyond it |
| `Reassembly.NoConflict` | kernel/drivers/network/reassembly.c:88-101 | fragments of one partition never clash |
| `Reassembly.AddNext` | kernel/drivers/network/reassembly.c:87-123 | the next fragment is kept, or completes the datagram if it is the last to arrive |
| `Reassembly.UniqueKept` | kernel/drivers/network/reassembly.c:53-72 | there is at most one entry per datagram |
| `Reassembly.OwnStep` | kernel/drivers/network/reassembly.c:42-124 | a fragment of the datagram: nothing comes out before the last one, and then the datagram does |
| `Reassembly.OtherStep` | kernel/drivers/network/reassembly.c:42-124 | a fragment of another datagram leaves this one alone |
| `Reassembly.KeptIffFree` | kernel/drivers/network/reassembly.c:58-72 | the first fragment of a datagram is kept in an entry of its own if and only if one is free and the fragment is not the whole datagram |
| `Reassembly.ForeignIffCrowded` | kernel/drivers/network/reassembly.c:58-72 | a packet is put into an entry of another datagram if and only if no entry has its key and none is free |
| `Reassembly.Reassembles` | kernel/drivers/network/reassembly.c:42-124 | for every partition, every order of arrival and any traffic between, the datagram comes out with the last fragment and not before |
| `ReassemblyCases.RefusedIff` | kernel/drivers/network/reassembly.c:48-51 | fragments that are empty, reach past 65515 bytes or are not of whole units change nothing, and no others are refused |
| `ReassemblyCases.ForgottenIffOld` | kernel/drivers/network/reassembly.c:53-57 | traffic of another datagram leaves this one known exactly if less than the timeout has passed since its last fragment |
| `ReassemblyCases.KeptIsFresh` | kernel/drivers/network/reassembly.c:110-110 | a fragment that is kept starts the time again |
| `ReassemblyCases.ConflictForgets` | kernel/drivers/network/reassembly.c:87-101 | a fragment that brings a byte again, or does not agree about the end, throws the datagram away |
| `ReassemblyCases.CutInTwo` | kernel/drivers/network/reassembly.c:42-124 | any datagram of up to 65515 bytes cut anywhere at a unit comes out with its second piece, in either order |
| `ReassemblyOrigins.NextLogged` | kernel/drivers/network/reassembly.c:42-124 | every packet keeps each entry equal to what the packets merged into it brought, no two of them the same position |
| `ReassemblyOrigins.RunLogged` | kernel/drivers/network/reassembly.c:42-124 | so does every run |
| `ReassemblyOrigins.GenuineIff` | kernel/drivers/network/reassembly.c:111-119 | every byte of a whole entry was brought by a packet of the key if and only if all its packets are of the key and none brought anything beyond the datagram |
| `ReassemblyOrigins.OutputGenuineIff` | kernel/drivers/network/reassembly.c:42-124 | a datagram that comes out has the size the last fragment or the entry gives; every byte of it was brought by a packet of its key if and only if no other packet was put into its entry and the entry held nothing beyond that size |
| `ReassemblyOrigins.ForeignNeverGenuine` | kernel/drivers/network/reassembly.c:58-86 | what comes out of an entry of another datagram is never genuine |
| `ReassemblyOrigins.PureKept` | kernel/drivers/network/reassembly.c:58-86 | a packet that finds an entry of its own or a free one leaves every entry with packets of one datagram |
| `ReassemblyOrigins.UncrowdedOutputs` | kernel/drivers/network/reassembly.c:42-124 | after every run in which each packet finds an entry, what comes out is genuine if and only if its entry held nothing beyond it |
| `ReassemblyMixes.TwoSendersMix` | kernel/drivers/network/reassembly.c:58-86 | with four datagrams begun, the last fragment of a fifth brings out eight bytes of the fourth and eight of the fifth |
| `ReassemblyMixes.BytesNobodySent` | kernel/drivers/network/reassembly.c:102-119 | bytes 0 to 8, 24 to 32 and a last fragment 16 to 24 bring out 24 bytes, 8 to 16 as the buffer held them before |
| `ReassemblyRepeats.ClashIff` | kernel/drivers/network/reassembly.c:88-101 | an entry that has taken in some fragments of a partition clashes with exactly those |
| `ReassemblyRepeats.RepeatLosesIff` | kernel/drivers/network/reassembly.c:88-101 | a fragment of the datagram loses what has arrived if and only if it has arrived before |
| `ReassemblyRepeats.RepeatLosesDatagram` | kernel/drivers/network/reassembly.c:42-124 | if one fragment arrives again before the last ones, nothing of the datagram comes out, though every fragment arrives |
| `ReassemblyMixes.SecondCopyLoses` | kernel/drivers/network/reassembly.c:95-101 | eight bytes are kept when they come and lost when they come again |
| `ReassemblyTables.WithBitSets` | kernel/drivers/network/reassembly.c:106-106 | setting a packed bit sets that position and no other |
| `ReassemblyTables.ReassemblyEntry.Clear` | kernel/drivers/network/reassembly.c:9-14 | the entry is free |
| `ReassemblyTables.ReassemblyEntry.Take` | kernel/drivers/network/reassembly.c:73-86 | a free entry is taken over with an empty bitmap; one in use stays as it is |
| `ReassemblyTables.ReassemblyEntry.AnySet` | kernel/drivers/network/reassembly.c:95-101 | whether any byte of a range has come |
| `ReassemblyTables.ReassemblyEntry.Store` | kernel/drivers/network/reassembly.c:102-107 | bytes and bits of the fragment are stored and nothing else changes |
| `ReassemblyTables.ReassemblyEntry.AddFragment` | kernel/drivers/network/reassembly.c:87-123 | the entry changes and the datagram comes out as specified |
| `ReassemblyTables.ReassemblyTable.constructor` | kernel/drivers/network/reassembly.c:24-29 | an empty table |
| `ReassemblyTables.ReassemblyTable.Expire` | kernel/drivers/network/reassembly.c:31-40 | exactly the entries not heard of for the timeout are cleared |
| `ReassemblyTables.ReassemblyTable.Choose` | kernel/drivers/network/reassembly.c:58-71 | its own entry, else the last free one, else the oldest |
| `ReassemblyTables.ReassemblyTable.AddPacket` | kernel/drivers/network/reassembly.c:42-124 | the table changes and the datagram comes out as specified |
| `Handles.DecodeMade` | kernel/core/process/handle.c:18-31 | decoding undoes encoding for every slot but 31, whose handles are always refused |
| `Handles.MadeDecoded` | kernel/core/process/handle.c:18-31 | encoding undoes decoding |
| `Handles.HandleNumbers` | kernel/core/process/handle.c:18-31 | handles at both ends of the table as numbers |
| `Handles.AllowsIsMask` | kernel/core/process/handle.c:171-173 | the test of rights as a test on three-bit masks |
| `HandleRights.AllowsIsSubset` | kernel/core/process/handle.c:171-173 | what is asked for is allowed exactly if it names only the three rights and only given ones |
| `HandleRights.AllowsIsWideMask` | kernel/core/process/handle.c:122-172 | the same test on 32-bit masks, in the form of a get and in that of a duplicate |
| `HandleRights.RetainedIff` | kernel/core/process/handle.c:230-253 | a reference is handed out if and only if the handle opens an entry with every required right and no counter is full |
| `HandleRights.OpenedIff` | kernel/core/process/handle.c:91-113 | opening succeeds exactly for a resource, rights of 1 to 7, a known kind and a free slot, and the entry has what was asked for |
| `HandleRights.DuplicatedIff` | kernel/core/process/handle.c:114-145 | duplicating succeeds if and only if the entry can be shared, a slot is free and no right is asked for that the entry has not |
| `HandleRights.DuplicateNeverGains` | kernel/core/process/handle.c:114-145 | a duplicate has the rights asked for, or all of its source's, and never another |
| `HandleRights.InheritedIff` | kernel/core/process/handle.c:33-72 | inheriting succeeds if and only if the table is empty and all can be shared; each slot then holds what the other table's open, inheritable slot holds, with the same rights |
| `HandleRights.StepHas` | kernel/core/process/handle.c:33-275 | every operation keeps that open entries have exactly the rights they were given, and closed ones none |
| `HandleRights.RetainedOnlyIfGiven` | kernel/core/process/handle.c:33-253 | over every run from a new table a reference or resource is handed out only if every required right was given when the occupancy was opened, duplicated or inherited |
| `HandleRights.DuplicatedOnlyIfGiven` | kernel/core/process/handle.c:33-253 | over every run an open handle has exactly the rights given with its occupancy, and duplicating it gives none but these |
| `Handles.OpenedOpensIff` | kernel/core/process/handle.c:91-113 | the handle that opening returns opens its entry if and only if a slot before the last was free |
| `Handles.DuplicateOpensIff` | kernel/core/process/handle.c:114-145 | so does the handle that duplicating returns |
| `HandleRuns.QuietKeeps` | kernel/core/process/handle.c:74-228 | an operation that moves no reference keeps the invariant |
| `HandleRuns.RetainKeeps` | kernel/core/process/handle.c:230-253 | taking a reference keeps it |
| `HandleRuns.ReleaseKeeps` | kernel/core/process/handle.c:255-275 | giving one up keeps it |
| `HandleRuns.StepKeeps` | kernel/core/process/handle.c:33-275 | every operation keeps: counts equal live references, the table counts their sum, live references are to what their slots hold |
| `HandleRuns.StartInv` | kernel/core/process/handle.c:2-16 | a new table satisfies the invariant |
| `HandleRuns.StepSettled` | kernel/core/process/handle.c:33-275 | an operation calls the releases of exactly the occupancies it ends, and no slot that stays occupied changes hands |
| `HandleRuns.ReleasedOnceUnreferenced` | kernel/core/process/handle.c:176-275 | a release is called for an occupancy that has not ended before and that no live reference is left to |
| `HandleRuns.RunGrows` | kernel/core/process/handle.c:33-275 | what has ended stays ended, over any run |
| `HandleRuns.ClosedRefused` | kernel/core/process/handle.c:176-203 | a closed handle is refused through any run until its slot's generation has moved on a multiple of 65535 times |
| `HandleRuns.LastKept` | kernel/core/process/handle.c:33-275 | what slot 31 holds stays there through every operation but closing everything |
| `HandleRuns.LastHeldUntilCloseAll` | kernel/core/process/handle.c:33-275 | after every run from a new table, what slot 31 holds is held until everything is closed |
| `HandleLedger.StepGains` | kernel/core/process/handle.c:33-145 | a slot begins to hold a resource exactly where an open or a retain call put it |
| `HandleLedger.StepBalances` | kernel/core/process/handle.c:33-275 | entries that hold a resource are those before, plus opens and retain calls, minus release calls and ends without a release |
| `HandleLedger.LedgerBalances` | kernel/core/process/handle.c:33-275 | over every run from a new table, opens plus retain calls of a resource equal its release calls, its entries and its ends without a release |
| `HandleLedger.EveryGainReleased` | kernel/core/process/handle.c:33-275 | if the resource never comes without a release, its entries are opens plus retain calls minus release calls |
| `HandleTables.HandleTable.constructor` | kernel/core/process/handle.c:2-16 | a new table |
| `HandleTables.HandleTable.OpenKind` | kernel/core/process/handle.c:91-113 | opening as specified |
| `HandleTables.HandleTable.Duplicate` | kernel/core/process/handle.c:114-145 | duplicating as specified, with the retain call: the rights are a subset of the source's (`HandleRights.DuplicateNeverGains`) |
| `HandleTables.HandleTable.SetInheritable` | kernel/core/process/handle.c:147-159 | marking as specified |
| `HandleTables.HandleTable.Get` | kernel/core/process/handle.c:160-175 | the resource of an open entry if and only if each of the required bits is set in its rights |
| `HandleTables.HandleTable.InheritFrom` | kernel/core/process/handle.c:33-72 | an empty table takes over the inheritable entries, all or none, each with its retain call; inheriting from itself is refused |
| `HandleTables.HandleTable.CloseSlot` | kernel/core/process/handle.c:186-199 | one entry is closed and its generation moves on |
| `HandleTables.HandleTable.Close` | kernel/core/process/handle.c:176-203 | closing as specified |
| `HandleTables.HandleTable.CloseAll` | kernel/core/process/handle.c:204-228 | closing everything as specified |
| `HandleTables.HandleTable.GetRetain` | kernel/core/process/handle.c:230-253 | taking a reference as specified, only with every required right (`HandleRights.RetainedIff`) |
| `HandleTables.HandleTable.ReleaseRef` | kernel/core/process/handle.c:255-275 | giving a reference up as specified; a second time does nothing |
| `BlockCache.WithSectorOnly` | kernel/fs/block/block.c:72-82 | a device write changes its own sector and no other |
| `BlockCache.OnlyInPlace` | kernel/fs/cache/cache.c:8-27 | a sector is in no entry but its place |
| `BlockCache.StoredCoherent` | kernel/fs/cache/cache.c:61-72 | storing keeps the cache coherent |
| `BlockCache.ReadCoherent` | kernel/fs/cache/cache.c:37-74 | a read keeps the cache coherent |
| `BlockCache.WriteCoherent` | kernel/fs/cache/cache.c:76-103 | a write keeps the cache coherent |
| `BlockCache.BypassCoherent` | kernel/fs/cache/cache.c:115-122 | so does a device write followed by invalidating the sector |
| `BlockCache.StepCoherent` | kernel/fs/cache/cache.c:37-135 | every operation keeps every valid entry equal to its device and unique |
| `BlockCache.ReadsAsUncached` | kernel/fs/cache/cache.c:37-74 | after any run a read through the cache returns what the device holds, and succeeds whenever the uncached read would |
| `BlockCache.StepAged` | kernel/fs/cache/cache.c:50-70 | every operation keeps the clock at the number of uses and each age at the number of the last use, both modulo 2^64 |
| `BlockCache.EvictsLeastRecentIff` | kernel/fs/cache/cache.c:19-27 | a full cache gives up the least recently used sector if and only if all ages lie on one side of the clock, every last use being less than 2^64 uses ago |
| `BlockCache.EvictsByRound` | kernel/fs/cache/cache.c:19-27 | whenever the uses were, the sector given up is the least recently used if and only if no other was last used in an earlier round of the clock |
| `BlockCache.TakesFree` | kernel/fs/cache/cache.c:19-27 | a free entry is used first |
| `BlockCache.RunAged` | kernel/fs/cache/cache.c:50-70 | clock and ages are right after every run, however long |
| `BlockCache.RunEvictsLeastRecent` | kernel/fs/cache/cache.c:19-27 | after every run from an empty cache the sector given up is the least recently used if and only if all ages lie on one side of the clock, which they do before the clock runs over |
| `CacheRetention.SecondReadHits` | kernel/fs/cache/cache.c:37-74 | after a read that succeeds the same read succeeds with the same data though the device fails |
| `CacheRetention.ReadAfterWriteHits` | kernel/fs/cache/cache.c:76-103 | after a write that succeeds a read returns what was written though the device fails |
| `CacheRetention.InvalidatedMisses` | kernel/fs/cache/cache.c:105-135 | after a sector or its device is invalidated a read asks the device |
| `CacheRetention.ServedWhileFew` | kernel/fs/cache/cache.c:8-74 | over every run a sector just used is served from the cache while fewer than sixteen others are used and nothing takes it out |
| `BlockCache.WrapEvictsNewest` | kernel/fs/cache/cache.c:19-27 | when the clock runs over, the sector that came in last is the first to go |
| `BlockCaches.SectorCache.FindEntry` | kernel/fs/cache/cache.c:8-17 | the entry of a sector |
| `BlockCaches.SectorCache.ChooseEntry` | kernel/fs/cache/cache.c:19-27 | the entry to fill |
| `BlockCaches.SectorCache.ReadSector` | kernel/fs/cache/cache.c:37-74 | reading as specified |
| `BlockCaches.SectorCache.WriteSector` | kernel/fs/cache/cache.c:76-103 | writing as specified, device first |
| `BlockCaches.SectorCache.InvalidateSector` | kernel/fs/cache/cache.c:115-122 | invalidating as specified |
| `BlockCaches.SectorCache.InvalidateAll` | kernel/fs/cache/cache.c:124-135 | invalidating a device as specified |
| `CacheRaces.NextSettles` | kernel/fs/cache/cache.c:55-59 | with the lock released during transfers, every step keeps: entries equal their device unless a write is on its way back |
| `CacheRaces.OverlapsStayCoherent` | kernel/fs/cache/cache.c:37-103 | however operations overlap, as long as no write of something new starts while something is under way for its sector, hits return what the device holds |
| `CacheRaces.OverlappingWritesDiverge` | kernel/fs/cache/cache.c:89-101 | two overlapping writes to one sector can leave the cache with the first and the device with the second |
| `CacheRaces.FetchAndWriteDiverge` | kernel/fs/cache/cache.c:55-101 | a fetch overlapped by a write and an invalidation can leave the cache with the old sector and the device with the new |
| `CacheRaces.SendSafeIffSeparate` | kernel/fs/cache/cache.c:55-101 | a write keeps cache and device consistent in every continuation if and only if it does not reach the device, nothing is under way for its sector, or it writes what the sector holds |
| `WaitQueues.WaitQueue.Enqueue` | kernel/core/task/wait_queue.c:29-36 | the node becomes the last, links and count included, and the last arrival, unless it waits already |
| `WaitQueues.WaitQueue.Unlink` | kernel/core/task/wait_queue.c:42-52 | the node leaves from any place and both chains close over it |
| `WaitQueues.WaitQueue.Release` | kernel/core/task/wait_queue.c:42-52 | the same, with its arrival served or given up |
| `WaitQueues.InOneQueue` | kernel/core/task/wait_queue.c:20-76 | a node waits in at most one queue, and its flag and owner say which |
| `WaitQueues.Enqueue` | kernel/core/task/wait_queue.c:20-40 | enqueuing keeps all queues in order, changes one, and is an arrival there |
| `WaitQueues.Dequeue` | kernel/core/task/wait_queue.c:54-65 | the longest waiting node leaves and its arrival is the next to be served; all queues stay in order |
| `WaitQueues.Remove` | kernel/core/task/wait_queue.c:67-76 | a node leaves only the queue it waits in and its arrival is given up; all queues stay in order |
| `WaitQueues.ServedInOrder` | kernel/core/task/wait_queue.c:20-76 | whatever the three operations do to a queue's arrivals, they are served in order |
| `WaitQueues.LongestWaiting` | kernel/core/task/wait_queue.c:54-65 | the first node came before all others that wait and after all that were served |

## Left out

- Locks and interrupts: operations under one lock are taken as whole; only the cache's transfers outside its lock
  are interleaved. Null-pointer tests are left out because Dafny's references exclude null.
- Machine widths: lengths, offsets and indices that the source bounds are unbounded integers; wrap-around is written
  out where it can happen (sequence numbers, bit counts, generations, heights, the cache clock, 16-bit descriptors).
- `btrfs_fse_build_rle`, table selection and the two-state interleaved decoder: they would only add easy members beside
  the general builder and decoder.
- FseStream.StreamUpdate: entries of more than 32 bits, which an accepted but incomplete table can hold, are left out:
  the source shifts a 32-bit number by that many bits, which C does not define.
- FseStream.Decode: the same; and the caller's buffer is not one of the table's arrays.
- LZO and the zstd sequence layer; AHCI, NVMe, USB and other device drivers.
- ARP bodies in `network_decode_frame`: an ARP frame is recognised but its body is not parsed.
- The TCP endpoint's receive queue: stream safety is stated at the connection.
- TcpSystem.StreamSafety: is stated for streams shorter than 2^32 bytes: sequence numbers repeat after that, and the
  network of the model may keep a segment for ever. For the same reason a closed connection is not opened again, though
  the source allows that.
- TcpStreams.StreamsComplete: the caller's numbers do not pass 2^32, because acknowledgments across 2^32 are not heard
  (`Tcp.AckHeardIffUnwrapped`); with a first number of 0 every short stream qualifies.
- TcpStreams.StreamsClose: the same.
- Tcp.TcpConnection.OnSegment: the connection's fields are held in one record that the methods replace.
- Surfaces.Surface.BlitRegion: source and destination do not share pixels, as for every surface of the compositor.
- Surfaces.Surface.Blit: the same.
- Compositors.Compositor.AddLayer: surfaces are initialised ones and do not share pixels with the target.
- Compositors.Compositor.SetSurface: the same.
- WindowManagers.WindowManager.Create: the same.
- WindowManagers.WindowManager.SetCursor: the same.
- Surfaces.Surface.constructor: is for descriptions that fit the buffer; `Surfaces.InitializeSurface` refuses the
  others.
- WindowManagers.WindowManager.Resize: whether there is memory is a parameter; ownership of pixels is a flag.
- Input routing other than the cursor's move; console and desktop drawing.
- BtrfsFile.ReadFile: reads inside the inode size only, so the branch that grows an inline file is not modelled; what
  reading an extent's data returns is a parameter, and so is whether it succeeds.
- BtrfsFile.ReadPass: extents do not overlap; where they do, the source returns bytes that depend on where a read
  starts.
- Node checksums and mirrors: a node that can be read is one that the store holds. Writing and mounting.
- BtrfsTree.ReadItem: is stated for well-formed trees; on a tree with a cycle the source's loop does not end.
- ReassemblyTables.ReassemblyTable.AddPacket: the four-byte addresses are sequences compared as wholes.
- HandleTables.HandleTable.Close: release and retain functions are numbers, and calling one is returning it.
- BlockCache.Read: a device that fails a write leaves the sector as it was; registration of devices is not modelled.
- WaitQueues.WaitQueue.Enqueue: the count is unbounded.
