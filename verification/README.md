# Verified models of the decoders, the BitTorrent client and the small servers

The repository holds several C programs. This project models their hardest parts in Dafny and proves properties of the
models that hold for all inputs, all runs and all schedules. `dafny verify dfyconfig.toml` checks it.

- **DEFLATE and zlib** (`Huffman`, `ZBitReader`, `Inflate`, `ZlibBlocks`, `Zlib`, `ZlibOverrun`, `ZlibStandard`,
  `ZlibDecode`, `ZlibWide`, `ZlibLayout`, `ZlibValid`, `ZlibKnown`): the canonical Huffman builder with its nine-bit fast
  table, the bit reader, the copying decoder with its growing buffer, and whole streams. Each is tied to a reference
  decoder of RFC 1950 and RFC 1951, which in turn accepts exactly the streams laid out bit by bit as the two standards
  describe to a writer. The decoder's own rule for stopping behind the end of its input, and the tests of the standards
  that it leaves out, are stated exactly.
- **GIF** (`GifCanvas`, `GifLzw`, `GifRoundTrip`): the prefix-linked LZW table walked by recursion, against a dictionary of
  strings and against the decoder of the GIF89a specification, interlaced drawing, and exactly which outputs of any
  encoder decode to their image.
- **PNG** (`PngFilter`, `Adam7`, `PngImage`): scanline filters, the seven interlacing passes, and both together.
- **The BitTorrent client** (`Bencode`, `Storage`, `Tar`, `Download`, `PeerWire`): printer and parser, the two output back
  ends, message framing over a stream that arrives in pieces, and the download loop over unreliable peers on such streams.
- **CRC-32** (`Crc32`): the table form against division bit by bit, error detection, and the chunked checker.
- **The log aggregator** (`LogTables`, `LogWorkers`, `LogSchedules`): chained hash tables in place, and worker threads as a
  state machine under every schedule.
- **The ring buffer** (`RingBuffer`): wrap-around copying and resizing against a queue.

Code that updates objects in place is a class here, and each method is tied to a function of the old state; what the
program promises is proved about those functions. `Bits` and `Wrappers` hold what several modules share. Input and
output, time, what peers send, mapping failures and schedules are parameters.

## Model

| member | source | states |
|---|---|---|
| `Huffman.AcceptedIffKraft` | HW_16-OpenGL/stb_image.h:4138-4150 | A list of code lengths passes the builder's range tests exactly when the Kraft sum of section 3.2.2 of RFC 1951 is at most one |
| `Huffman.PrefixFree` | HW_16-OpenGL/stb_image.h:4138-4150 | In any list of at most 15-bit lengths, at most one assigned code is a prefix of a bit window |
| `Huffman.BitReverse16Reverses` | HW_16-OpenGL/stb_image.h:4107-4114 | Four mask-and-shift exchanges reverse the order of 16 bits, for every value |
| `Huffman.BitReverseReverses` | HW_16-OpenGL/stb_image.h:4116-4122 | Reversing a code of up to 16 bits by shifting the 16-bit reversal |
| `Huffman.FastEntryMeaning` | HW_16-OpenGL/stb_image.h:4151-4167 | A zero fast entry means that no code of nine bits or fewer starts the window; any other entry packs the one that does |
| `Huffman.SlotInjective` | HW_16-OpenGL/stb_image.h:4151-4167 | Distinct used symbols get distinct places in the size and value tables |
| `Huffman.BitByBitResolves` | HW_16-OpenGL/stb_image.h:4224-4271 | The bit-by-bit canonical decoder of section 3.2.2 returns a symbol exactly when that symbol's code starts the window, and fails exactly when none does |
| `Huffman.ZHuffman.CountSizes` | HW_16-OpenGL/stb_image.h:4130-4134 | The counts of each code length |
| `Huffman.ZHuffman.CheckSizes` | HW_16-OpenGL/stb_image.h:4135-4137 | Whether no length has more codes than fit in its bits |
| `Huffman.ZHuffman.Build` | HW_16-OpenGL/stb_image.h:4124-4169 | Accepts exactly the length lists that fit, and then the tables represent the canonical code |
| `Huffman.ZHuffman.FillSlot` | HW_16-OpenGL/stb_image.h:4151-4158 | One used symbol enters the size and value tables and no other place changes |
| `Huffman.ZHuffman.SlowPath` | HW_16-OpenGL/stb_image.h:4224-4241 | Where no short code matches, the search by length bounds finds the code that starts the window or fails; the check of `size[b]` never fires |
| `Huffman.ZHuffman.Lookup` | HW_16-OpenGL/stb_image.h:4262-4270 | Fast table, then slow path: on every window exactly what the bit-by-bit decoder of section 3.2.2 returns |
| `BitStream.HoldsUnique` | HW_16-OpenGL/stb_image.h:4214-4222 | The bits at a position determine the value held for them |
| `ZBitReader.BitReader.FillBits` | HW_16-OpenGL/stb_image.h:4202-4212 | Whole bytes, zero bytes after the end, are put above the buffered bits until more than 24 are held; the guard against a corrupt buffer cannot fire |
| `ZBitReader.BitReader.Receive` | HW_16-OpenGL/stb_image.h:4214-4222 | The next `n`-bit field of the zero-extended input, lowest bit first, and exactly how far the buffer then reads ahead |
| `ZBitReader.BitReader.Align` | HW_16-OpenGL/stb_image.h:4413-4414 | Discards the bits up to the next byte boundary and nothing else |
| `ZBitReader.BitReader.AlignedHeader` | HW_16-OpenGL/stb_image.h:4415-4424 | The four bytes at the boundary, buffered ones first, wherever the buffer stands |
| `ZBitReader.BitReader.HuffmanDecode` | HW_16-OpenGL/stb_image.h:4243-4271 | The symbol whose code stands at this position of the zero-extended input; fails exactly when there is none or the buffer runs short a second time after the end |
| `ZBitReader.SymbolSame` | HW_16-OpenGL/stb_image.h:4243-4271 | The symbol read depends on the next sixteen bits only |
| `Inflate.CopyIsPeriodic` | HW_16-OpenGL/stb_image.h:4346-4353 | A copied byte equals the byte `dist` before it, also when source and target overlap |
| `Inflate.LengthCodesTile` | HW_16-OpenGL/stb_image.h:4295-4301 | The length codes with their extra bits cover 3 to 258 without gap or overlap |
| `Inflate.DistanceCodesTile` | HW_16-OpenGL/stb_image.h:4303-4307 | The distance codes with their extra bits cover 1 to 32768 without gap or overlap |
| `Inflate.ExtraBits` | HW_16-OpenGL/stb_image.h:4295-4307 | The extra bits of the length and distance codes in the closed form of section 3.2.5 of RFC 1951, and the first and last length |
| `Inflate.MaxCapacity` | HW_16-OpenGL/stb_image.h:4281-4284 | How far doubling takes a buffer before it would exceed 32 bits |
| `Inflate.DoublingEnds` | HW_16-OpenGL/stb_image.h:4282-4285 | For a buffer that lacks room, some number of doublings reaches the size or the 32-bit test if and only if the buffer is not empty |
| `Inflate.Output.Expand` | HW_16-OpenGL/stb_image.h:4273-4293 | Makes room and keeps the bytes written, exactly when doubling can reach the size needed |
| `Inflate.Output.CopyRun` | HW_16-OpenGL/stb_image.h:4350-4352 | The pointer copy is the copy one byte at a time of section 3.2.3 of RFC 1951 |
| `Inflate.Output.FillRun` | HW_16-OpenGL/stb_image.h:4346-4349 | The special case for distance one gives the same bytes as the general copy |
| `Inflate.Output.Write` | HW_16-OpenGL/stb_image.h:4314-4354 | A literal or match is applied exactly when its distance is valid and the result fits |
| `Inflate.Inflater.ParseHuffmanBlock` | HW_16-OpenGL/stb_image.h:4309-4357 | The loop, with its buffer, tables, growing output and end-of-input test, ends exactly as the stopping rule says, with its output and position |
| `ZlibBlocks.ReadLengths` | HW_16-OpenGL/stb_image.h:4378-4403 | The loop over code lengths with repeats reads exactly the lengths the stopping rule gives, or fails with it |
| `ZlibBlocks.ComputeHuffmanCodes` | HW_16-OpenGL/stb_image.h:4359-4407 | Both tables of a dynamic block, or failure, exactly as the stopping rule says |
| `ZlibBlocks.DefaultLengthsFit` | HW_16-OpenGL/stb_image.h:4452-4463 | The fixed literal code of section 3.2.6 is accepted by the builder |
| `ZlibBlocks.DefaultDistancesFit` | HW_16-OpenGL/stb_image.h:4464-4467 | The fixed distance code is accepted by the builder |
| `ZlibBlocks.ParseUncompressedBlock` | HW_16-OpenGL/stb_image.h:4409-4436 | A stored block is copied exactly when its header is whole, its length checks, its data lies within the input and the output fits |
| `ZlibBlocks.ParseBlocks` | HW_16-OpenGL/stb_image.h:4488-4507 | Block after block up to the final one, ending exactly as the stopping rule says |
| `ZlibBlocks.ParseZlibHeader` | HW_16-OpenGL/stb_image.h:4438-4449 | Accepts exactly the header bytes with valid check bits that name DEFLATE and no dictionary and are followed by data; the window size is not looked at |
| `ZlibBlocks.BeyondRefused` | HW_16-OpenGL/stb_image.h:4488-4507 | A block that starts behind the end of the input is refused |
| `ZlibBlocks.LaxBlocksGrows` | HW_16-OpenGL/stb_image.h:4488-4507 | Decoding blocks only appends to the output |
| `Zlib.BlockAgrees` | HW_16-OpenGL/stb_image.h:4309-4357 | From any reachable buffer state the stopping rule accepts a compressed block with the output of RFC 1951 when it is whole and fits, and refuses it when it is invalid or too long |
| `Zlib.IntactAgrees` | HW_16-OpenGL/stb_image.h:4481-4508 | The same for the blocks of a whole stream, without the tests that the source leaves out: whole blocks give exactly their output, if there is room; an invalid block is refused |
| `ZlibStandard.Stricter` | HW_16-OpenGL/stb_image.h:4438-4508 | The decoding of RFC 1950 and RFC 1951 is the one without those tests, but for streams with a window beyond 32K, a dynamic block of more than 286 literal and length codes, or a checksum that is missing or wrong |
| `ZlibOverrun.AcceptedNear` | HW_16-OpenGL/stb_image.h:4202-4271 | No accepted stream is read more than 17 bytes beyond its end |
| `ZlibOverrun.AcceptedIsZeroExtended` | HW_16-OpenGL/stb_image.h:4202-4222 | Whatever stream is accepted, intact or truncated, its blocks decode as those of the same bytes followed by any 17 or more zero bytes |
| `Zlib.TruncatedAccepted` | HW_16-OpenGL/stb_image.h:4332-4345 | 78 01 03 breaks off within its end-of-block code, and an empty output is accepted |
| `ZlibDecode.ValidDecoded` | HW_16-OpenGL/stb_image.h:4481-4508 | A stream valid by RFC 1950 and RFC 1951, checksum included, gives exactly its output if there is room, and is refused if not |
| `ZlibDecode.AgreesUnlessLenient` | HW_16-OpenGL/stb_image.h:4438-4508 | When the blocks do not run out of input and there is room, a stream is accepted if and only if it is valid or fails only those three tests |
| `ZlibDecode.ValidAccepted` | HW_16-OpenGL/stb_image.h:4481-4508 | 78 01 03 00 00 00 00 01 is a valid stream of no data, and accepted |
| `ZlibDecode.WideWindowAccepted` | HW_16-OpenGL/stb_image.h:4441-4449 | 88 1C 03 00 00 00 00 01 names a window of 64K and is accepted |
| `ZlibDecode.WrongChecksumAccepted` | HW_16-OpenGL/stb_image.h:4488-4507 | 78 01 03 00 00 00 00 00 has a wrong checksum and is accepted |
| `ZlibLayout.LengthOrder` | HW_16-OpenGL/stb_image.h:4361-4361 | The order of the code length sizes in closed form |
| `ZlibLayout.CodeRead` | HW_16-OpenGL/stb_image.h:4243-4271 | Where the bits of a code stand, most significant first, the decoder finds its symbol |
| `ZlibLayout.LengthTable` | HW_16-OpenGL/stb_image.h:4295-4301 | The two length tables in closed form, from the number of the code alone |
| `ZlibLayout.DistanceTable` | HW_16-OpenGL/stb_image.h:4303-4307 | The two distance tables in closed form |
| `ZlibLayout.TokensRead` | HW_16-OpenGL/stb_image.h:4309-4357 | Literals and matches written as section 3.2.5 of RFC 1951 lays them out, with any two codes that fit, are read as the bytes and copies they stand for |
| `ZlibLayout.HeaderRead` | HW_16-OpenGL/stb_image.h:4359-4407 | Code lengths written as section 3.2.7 lays them out, with any code length code and any use of the repeat codes, are read back |
| `ZlibLayout.FixedCodes` | HW_16-OpenGL/stb_image.h:4452-4467 | The fixed literal codes are those that section 3.2.6 lists |
| `ZlibLayout.FixedDistances` | HW_16-OpenGL/stb_image.h:4464-4467 | The fixed distance codes are their own numbers in five bits |
| `ZlibLayout.StreamRead` | HW_16-OpenGL/stb_image.h:4438-4508 | Every stream laid out as RFC 1950 and RFC 1951 describe, of stored, fixed and dynamic blocks in any number, is valid and stands for the bytes that its blocks bring |
| `ZlibLayout.LaidOutDecoded` | HW_16-OpenGL/stb_image.h:4481-4508 | The decoder returns those bytes if there is room, and refuses the stream if not |
| `ZlibValid.ValidIffLaidOut` | HW_16-OpenGL/stb_image.h:4438-4508 | The valid streams with this output and end are exactly those laid out in that way |
| `ZlibKnown.KnownDecoded` | HW_16-OpenGL/stb_image.h:4359-4407 | A stream of 23 bytes with one dynamic block is valid and decoded to its sixteen bytes |
| `ZlibWide.WideTablesAccepted` | HW_16-OpenGL/stb_image.h:4367-4370 | A stream of 19 bytes whose block announces 287 literal and length codes is invalid and accepted |
| `ZlibDecode.DecodeMallocGuessSize` | HW_16-OpenGL/stb_image.h:4520-4534 | For every input and positive initial size: accepted or refused exactly as the stopping rule says; the output of a valid stream if doubling can reach its length; an invalid stream taken only if it fails none but the three tests or runs out of input |
| `GifCanvas.PassesFill` | HW_16-OpenGL/stb_image.h:6675-6687 | The four interlacing passes have as many rows as the frame |
| `GifCanvas.RowOfTurn` | HW_16-OpenGL/stb_image.h:6675-6687 | Every row of the frame is drawn in some turn |
| `GifCanvas.TurnOfRow` | HW_16-OpenGL/stb_image.h:6675-6687 | No row is drawn in two turns |
| `GifCanvas.DrawingOrder` | HW_16-OpenGL/stb_image.h:6675-6687 | Of two rows of an interlaced frame the one of the earlier pass is drawn first: every eighth, every eighth from the fourth, every fourth from the second, every second from the first |
| `GifCanvas.OffsetsDiffer` | HW_16-OpenGL/stb_image.h:6654-6689 | Two colour indices of a frame never go to the same pixel |
| `GifCanvas.PaintedFrame` | HW_16-OpenGL/stb_image.h:6654-6689 | Each pixel of the frame shows the colour of the index that its row and column call for, red and blue exchanged, or what was there before when its alpha is 128 or less |
| `GifCanvas.Canvas.Plot` | HW_16-OpenGL/stb_image.h:6664-6688 | One index is drawn and the cursor moves on, through the passes; after the frame is full nothing changes |
| `GifLzw.WidthKept` | HW_16-OpenGL/stb_image.h:6763-6766 | Every code keeps the width the least that fits the next table entry, twelve bits at most |
| `GifLzw.HoldsExtended` | HW_16-OpenGL/stb_image.h:6749-6757 | A new entry has a smaller live prefix and stands for the previous string extended by the first index of the next one, also when the code is the entry itself |
| `GifLzw.CodeReader.NextCode` | HW_16-OpenGL/stb_image.h:6718-6731 | The next code of the given width across data sub-blocks, or the end of the data |
| `GifLzw.Raster.OutGifCode` | HW_16-OpenGL/stb_image.h:6654-6664 | The recursion over prefixes ends and draws exactly the string of the code |
| `GifLzw.Raster.AddEntry` | HW_16-OpenGL/stb_image.h:6749-6757 | The prefix table after one more entry holds the dictionary with one more string |
| `GifLzw.CapOnly` | HW_16-OpenGL/stb_image.h:6718-6770 | From any state that code sizes of 2 to 11 bits reach, the source decodes as a decoder whose table stays as it is when full, until a stretch of string codes between two clear codes gets longer than 8191 less the clear code; then it refuses |
| `GifLzw.Raster.ProcessRaster` | HW_16-OpenGL/stb_image.h:6691-6774 | For every input, draws exactly the indices that a dictionary of at most 8192 strings gives, or refuses with it; for code sizes of 2 to 11 bits, accepts if and only if the decoding of Appendix F of the GIF89a specification succeeds and no such stretch is too long |
| `GifRoundTrip.EncodesFit` | HW_16-OpenGL/stb_image.h:6763-6766 | In any encoding every code fits in the width that encoder and decoder have reached |
| `GifRoundTrip.SubBlocksRead` | HW_16-OpenGL/stb_image.h:6719-6727 | Data cut into sub-blocks reads back as that data |
| `GifRoundTrip.EncodingReadsBack` | HW_16-OpenGL/stb_image.h:6691-6774 | Bits that hold any encoding of a string, whatever matches it takes and whenever or never it clears, stand for that string, and are decoded to it if and only if no stretch between clear codes is too long; otherwise they are refused |
| `GifRoundTrip.DecodeEncoding` | HW_16-OpenGL/stb_image.h:6691-6774 | The same for the encoding written out in sub-blocks |
| `GifRoundTrip.RefusedEncoding` | HW_16-OpenGL/stb_image.h:6749-6753 | An image spelled index by index without a further clear code is valid, and refused exactly when it has more than 8191 less the clear code indices |
| `GifRoundTrip.DecodeEncoded` | HW_16-OpenGL/stb_image.h:6691-6774 | Every image of two- to eight-bit indices can be encoded so that it decodes to its own indices |
| `PngFilter.Paeth` | HW_16-OpenGL/stb_image.h:4657-4668 | The data-flow form of the predictor equals the one in clause 9 of the PNG specification for all integers |
| `PngFilter.FirstRow` | HW_16-OpenGL/stb_image.h:4648-4655 | The substituted filters of a first row give what the named filters give under an all-zero row |
| `PngFilter.UnfilterRow` | HW_16-OpenGL/stb_image.h:4737-4787 | A row is reconstructed from its filtered form and the row above, byte by byte as its filter byte calls for; a filter byte above 4 is refused |
| `PngFilter.CreateRaw` | HW_16-OpenGL/stb_image.h:4696-4787 | Too little data, a filter byte above 4, or the reconstruction of every row: which one exactly; and every byte of every row is, written out for its filter byte, what clause 9 of the PNG specification asks for |
| `PngFilter.ReconstructsRestores` | HW_16-OpenGL/stb_image.h:4640-4668 | Written out for each filter byte, every reconstructed byte is the source byte plus nothing, the byte to the left, the one above, the half of their sum, or the nearest of left, above and corner in the order of ties |
| `PngFilter.RowRecovered` | HW_16-OpenGL/stb_image.h:4750-4780 | What is reconstructed from a filtered row is that row |
| `PngFilter.ImageRecovered` | HW_16-OpenGL/stb_image.h:4737-4787 | Every row of any image, under any choice of filters, is recovered; data behind it does not matter |
| `PngFilter.DecodeEncoded` | HW_16-OpenGL/stb_image.h:4696-4787 | The filter loop on any encoded image returns that image |
| `Adam7.PlaceIs` | HW_16-OpenGL/stb_image.h:4871-4880 | A place of a pass goes to the one pixel that clause 8.2 of the PNG specification gives it |
| `Adam7.PassSizes` | HW_16-OpenGL/stb_image.h:4879-4880 | The size of a pass counts exactly the columns and rows of its residue class in the image |
| `Adam7.Deinterlace` | HW_16-OpenGL/stb_image.h:4870-4900 | The seven passes write every pixel exactly once, with the pixel its pass holds for it |
| `Adam7.InterlacedBack` | HW_16-OpenGL/stb_image.h:4870-4900 | Taking an image apart into passes and putting it together gives the image |
| `PngImage.DecodePasses` | HW_16-OpenGL/stb_image.h:4881-4899 | The passes lie one behind the other; decoding fails exactly when a pass that has pixels lacks data or names no filter |
| `PngImage.CreateImage` | HW_16-OpenGL/stb_image.h:4861-4905 | The same with the pixels spread over the image |
| `PngImage.EncodedHolds` | HW_16-OpenGL/stb_image.h:4881-4899 | The encoder's concatenated passes, followed by anything, hold the image |
| `PngImage.DecodeInterlaced` | HW_16-OpenGL/stb_image.h:4861-4905 | Any image, taken apart into passes and filtered row by row with any filters, is decoded to itself |
| `BencodeWriter.DynBuf.Append` | FINAL/src/bencode.c:25-34 | Refines concatenation through every regrowth; the capacity never falls behind the length |
| `BencodeWriter.EncodeObj` | FINAL/src/bencode.c:49-82 | Appends exactly the printed form of the value |
| `BencodeWriter.BencodeEncode` | FINAL/src/bencode.c:89-95 | Returns the printed form of the value |
| `BencodeReader.ReadString` | FINAL/src/bencode.c:139-160 | Strings as the lenient grammar reads them, with `strtol` and `memchr` |
| `BencodeReader.ReadInt` | FINAL/src/bencode.c:162-181 | Integers as the lenient grammar reads them: white space, sign, saturation, and `ie` as zero |
| `BencodeReader.ReadDict` | FINAL/src/bencode.c:225-272 | Key and value pairs, each key read as a string, up to the closing letter |
| `BencodeReader.BencodeDecode` | FINAL/src/bencode.c:104-137 | One value that takes the whole buffer, or nothing |
| `Bencode.ParseBack` | FINAL/src/bencode.c:49-272 | Whatever follows a printed value, parsing it returns the value and stops exactly where it ends |
| `Bencode.PrintedList` | FINAL/src/bencode.c:49-82 | A list of two strings is printed as BEP 3 shows it: `l4:spam4:eggse` |
| `Bencode.PrintedDict` | FINAL/src/bencode.c:49-82 | A dictionary of two strings is printed as BEP 3 shows it: `d3:cow3:moo4:spam4:eggse` |
| `Bencode.DecodeEncode` | FINAL/src/bencode.c:89-137 | Decoding the printed form of any value that fits the C types returns the value |
| `Bencode.StrictValue` | FINAL/src/bencode.c:104-272 | What is accepted with plain numerals only is accepted alike without that restriction, and is the printed form of its value |
| `Bencode.Reprint` | FINAL/src/bencode.c:49-272 | Printing a parsed value gives back its bytes if and only if every length and integer in them is a plain numeral |
| `Bencode.EncodeDecode` | FINAL/src/bencode.c:89-137 | Encoding after decoding is the identity on a buffer if and only if the buffer is canonical |
| `Bencode.NotGivenBack` | FINAL/src/bencode.c:162-181 | `i01e` is accepted and not given back |
| `Bencode.KeyNotGivenBack` | FINAL/src/bencode.c:139-160 | `d1x:a1:be`, a key whose length is followed by other text, is accepted and not given back |
| `Bencode.DictGet` | FINAL/src/bencode.c:326-333 | The first pair whose key equals the name up to a NUL, or none |
| `Bencode.InfoBytes` | FINAL/src/torrent.c:117-129 | The bytes hashed for the info dictionary are those of the file if and only if that dictionary is written canonically |
| `Torrent.PiecesTile` | FINAL/src/torrent.c:260-270 | Piece sizes are positive and add up, piece by piece, to the total length |
| `Torrent.PieceOf` | FINAL/src/torrent.c:260-270 | Every place of the stream lies in a piece |
| `Torrent.FilesAreStream` | FINAL/src/storage.c:68-98 | Files that show the stream at their offsets are the stream when joined |
| `Storage.OpenFiles` | FINAL/src/storage.c:68-98 | Each file gets the sum of the earlier lengths as its offset |
| `Storage.StorageWriter.WriteFile` | FINAL/src/storage.c:119-141 | The overlap of a piece with one file is written in its place; every other byte and file stays |
| `Storage.StorageWriter.Write` | FINAL/src/storage.c:111-141 | The same for all files of one piece |
| `Storage.WriteShows` | FINAL/src/storage.c:111-141 | After a piece is written the files show all of it |
| `Storage.WriteKeeps` | FINAL/src/storage.c:111-141 | They still show every piece that lies apart from it |
| `TarHeader.SizeFieldReadsBack` | FINAL/src/tar.c:10-20 | The size field reads back as the size modulo 2^32, for every size |
| `TarHeader.NameReadsBack` | FINAL/src/tar.c:38-68 | The name field reads back as the path cut to 99 characters |
| `TarHeader.CalculateChecksum` | FINAL/src/tar.c:22-36 | The sum over all bytes of the header |
| `TarHeader.BuildHeader` | FINAL/src/tar.c:38-68 | The bytes of the header, checksum included |
| `TarHeader.HeaderIsGood` | FINAL/src/tar.c:38-68 | Every header passes the check of the ustar Interchange Format in IEEE Std 1003.1 |
| `TarHeader.HeaderFields` | FINAL/src/tar.c:38-68 | The permissions as text, user and group zero, size and time modulo 2^32, the type and the version, and zeros in every other place |
| `TarEntries.WholeBlocks` | FINAL/src/tar.c:70-85 | Every entry ends, and so every header begins, on a 512-byte boundary |
| `TarEntries.PieceTurnSynced` | FINAL/src/tar.c:104-156 | A piece that continues the stream keeps the output the archive of the stream so far |
| `TarEntries.ClosedIsArchive` | FINAL/src/tar.c:158-177 | Closing a writer that has seen the whole stream gives the archive with two zero blocks |
| `TarReader.ReadBack` | FINAL/src/tar.c:38-177 | A checking reader recovers exactly the files that are not empty if and only if each has a name under 100 bytes and a size under 2^32 |
| `TarReader.LongNameCut` | FINAL/src/tar.c:42-47 | A file with a name of a hundred letters comes back with a name of ninety-nine |
| `TarWriter.TarStream.WriteHeader` | FINAL/src/tar.c:38-68 | Puts out one header and counts it |
| `TarWriter.TarStream.Write` | FINAL/src/tar.c:104-156 | One piece changes the writer exactly as the specification's turn does |
| `TarWriter.TarStream.Close` | FINAL/src/tar.c:158-177 | The pending padding and the two zero blocks |
| `TarWriter.ArchiveReadsBack` | FINAL/src/tar.c:87-177 | After the pieces in index order a reader recovers names and contents exactly when all files are portable |
| `TarWriter.ComponentsBack` | FINAL/src/tar.c:123-127 | The name of a path, cut at its slashes, is the path again whenever no component is empty or holds a slash |
| `TarWriter.ArchivePaths` | FINAL/src/tar.c:87-177 | After the pieces in index order the names that a reader recovers, cut at their slashes, are the paths of the files that are not empty |
| `PieceBits.BitField.IsDone` | FINAL/headers/utils.h:29-29 | The bit of a piece, most significant bit first |
| `PieceBits.BitField.MarkDone` | FINAL/headers/utils.h:30-30 | Sets the bit of that piece and no other |
| `PieceBits.MarkedIs` | FINAL/headers/utils.h:29-29 | Piece 0 has the highest bit of the first byte, piece 7 its lowest one |
| `PieceBits.ClearMark` | FINAL/src/main.c:256-257 | Marking a piece lowers the number of clear bits by one |
| `Download.FetchBlocks` | FINAL/src/main.c:229-247 | Requests go out block after block, and the buffer holds the data of the frames that answer them in turn, unless an answer fails to come or the sending fails |
| `Download.TryPiece` | FINAL/src/main.c:229-249 | Only data of the piece's length whose hash matches is handed on, and unless stopped it is handed on whenever the frames supply it |
| `Download.ProgressStep` | FINAL/src/main.c:249-257 | One more verified piece keeps the log, the bit field and the count of pieces left in agreement |
| `Download.OfferPieces` | FINAL/src/main.c:221-264 | A peer whose frames answer the requests for all pieces in index order leaves no piece missing, unless the program is stopped |
| `Download.OfferPiece` | FINAL/src/main.c:221-264 | A piece is written at most once and only when verified, and written when it is missing, offered and supplied; the bit field, count and output stay in agreement |
| `Download.FilesArePieces` | FINAL/src/storage.c:111-141 | When every piece is logged the joined files are the joined pieces |
| `Download.LogInOrder` | FINAL/src/main.c:172-277 | A log in index order gives the writer the pieces of one stream in order |
| `Download.TarDownloadReadsBack` | FINAL/src/main.c:172-277 | A complete download in index order reads back as the files exactly when all are portable |
| `Download.AnswersServe` | FINAL/src/main.c:229-249 | A peer that answers every request with a genuine block, in order, serves every piece |
| `Download.DownloadPieces` | FINAL/src/main.c:172-277 | For every list of peers, whatever bytes arrive from each, in whatever pieces, and every moment of being stopped: the result counts the pieces not written; each other one was written once and verified; with none left the joined files are the joined pieces, and the closed archive reads back as the files, in index order always with one peer; a first peer that greets, unchokes, offers and serves every piece completes the download |
| `Crc32.Composes` | HW_09-CRC/crc32.c:51-57 | The checksum of a concatenation continues from that of its first part |
| `Crc32.TableIsRemainders` | HW_09-CRC/crc32.c:4-48 | Each table word is the remainder of its index after eight steps of division by 0xEDB88320 |
| `Crc32.TurnIsDivision` | HW_09-CRC/crc32.c:51-57 | One turn of the loop equals eight single-bit steps of the reflected division |
| `Crc32.UpdateCrc32` | HW_09-CRC/crc32.c:51-57 | The table loop computes the bitwise definition of section 8 of RFC 1952 on every buffer |
| `Crc32.BurstDetected` | HW_09-CRC/crc32.c:51-57 | Two messages of equal length that differ only within 32 consecutive bits never have the same checksum |
| `Crc32.WindowDetected` | HW_09-CRC/crc32.c:51-57 | In particular when they differ only within four consecutive bytes |
| `Crc32.FeedChunks` | HW_09-CRC/check_crc32.c:63-94 | The chunk loop carries the checksum of what it has mapped, at page-aligned offsets, and stops early exactly when a mapping fails |
| `Crc32.CheckFile` | HW_09-CRC/check_crc32.c:47-101 | Prints the one-pass checksum, zero for the empty file, or fails exactly when some mapping fails |
| `LogTables.HashString` | HW_10-Log-Parser/parser.c:22-31 | The hash loop modulo 2^64 |
| `LogTables.HashLonger` | HW_10-Log-Parser/parser.c:22-31 | The hash of the empty string is 5381, and one more character multiplies by 33 and adds modulo 2^64 |
| `LogTables.PutReflects` | HW_10-Log-Parser/parser.c:68-110 | Updating a table adds to its key exactly, keeps every key in its own bucket and no key twice |
| `LogTables.HashTable.AddUrl` | HW_10-Log-Parser/parser.c:68-92 | The chain walk in place is that update |
| `LogTables.HashTable.AddReferer` | HW_10-Log-Parser/parser.c:94-117 | The same for referers |
| `LogTables.MergeUrlsReflects` | HW_10-Log-Parser/parser.c:120-131 | Merging adds the amounts of the source table to the target, whatever their sizes |
| `LogTables.MergeReferersReflects` | HW_10-Log-Parser/parser.c:133-144 | The same for referers, merged by repeated increments |
| `LogTables.HashTable.MergeUrlsFrom` | HW_10-Log-Parser/parser.c:120-131 | The merge in place is that function |
| `LogTables.HashTable.MergeReferersFrom` | HW_10-Log-Parser/parser.c:133-144 | The merge in place is that function |
| `LogTables.FlattenSum` | HW_10-Log-Parser/parser.c:188-239 | The array of a table has the amounts, the keys and the total of the table |
| `LogTables.HashTable.ToArray` | HW_10-Log-Parser/parser.c:188-239 | The two loops fill the array with every node in bucket order |
| `LogWorkers.ThreadData.ProcessFile` | HW_10-Log-Parser/parser.c:395-428 | A file changes a thread's tables and totals as the sequential update does |
| `LogWorkers.ThreadData.MergeInto` | HW_10-Log-Parser/parser.c:462-478 | A thread's tables and totals are added to the global ones and stay as they are |
| `LogWorkers.ProcessShows` | HW_10-Log-Parser/parser.c:406-428 | After a file the tables show its lines added to what they showed before |
| `LogWorkers.LogsSum` | HW_10-Log-Parser/parser.c:94-117 | What the lines of a file add, counted line by line: bytes for a URL, and one visit for a referer that is neither empty nor a dash |
| `LogWorkers.RunKeepsInv` | HW_10-Log-Parser/parser.c:445-487 | Under every schedule each file index given out is held by one thread or merged, once, and every table is that of its files |
| `LogWorkers.OrderDoesNotMatter` | HW_10-Log-Parser/parser.c:445-487 | Logs of the same files in another order add up alike |
| `LogWorkers.EveryScheduleAgrees` | HW_10-Log-Parser/parser.c:445-487 | Once all threads have finished, whatever the schedule, every file was merged exactly once and the tables are those of one sequential pass |
| `LogWorkers.SequentialMeans` | HW_10-Log-Parser/parser.c:406-428 | The outcome, counted line by line over all files: the bytes of each URL, the visits of each referer but none for the empty one or a dash, a URL for every request and no other, and the byte total |
| `LogSchedules.StepWorks` | HW_10-Log-Parser/parser.c:445-487 | Each turn of an unfinished thread uses up one unit of a bounded amount of work |
| `LogSchedules.FairScheduleAgrees` | HW_10-Log-Parser/parser.c:445-487 | Every schedule with two rounds for each file and two for each thread, in which every thread gets a turn in every round, finishes with the sequential result |
| `RingBuffer.RunIsFifo` | HW_14-ringbuffer/ring_buffer_char.c:101-300 | Over every run of writes, reads, clears and resizes the bytes delivered followed by those in the buffer are the accepted bytes that were not lost, in order, and together with the lost ones they are all the accepted bytes |
| `RingBuffer.CallLoses` | HW_14-ringbuffer/ring_buffer_char.c:222-300 | A clear or a resize loses exactly the bytes it takes out of the queue, the newest ones |
| `RingBuffer.PlainRunIsFifo` | HW_14-ringbuffer/ring_buffer_char.c:135-220 | Writes and reads alone lose nothing |
| `RingBuffer.ResizeKeeps` | HW_14-ringbuffer/ring_buffer_char.c:256-278 | A successful resize keeps the oldest bytes that fit if and only if the copy could be allocated or the buffer was empty |
| `RingBuffer.RoomComes` | HW_14-ringbuffer/ring_buffer_char.c:374-381 | While nothing resizes the buffer, the room a blocking write waits for can come if and only if the write is not larger than the buffer |
| `RingBuffer.RoomComesResized` | HW_14-ringbuffer/ring_buffer_char.c:374-381 | With resizes it can come if and only if the write is not larger than the largest size |
| `RingBuffer.RingBuffer.HeadIsBehind` | HW_14-ringbuffer/ring_buffer_char.c:101-220 | `head == (tail + count) % size` and `count <= size` always |
| `RingBuffer.Create` | HW_14-ringbuffer/ring_buffer_char.c:101-125 | An empty queue of the given size, or the error for an illegal size or a failed allocation |
| `RingBuffer.RingBuffer.WriteBytes` | HW_14-ringbuffer/ring_buffer_char.c:135-179 | Unless the buffer is full, the lesser of request and free space is returned, exactly that prefix is appended and one write is counted; on a full buffer only one overrun is counted |
| `RingBuffer.RingBuffer.ReadBytes` | HW_14-ringbuffer/ring_buffer_char.c:181-220 | The wrap-around copy delivers exactly the oldest bytes up to the request, these leave the queue, and one read is counted unless there was nothing |
| `RingBuffer.RingBuffer.Clear` | HW_14-ringbuffer/ring_buffer_char.c:222-231 | Nothing is left in the queue; size, counters and mode stay |
| `RingBuffer.RingBuffer.Resize` | HW_14-ringbuffer/ring_buffer_char.c:233-300 | Keeps the oldest bytes that fit in order, the counters and the mode; an illegal size or a failed first allocation changes nothing; a failed second one drops all data and reports success |
| `RingBuffer.RingBuffer.PollRead` | HW_14-ringbuffer/ring_buffer_char.c:396-413 | Readable exactly when a read returns data |
| `RingBuffer.RingBuffer.PollWrite` | HW_14-ringbuffer/ring_buffer_char.c:396-413 | Writable exactly when a write does not report a full buffer |
| `RingBuffer.RingBuffer.RoomFor` | HW_14-ringbuffer/ring_buffer_char.c:374-381 | The awaited condition holds exactly when the whole request fits |
| `PeerWire.Socket.RecvFull` | FINAL/src/network.c:138-172 | Whatever pieces the stream arrives in, exactly the next `len` bytes, or failure when there are fewer |
| `PeerWire.Socket.SendFull` | FINAL/src/network.c:101-132 | Whatever part each call sends, the whole buffer once and in order, or as much of it as the connection takes and failure |
| `PeerWire.Socket.RecvMessage` | FINAL/src/network.c:177-199 | The bytes of exactly the next length-prefixed frame of the stream, or failure when it is not complete |
| `PeerWire.Socket.ReadMessage` | FINAL/src/peer.c:100-132 | The id, payload and length that stand for exactly the next frame, or failure when it is not complete |
| `PeerWire.ReadingDetermines` | FINAL/src/peer.c:106-124 | These determine the frame if and only if it is neither a keep-alive nor a message of id 255 without payload |
| `PeerWire.MistakenForKeepAlive` | FINAL/src/peer.c:106-112 | 00 00 00 01 FF is read as the keep-alive 00 00 00 00 is |
| `PeerWire.MistakeHarmless` | FINAL/src/peer.c:182-309 | Frames that are read alike have the same effect on waiting for unchoke and for a block |
| `PeerWire.Handshake` | FINAL/src/peer.c:12-62 | Succeeds exactly when the peer greets with the protocol and this torrent and the sending does not fail; exactly the greeting is read, and what is sent is itself such a greeting with the own id behind it |
| `PeerWire.HandshakeGreets` | FINAL/src/peer.c:12-30 | The 68 bytes sent greet a peer of the same torrent: the protocol name, eight zeros, the info hash and the peer id in their places |
| `PeerWire.HandshakeTaken` | FINAL/src/peer.c:12-50 | A peer that checks as this client does takes the handshake of every client for the same torrent and of no other |
| `PeerWire.SendRequest` | FINAL/src/peer.c:73-86 | Sends the request frame of BEP 3, or as much of it as the connection takes and failure |
| `PeerWire.RequestReadsBack` | FINAL/src/peer.c:73-92 | That frame, followed by anything, parses back to its three numbers |
| `PeerWire.PeerConnection.WaitForUnchoke` | FINAL/src/peer.c:182-230 | Returns at once when unchoked; otherwise succeeds exactly when an unchoke frame comes before the first failed read, having noted the frames before it and no others |
| `PeerWire.PeerConnection.HasPiece` | FINAL/src/peer.c:241-258 | True without a bitfield, and otherwise the bit of the piece |
| `PeerWire.NotedMeans` | FINAL/src/peer.c:182-258 | A piece is offered exactly when no bitfield came, or its bit is in the last one or was named by a later in-range have frame |
| `PeerWire.MessageIds` | FINAL/src/peer.c:182-309 | The ids of BEP 3: 0 chokes, 1 unchokes, 4 names a piece, 5 is a bit field, 7 carries a block, with their numbers in network order |
| `PeerWire.ReceiveBlock` | FINAL/src/peer.c:260-309 | Fills the buffer exactly when a piece frame with the expected index, begin and length comes before any choke or short piece frame, and changes no other byte |

## Left out

- Allocation, `fwrite`, `fseek` and `ftruncate` succeed in the model; where a resize of the ring buffer or a mapping of the CRC checker can fail, that failure is a parameter.
- SHA-1 is an uninterpreted function of the piece data; `qsort` and the printed report of the log parser are not modelled.
- ZlibDecode.DecodeMallocGuessSize: requires a positive initial size, because the doubling loop does not end for zero (`Inflate.DoublingEnds`); the caller's `outlen` and the variants without a header or with a fixed buffer are left out.
- ZlibBlocks.ParseZlibHeader: the window size that a legal header names is not compared with the distances used, as the source does not either.
- Storage.OpenFiles: paths, directories and the opening of files are not modelled, nor two files of a torrent with one path.
- Storage.StorageWriter.WriteFile: a failing `fseek` or a short `fwrite` is not modelled.
- Storage.StorageWriter.Write: the same for all files of a piece.
- GifCanvas.Canvas.Plot: the `history` of pixels drawn is not modelled, nor are the headers and extensions around an image, the reader's position behind it, and more than one frame. Offsets count pixels, not bytes.
- PngFilter.CreateRaw: sample depths other than eight, the inserted alpha channel and the size-overflow checks are not modelled.
- PngImage.CreateImage: the same; chunks, palettes and colour conversion are left out too. It decodes all passes before it spreads them; the source alternates, which changes nothing that decoding reads.
- Download.DownloadPieces: assumes the layout that the code assumes and does not check: a positive piece length and total length, as many pieces as the total length calls for, and a total that is the sum of the file lengths; piece numbers and lengths are those of 32-bit fields.
- The bencode buffer has a NUL behind its end, as the tracker reply has; `parse_dict` looks at the byte at `end` before it compares. Freeing values and the overflow of a pointer by a huge string length are not modelled; lengths add as integers.
- Tar output for pieces out of index order, and an entry for an empty file: the writer puts out no header for a file without bytes, and the archive theorem speaks of the files that are not empty. The 4096-byte path buffer is not modelled, and the time in a header is an argument.
- Timeouts, `poll` and interrupted calls; a transfer that times out or is stopped is one that fails. The tracker and `peer_receive_piece` are left out.
- The text of a log line is given as parsed; `getline`, `parse_log_line`, failed thread creation and counters beyond their C width are left out.
- The mutex and wait queues that a resize overwrites, so that a sleeping caller is not woken; copying to and from user space, and the device registration. Each critical section is one atomic step.
- The other decoders of `stb_image.h`, and the other programs of the repository.

## Findings

- HW_16-OpenGL/stb_image.h:4214-4222, 4326: a zlib stream cut off near its end can be accepted. `stbi__zreceive` appends zero bytes behind the input without setting `hit_zeof_once`, so the end-of-block code of 78 01 03 is read two bits beyond the input (`Zlib.TruncatedAccepted`). The functions `CountedBlock` and `CountedZlib` state, for every input, when such a stream is accepted: they follow only how many bytes have been fetched, how many bits used, and whether padding has been counted. An accepted stream is never read more than 17 bytes beyond its end (`ZlibOverrun.AcceptedNear`) and decodes as if zero bytes followed it (`ZlibOverrun.AcceptedIsZeroExtended`).
- HW_16-OpenGL/stb_image.h:4442-4448, 4367, 4506: three tests of RFC 1950 and RFC 1951 are not made: that the window is at most 32K, that a dynamic block announces at most 286 literal and length codes, and that the checksum behind the blocks is that of the output. Streams that fail only these are accepted, and no others that are invalid within their input (`ZlibDecode.AgreesUnlessLenient`). `ZlibDecode.WideWindowAccepted`, `ZlibWide.WideTablesAccepted` and `ZlibDecode.WrongChecksumAccepted` give one of each kind.
- HW_16-OpenGL/stb_image.h:4282-4285: the doubling loop of `stbi__zexpand` ends if and only if the buffer is not empty (`Inflate.DoublingEnds`), so an initial size of zero is good only for an empty output.
- HW_16-OpenGL/stb_image.h:6751: an image whose encoder puts off the clear code is valid by Appendix F of the GIF89a specification, and refused as soon as more than 8191 less the clear code string codes stand between two clear codes (`GifRoundTrip.EncodingReadsBack`, `GifLzw.CapOnly`). `GifRoundTrip.RefusedEncoding` gives such an image for every longer list of indices.
- HW_16-OpenGL/stb_image.h:4237, 4205, 6757: the check `size[b] != s` in the slow path of the Huffman decoder and the guard `code_buffer >= (1U << num_bits)` in `stbi__fill_bits` never fire. In `stbi__process_gif_raster` the comparison of a code with `avail` comes after `avail` has moved on and never holds; a code equal to the new entry is decoded rightly all the same.
- FINAL/src/bencode.c:139-181: re-encoding a decoded bencode value gives the original bytes exactly for canonical input (`Bencode.EncodeDecode`), so the hash of a non-canonical info dictionary is not that of its bytes (FINAL/src/torrent.c:117-129). The parser takes leading zeros, white space, signs, saturated numbers, `ie` as zero, and text between a length and its colon.
- FINAL/src/tar.c:42-47, 10-14: an archive reads back exactly when every non-empty file has a name under 100 bytes and a size under 2^32 (`TarReader.ReadBack`): longer names are cut (`TarReader.LongNameCut`), and larger sizes reduced modulo 2^32.
- HW_14-ringbuffer/ring_buffer_char.c:376: a blocking write larger than the buffer waits for room that can come only through a resize (`RingBuffer.RoomComes`), and one larger than 65536 bytes for room that never comes (`RingBuffer.RoomComesResized`).
- HW_14-ringbuffer/ring_buffer_char.c:259-277: when the temporary copy cannot be allocated, a resize drops all data and reports success (`RingBuffer.ResizeKeeps`).
- FINAL/src/peer.c:106-112: a message of id 255 without payload is read as a keep-alive is, and no two other frames are confused (`PeerWire.ReadingDetermines`, `PeerWire.MistakenForKeepAlive`). The client ignores both (`PeerWire.MistakeHarmless`).
