# A verified model of zlib

This project models zlib 1.3.1 as it is kept in `external/zlib`: the decompressor (`inflate`,
`inflate_fast`, `inflate_table`, `inflateBack`, `inflateSync`), the compressor (`deflate` with
`deflate_stored`, `deflate_fast` and `deflate_slow`, the hash chains, `longest_match`, and all of the
Huffman coding in `trees.c`), the zlib and gzip wrappers, and the two checksums.

The centre is a reference decoder for RFC 1951 (`Rfc1951.dfy`) and for the wrappers of RFC 1950 and
RFC 1952 (`Wrapper.dfy`).  It is a plain recursion over the bits of a whole stream and knows nothing of
tables, buffers or calls.  Every stream has a meaning by it: it is finished with some output and some
bits left, corrupt, starved of input, in need of a dictionary, or reaches beyond the window.  What it
takes from tables and constants that the code shares with it is stated once more from the text of the
RFCs (`FormatLaws.dfy`), and it is given streams worked out by hand (`KnownStreams.dfy`,
`KnownWrappers.dfy`).

- *Decompression.*  `InflateState.Meaning` gives what a state of `inflate`, with all the input that may
  still come, amounts to.  Each step of the state machine keeps it, whatever comes later; so do
  `inflate_fast`, the end of a call and the beginning of the next.  Hence the output does not depend on
  how input and output space are divided, but for distances beyond a small window, which `Windows.dfy`,
  `InflateRuns.dfy` and `FarBack.dfy` treat.
- *Decompression with callbacks.*  `BackSpec.Stream` is `inflateBack` as a function of its input, its division and the
  window, byte for byte; `InflateBack.dfy` is proved to do just that, and `BackSpec.StreamFaithful` says when that is
  what the reference decoder does.
- *Compression.*  `BlockSpec.Emits` says that the bits written so far take the reference decoder from its
  start to having produced the data so far, however the stream goes on.  Each block writer keeps it.  The
  matcher keeps that its tokens stand for the data, through sliding windows and hash chains, and the
  driver keeps both over calls in any flush mode and with any room for output, header and trailer
  (`GzipWriter.dfy`, `DeflateWrap.dfy`) around them.  What a flush promises is proved of the bytes delivered; from a
  full flush on they decode by themselves.  Which tokens are made is stated as well: hash chains hold just the strings
  inserted, the search goes along a chain just as far as the level says, and a step emits just what lazy matching asks
  for.
- *Round trip.*  `RoundTrip.dfy` puts the two together.
- *Codes.*  That `inflate_table` is right rests on `Canonical.dfy`; that `build_tree` is right, and that no
  code is better as long as the limit on the lengths allows, on `HuffmanTree.dfy`, `BitLengths.dfy`, `Optimal.dfy`
  and `Shallow.dfy`.
- *Checksums.*  CRC-32 is defined as a shift register, and proved to be the remainder of polynomial division;
  tables, braids and combining are proved against it.  Adler-32 is defined with a reduction at each byte.
- *Concurrency.*  `once()` is a state machine over the atomic steps of any number of threads.

Objects that the library updates in place are classes (`Inflate.Stream`, `Compressor.Deflater`,
`DeflateStored.Storer`, `GzipWriter.Writer`, `InflateBack.Ring`, `Sync.Resync`); windows, hash tables, heaps
and decoding tables are arrays.  The registers, the scalars of the matcher and the bit buffer are values that
a step takes and returns.  What the caller supplies (input, space for output, flush modes, tuning parameters)
are parameters, and every statement is for all of them.

`dafny verify dfyconfig.toml` checks the project.

## Model

The first rows are the main results.

| member | source | states |
|---|---|---|
| RoundTrip.Raw | external/zlib/deflate.c:946-1255 | whatever the calls (data, flush modes, rooms for output) and whichever of deflate_stored, deflate_fast and deflate_slow is used, what deflate delivers is inflated, in pieces of any size and any rooms, called again until it is through, to exactly all the data given, ending with Z_STREAM_END; with any window of inflate no smaller than that of deflate |
| RoundTrip.ZlibStream | external/zlib/deflate.c:946-1255 | the same for zlib streams, the two-byte header and the Adler-32 trailer being delivered with the rest in whatever rooms; inflate may be told a window or take that of the header |
| RoundTrip.GzipStream | external/zlib/deflate.c:946-1255 | the same for gzip streams with a header of the caller's, delivered in the same calls and rooms: it comes back too, cut only to the buffers that the reader gave |
| RoundTrip.PlainGzipStream | external/zlib/deflate.c:1031-1055 | the same for gzip streams without one, whose header has ten bytes |
| RoundTrip.Back | external/zlib/infback.c:242-619 | a raw stream is restored by inflateBack as well, inflate_fast and all, with any window no smaller than that of deflate and in whatever pieces in() gives it, unless out() fails; and if out() would take more calls than there are bytes it does not |
| InflateRuns.InflateInCalls | external/zlib/inflate.c:590-1264 | over all sequences of calls, if no distance reaches beyond the window: output, saved header, return code and unread input are those of the RFC 1950/1951/1952 decoder run on all input at once, so they do not depend on how input and room were divided; if no call has room for two bytes this holds of every stream, a distance beyond the window being an error; with room left and no pause asked for, a call stops only when the input is used up and is not yet enough |
| InflateRuns.InflateAll | external/zlib/inflate.c:590-1264 | once all input is given, calling on with any rooms, until there is an end, an error, a dictionary wanted or room left, brings out all that the input decodes to |
| InflateRuns.InflateOnce | external/zlib/inflate.c:1132-1176 | one call decodes as with a window of 32K, whatever window it has: a distance may reach back to the beginning of the output |
| InflateRuns.TwoWays | external/zlib/inflate.c:1132-1176 | for every stream and window: all in one call and byte by byte give the same output if and only if no distance reaches beyond the window |
| Windows.HeadWithin | external/zlib/inflate.c:1132-1176 | with a window of 32K no stream reaches beyond it; with a smaller one a stream that does goes on differently from one decoded with 32K, and any other is decoded the same |
| FarBack.TwoResults | external/zlib/inflate.c:1132-1176 | a stream, 300 literals and a match 300 bytes back, for which inflate with a window of 256 bytes gives two different outputs |
| Inftrees.InflateTable | external/zlib/inftrees.c:32-299 | -1 just if the lengths are over-subscribed or incomplete where that is not allowed; 0 just with a table, root and sub-tables, from which every bit stream is decoded as by the canonical code, nothing outside it being changed; 1 never for the sizes inflate uses |
| InflateFast.Run | external/zlib/inffast.c:50-304 | inflate_fast reads within its six bytes of input and 258 of room, gives back no more bytes than it took, and what the stream decodes to is the same after it as before it |
| CrcBig.Crc32Z | external/zlib/crc32.c:694-1010 | for words of four or eight bytes, either byte order, any number of braids, any alignment and any length, the braided CRC equals the bytewise CRC of section 8.1 of RFC 1952; zero for no buffer |
| DeflateMatch.LongestMatch | external/zlib/deflate.c:1348-1489 | the unrolled search with its sentinel comparisons finds the match, and the place, that a plain search along the hash chain finds, cut to the lookahead: that search looks at max_chain strings, a quarter of them if the previous match is good, no further back than the limit, and stops at nice_match or the lookahead |
| Deflate.SlowStep | external/zlib/deflate.c:1910-2030 | a step of deflate_slow keeps the invariant, its pending match included; it emits the pending match just if there is one and the search at strstart finds nothing longer, or else the byte held back, or nothing; the search is made just if the pending match is shorter than max_lazy, and of what it finds matches of up to five bytes are dropped with Z_FILTERED and one of three from more than TOO_FAR back; the strings inserted are those of the match but for the last two of the input |
| Deflate.FastStep | external/zlib/deflate.c:1811-1902 | a step of deflate_fast keeps the invariant; it emits a match just if the search finds one of three bytes or more, of the length and from the place found, or else the byte; the strings in a match are inserted just if it is no longer than max_insert and three bytes are left |
| Compressor.Deflater.Deflate | external/zlib/deflate.c:946-1255 | one call, any flush mode and room, header and trailer included: Z_STREAM_END only with header, whole stream and trailer delivered, Z_OK when finishing only with the room used up; Z_STREAM_ERROR and Z_BUF_ERROR if and only if they should be, the latter without room, with nothing to do since a call with the same or a stronger flush, or with input after the end; with room left all input given is taken, and a flush has delivered what it promises; all that follows a full flush is a stream by itself for the data given since; finishing gets nearer to the end |
| BuildTree.BuildTree | external/zlib/trees.c:625-704 | for any frequencies: a complete prefix code of at most max_length bits that has a code for every symbol that occurs, opt_len and static_len growing by its exact cost; if the frequencies sum to less than 65536, no prefix code costs less if and only if one of at most max_length bits is as cheap as any; and that is so for all frequencies with a sum below a Fibonacci number (55 for 7 bits, 2584 for 15); and a symbol that occurs more often than another never has a longer code, also when the limit on the lengths was in the way |
| Compressor.Compress | external/zlib/deflate.c:946-1255 | asked to finish again and again, with whatever room, deflate does come to an end, and what was delivered is the header, one whole stream for all the data given, and the trailer with its check value |
| DeflateStored.Store | external/zlib/deflate.c:1627-1802 | the same at level 0, for any window and pending_buf sizes: nothing is lost, repeated or reordered on the way through input, window and pending_buf |
| InflateBack.InflateBack | external/zlib/infback.c:242-619 | for every input, division of it by in() and window, what is written and returned is what BackSpec.Stream says, calls of inflate_fast included; if out() fails, a beginning of it, and only after all the calls it takes; unless it fails this is the output and the return code that the RFC 1951 decoder calls for (a distance beyond the window being a data error) if and only if no string that inflate_fast takes lies beyond the output or the window, which is so of every stream that is whole or merely cut short; next_in ends as null just if in() was called and gave nothing, otherwise as the unread part of the last piece, and in() is called no sooner than a byte is wanted |
| BackSpec.StreamFaithful | external/zlib/infback.c:469-478 | for every stream, division and window: the function gives what the RFC 1951 decoder gives if and only if nothing goes astray; if something does, it goes on writing where the format has an error |
| BackSpec.UnhurriedFaithful | external/zlib/infback.c:470-471 | with pieces of less than six bytes, or a window of less than 258, nothing goes astray, whatever the stream |
| Sync.SyncInCalls | external/zlib/inflate.c:1375-1421 | however the input is divided over calls, inflateSync finds the first 00 00 FF FF counted from the next byte boundary in the bit accumulator, or there is none |
| Once.ExactlyOnce | external/zlib/crc32.c:236-246 | for any number of threads and any interleaving, the atomic once() runs init at most once, and it has run before any thread returns |
| OnceRace.TwiceIff | external/zlib/crc32.c:259-278 | without atomics init runs, or will have to run, more than once if and only if some thread reads the flag clear between another thread reading it clear and setting it |
| Canonical.PrefixFree | external/zlib/inftrees.c:73-81 | if the lengths are not over-subscribed, no stream starts with the codes of two symbols |
| Canonical.CompleteCovers | external/zlib/inftrees.c:73-81 | if the lengths use up the code space, every stream starts with the code of some symbol |
| Inftrees.CountLengths | external/zlib/inftrees.c:101-105 | count[l] is the number of symbols of length l |
| Inftrees.Bounds | external/zlib/inftrees.c:107-123 | max and min are the longest and shortest length in use; max is zero just if there are no codes |
| Inftrees.CodeSpace | external/zlib/inftrees.c:125-133 | left is negative just if the Kraft sum exceeds one, and otherwise what is left of the code space |
| Inftrees.SortSymbols | external/zlib/inftrees.c:135-142 | work holds the coded symbols by length, and by number within a length |
| Inftrees.Replicate | external/zlib/inftrees.c:225-232 | the entry goes to all indices whose low bits are the code, and to no other place |
| TableFill.BackIncrement | external/zlib/inftrees.c:234-243 | the bit-reversed increment of a bit-reversed code is the next code bit-reversed, or zero after the last |
| TableFill.EnterShort | external/zlib/inftrees.c:209-232 | copying the entry of a code no longer than root keeps all codes entered before decodable and adds this one |
| TableFill.EnterLong | external/zlib/inftrees.c:209-232 | the same for a longer code in its sub-table; the root entry stays linked to the sub-table |
| TableFill.OpenTable | external/zlib/inftrees.c:252-282 | linking a new sub-table at the slot of the next code keeps all codes entered before |
| Inftrees.SubtableBits | external/zlib/inftrees.c:261-269 | the sub-table opened has room for every code that shares its slot, and has a code of its greatest length |
| Inftrees.OpenSubtable | external/zlib/inftrees.c:252-282 | a sub-table is opened after the current one, outside the entries in use, and there is space for it unless there are more symbols than the format has |
| Inftrees.FillTable | external/zlib/inftrees.c:192-283 | after the loop every code is in the table, huff is what follows the last code, and the entries used are counted |
| Enough.FewLong | external/zlib/inftrees.h:38-51 | a complete code of 286 (30) symbols with codes longer than 9 (6) bits has at most 284 (27) of these |
| Enough.BudgetEnough | external/zlib/inftrees.h:38-51 | then root and sub-tables together take at most 852 (592) entries: ENOUGH is proved by counting and not by search |
| Decode.LookupReads | external/zlib/inflate.c:1036-1055 | a lookup that accounts for no more bits than are held gives the symbol that the code starts with, or the invalid mark just if there is none |
| Decode.LookupStarves | external/zlib/inflate.c:1036-1048 | a lookup that wants more bits than are held: no code is complete in these bits and one may be coming |
| Decode.LookupStable | external/zlib/inflate.c:1036-1048 | a lookup depends only on the bits that it accounts for |
| Fixed.FixedTables | external/zlib/inflate.c:252-291 | the tables built for fixed blocks decode the fixed codes of section 3.2.6 of RFC 1951 |
| Registers.NeedBits | external/zlib/inflate.c:484-488 | NEEDBITS gets the bits, pulling no byte more than it has to, or takes all input and has too few; no bit is lost |
| Registers.ReadCode | external/zlib/inflate.c:1036-1053 | the loop that pulls bytes until a code is complete reads just the next symbol of the stream and leaves fewer than 8 bits, or keeps all bits when the input ends |
| InflateState.DoHead | external/zlib/inflate.c:622-670 | a pass of HEAD, zlib or gzip or neither: what the stream means to the reference decoder is the same after it, and if it stops for input there is not enough of it |
| InflateState.DoFlags | external/zlib/inflate.c:671-690 | a pass of FLAGS: what the stream means to the reference decoder is the same after it, and if it stops for input there is not enough of it |
| InflateState.DoTime | external/zlib/inflate.c:691-699 | a pass of TIME: what the stream means to the reference decoder is the same after it, and if it stops for input there is not enough of it |
| InflateState.DoOs | external/zlib/inflate.c:700-710 | a pass of OS: what the stream means to the reference decoder is the same after it, and if it stops for input there is not enough of it |
| InflateState.DoExLen | external/zlib/inflate.c:711-724 | a pass of EXLEN: what the stream means to the reference decoder is the same after it, and if it stops for input there is not enough of it |
| InflateState.DoExtra | external/zlib/inflate.c:725-748 | a pass of EXTRA, saved up to extra_max: what the stream means to the reference decoder is the same after it, and if it stops for input there is not enough of it |
| InflateState.DoName | external/zlib/inflate.c:749-770 | a pass of NAME: what the stream means to the reference decoder is the same after it, and if it stops for input there is not enough of it |
| InflateState.DoComment | external/zlib/inflate.c:771-791 | a pass of COMMENT: what the stream means to the reference decoder is the same after it, and if it stops for input there is not enough of it |
| InflateState.DoHcrc | external/zlib/inflate.c:792-809 | a pass of HCRC: what the stream means to the reference decoder is the same after it, and if it stops for input there is not enough of it |
| InflateState.DoDictId | external/zlib/inflate.c:810-815 | a pass of DICTID: what the stream means to the reference decoder is the same after it, and if it stops for input there is not enough of it |
| InflateState.DoCheck | external/zlib/inflate.c:1183-1207 | a pass of CHECK, Adler-32 or CRC-32 of all output: what the stream means to the reference decoder is the same after it, and if it stops for input there is not enough of it |
| InflateState.DoLength | external/zlib/inflate.c:1208-1221 | a pass of LENGTH: what the stream means to the reference decoder is the same after it, and if it stops for input there is not enough of it |
| FormatLaws.ZlibTrailer | external/zlib/inflate.c:1183-1207 | after a zlib stream the decoder accepts exactly the Adler-32 of the output, high byte first |
| FormatLaws.GzipTrailer | external/zlib/inflate.c:1183-1221 | after a gzip stream it accepts exactly the CRC-32 of the output and its length modulo 2^32, low byte first |
| FormatLaws.FlagLaw | external/zlib/inflate.c:671-690 | the method of a gzip stream is 8; bits 0 to 4 of the flag byte are FTEXT, FHCRC, FEXTRA, FNAME and FCOMMENT, and any above is an error |
| FormatLaws.ZlibHeaderLaw | external/zlib/inflate.c:622-670 | a zlib header is accepted just if the method is 8, the window no larger than 32K and than the one asked for, and the two bytes a multiple of 31; bit 5 of the second calls for a dictionary |
| FormatLaws.WrapLaw | external/zlib/inflate.h:86-87 | bit 0 of wrap allows zlib, bit 1 gzip, and bit 2 has check values verified |
| FormatLaws.AdlerLaw | external/zlib/adler32.c:10-12 | both sums of Adler-32 are taken modulo 65521 |
| InflateBlocks.DoType | external/zlib/inflate.c:824-862 | a pass of TYPE and TYPEDO keeps what the stream means, with the same conditions for errors as the reference decoder, and resumes anywhere |
| InflateBlocks.DoStored | external/zlib/inflate.c:863-877 | a pass of STORED keeps what the stream means, with the same conditions for errors as the reference decoder, and resumes anywhere |
| InflateBlocks.DoCopy | external/zlib/inflate.c:878-897 | a pass of COPY_ and COPY keeps what the stream means, with the same conditions for errors as the reference decoder, and resumes anywhere |
| InflateBlocks.DoTable | external/zlib/inflate.c:898-916 | a pass of TABLE keeps what the stream means, with the same conditions for errors as the reference decoder, and resumes anywhere |
| InflateBlocks.DoLenLens | external/zlib/inflate.c:917-938 | a pass of LENLENS, building the table of the code length code keeps what the stream means, with the same conditions for errors as the reference decoder, and resumes anywhere |
| InflateBlocks.DoCodeLens | external/zlib/inflate.c:939-1022 | a pass of CODELENS, building the two tables of the block keeps what the stream means, with the same conditions for errors as the reference decoder, and resumes anywhere |
| Findings.ReadAsZeros | external/zlib/inflate.c:939-949 | with a code length code that has no codes every bit is read as a length of zero, and then the block is refused |
| Findings.EmptyCodeRefused | external/zlib/inflate.c:917-1001 | so a block with such a code is refused as soon as there is a bit for each of its lengths |
| InflateCodes.DoLen | external/zlib/inflate.c:1026-1075 | a pass of LEN keeps what the stream means |
| InflateCodes.DoLenExt | external/zlib/inflate.c:1076-1086 | a pass of LENEXT keeps what the stream means |
| InflateCodes.DoDist | external/zlib/inflate.c:1087-1114 | a pass of DIST keeps what the stream means |
| InflateCodes.DoDistExt | external/zlib/inflate.c:1115-1131 | a pass of DISTEXT keeps what the stream means |
| InflateCodes.DoMatch | external/zlib/inflate.c:1132-1176 | a pass of MATCH keeps what the stream means |
| InflateCodes.DoLit | external/zlib/inflate.c:1177-1182 | a pass of LIT keeps what the stream means |
| InflateMatch.StepMatch | external/zlib/inflate.c:1132-1176 | a distance is good just if it is within the output of this call and the window; what is copied, from either, extends the whole history as the overlapping copy of RFC 1951 does |
| InflateLoop.Step | external/zlib/inflate.c:621-1234 | one pass of the switch in any mode, inflate_fast or not, keeps the invariant and what the stream means |
| InflateLoop.Run | external/zlib/inflate.c:621-1234 | the loop ends, and leaves a state that means the same; the moments it went through are a run of the machine, each step as the mode says |
| InflateLoop.StopsAtBoundary | external/zlib/inflate.c:824-850 | with Z_BLOCK the loop stops at every boundary between blocks, and with Z_TREES also after the header of each block: no run of the machine passes one |
| Inflate.Stream.Leave | external/zlib/inflate.c:1242-1264 | the window, the totals and the check value take in the output, and the stream at rest means what it meant when the loop stopped |
| Inflate.Stream.Inflate | external/zlib/inflate.c:590-1264 | a call keeps the invariant; Z_STREAM_END, Z_DATA_ERROR and Z_NEED_DICT come just with their modes, and Z_BUF_ERROR just if there is none of these and the flush is Z_FINISH or the call has used no input and made no output; Z_OK and Z_BUF_ERROR come only with the input used up and not enough, the output full, or a pause asked for |
| Window.UpdateWindow | external/zlib/inflate.c:368-412 | for output of any length the circular window has the last bytes of the whole history |
| Window.GetDictionary | external/zlib/inflate.c:1278-1296 | the dictionary is the end of the history, oldest byte first |
| Rfc1951Facts.BlocksExtends | external/zlib/inflate.c:824-1182 | what a stream decodes to always begins with what has been decoded of it |
| InflateFast.FastStep | external/zlib/inffast.c:100-287 | one literal or match, decoded without looking whether there is input or room, is what the careful decoder makes of it |
| InflateFast.GiveBack | external/zlib/inffast.c:289-293 | the bytes given back were taken in this call, also if it began with more than eight bits held, and the stream is unchanged |
| FastEntry.HeldInLen | external/zlib/inffast.c:23-31 | at rest in LEN eight bits or more are held if and only if the last call ended within a code with so many of its bits read |
| FastEntry.FastEntries | external/zlib/inffast.c:23-31 | in every run of a call, inflate_fast is entered with eight bits or more if and only if that is its first step and the call before ended in the middle of a code |
| FastEntry.EightHeld | external/zlib/inffast.c:23-31 | a stream of seven bytes, after which any second call with six bytes and room for 258 enters inflate_fast with eight bits |
| Sync.Search | external/zlib/inflate.c:1355-1373 | have is the length of the longest end of all bytes seen that begins the pattern; the search stops right after the pattern |
| Sync.Resync.InflateSync | external/zlib/inflate.c:1375-1421 | Z_OK just after the first pattern, with the check turned off and the registers empty, as the state set up for blocks has them; Z_DATA_ERROR if there is none so far, the search going on in the next call |
| Sync.WholeBytes | external/zlib/inflate.c:1387-1400 | the bytes drawn from the accumulator are the bits held from the next byte boundary on |
| Sync.RestartedSound | external/zlib/inflate.c:1408-1420 | the state set up is one of inflate, which then reads blocks from after the pattern, without history |
| InflateBack.Ring.Room | external/zlib/infback.c:202-213 | a full window goes out whole and in order |
| InflateBack.Ring.Reaches | external/zlib/infback.c:565-570 | one code at a time, a distance is good just if it is within all output and within the window |
| InflateBack.Ring.CopyString | external/zlib/infback.c:573-591 | a string copied in pieces, from both sides of the end of the window, the window being written out between them, is the one copied byte by byte |
| InflateBack.Ring.Enter | external/zlib/infback.c:472-475 | before the window has been full, whave becomes the output at the call of inflate_fast; nothing else changes |
| InflateBack.Ring.FastString | external/zlib/inffast.c:166-270 | in inflate_fast a distance is taken just if it is at most the output in the window and whave together; the string, from the end of the window and then from the output, is the one copied byte by byte round the window |
| InflateBack.FastCodes | external/zlib/inffast.c:97-304 | inflate_fast decodes code by code what is left of the block, with the bytes fetched that it fetches, and gives back whole bytes; it stops where fewer than six bytes are left of the piece, or room for less than 258 |
| InflateBack.SomeCodes | external/zlib/infback.c:469-591 | inflate_fast is called just if six bytes are in hand, without a call of in(), and there is room for 258; otherwise one code is decoded |
| InflateBack.AllBlocks | external/zlib/infback.c:277-619 | all blocks come to what BackSpec.Stream says, or out() has failed after a beginning of it; a byte that was asked of in() is not read only at the end of the input or when out() fails in a stored block |
| BackSpec.CopiedOk | external/zlib/infback.c:573-591 | the window always holds the end of the output; for a distance within both, copying round the window is the overlapping copy of RFC 1951 |
| BackSpec.RunFaithful | external/zlib/infback.c:469-591 | for the codes of one block: what the RFC 1951 decoder makes of them, just if none of them strays |
| BackSpec.RegularFaithful | external/zlib/infback.c:242-619 | a stream that is whole, or the beginning of one, is decoded as the format says, however it is divided |
| BackSpec.EarlyStrays | external/zlib/inffast.c:166-170 | before the window has been full: a block that begins with a distance greater than the output, by no more than that again, is not refused when inflate_fast is called for it |
| BackSpec.LaterStrays | external/zlib/inffast.c:166-170 | later, in a window below 32K: neither is a distance greater than the window, by no more than the output in it; what is copied then is the byte that is nearer by the size of the window |
| BackSpec.AstrayAlike | external/zlib/infback.c:470-475 | whether anything goes astray depends on the stream, its division and the size of the window, not on what the window held |
| BackFindings.InOnePiece | external/zlib/infback.c:470-475 | a stream of thirteen bytes with a distance of two after one byte of output: in one piece, with any window from 259 bytes on, it is accepted, and two of the four bytes written are what the window held at its end |
| BackFindings.InSmallPieces | external/zlib/infback.c:565-570 | in pieces of less than six bytes it is refused after its first byte |
| BackFindings.FormatRefuses | external/zlib/infback.c:565-570 | which is what the format says |
| Readings.CodesReading | external/zlib/infback.c:480-563 | the RFC 1951 decoder goes by the literal, string or end that its bits begin with |
| Openings.DynamicOpens | external/zlib/infback.c:345-467 | and by the two codes that a dynamic header gives |
| BackInput.InHand | external/zlib/infback.c:150-168 | what is left of the piece in hand and the pieces not asked for are all unread input; every piece asked for had a byte that was wanted; if the last call gave nothing, it is counted, next_in is null and all input was read |
| DeflateWindow.InsertString | external/zlib/deflate.c:155-165 | the string becomes the newest of its hash; the head returned is the newest one inserted before it with that hash, or none |
| DeflateHash.HashIs | external/zlib/deflate.c:136-141 | the rolling hash of a string is that of its three bytes, each shifted by a third of the bits beyond the next, cut to the mask |
| DeflateChains.NewestIs | external/zlib/deflate.c:143-165 | what a head or a link holds: the newest string inserted before with that hash, none being passed over |
| DeflateWindow.SlideTable | external/zlib/deflate.c:187-209 | every position moves down by the window size, positions that leave the window become nil |
| DeflateWindow.Slide | external/zlib/deflate.c:274-287 | sliding window, tables and positions together keeps the invariant of the matcher |
| DeflateWindow.ReadInput | external/zlib/deflate.c:218-239 | as much input as fits is taken and follows the data in the window, and adler and total_in are those of all data read |
| DeflateWindow.Rehash | external/zlib/deflate.c:306-325 | just those strings at the end of the last input that have three bytes now get into their chains, and insert counts the rest |
| DeflateWindow.FillOnce | external/zlib/deflate.c:255-326 | one round: the window slides just if strstart is within MAX_DIST of its end; then what fits is read, and strings left over are inserted |
| DeflateWindow.FillWindow | external/zlib/deflate.c:251-368 | after it there are MIN_LOOKAHEAD bytes or the input is used up, a search stays in the window, the sums are those of the data, and the invariant holds |
| DeflateMatch.CompareOn | external/zlib/deflate.c:1455-1469 | eight comparisons at a time give the length of the common part, up to 258 |
| DeflateMatch.TryString | external/zlib/deflate.c:1441-1469 | a string is passed over only if it matches no longer than the best one |
| DeflateMatch.VisitedAre | external/zlib/deflate.c:1483-1484 | counted by links, the strings looked at are the first max_chain of the chain that lie above the limit, all of them and no more |
| DeflateMatch.Reached | external/zlib/deflate.c:1483-1484 | a string that fewer than max_chain links lead to, all going down and staying above the limit, is looked at; and never more than max_chain are |
| DeflateMatch.LongestInReach | external/zlib/deflate.c:1348-1489 | no such string agrees for longer than the length found, unless that is nice_match or more |
| DeflateMatch.BestIs | external/zlib/deflate.c:1470-1489 | which of them is found: the first of the longest, or the first of nice_match or more, and nothing just if none is longer than the previous match |
| DeflateMatch.BeyondLookahead | external/zlib/deflate.c:1395-1404 | bytes of the window beyond the lookahead, which may never have been written, change neither the length found, cut to the lookahead, nor the place where there is a longer match |
| Deflate.FindMatch | external/zlib/deflate.c:1348-1489 | a match found agrees with the data, is within the lookahead and within MAX_DIST |
| Deflate.EmitPrevious | external/zlib/deflate.c:1964-1990 | the previous match becomes a token and its strings get into their chains |
| Deflate.SlowSearch | external/zlib/deflate.c:1937-1963 | a match is better than the previous one only if it agrees with the data, also after the window has slid |
| Deflate.ShortMatches | external/zlib/deflate.c:1950-1962 | with Z_FILTERED a match is taken from six bytes on, and one of three bytes just if it is at most 4096 back |
| Deflate.FarthestBack | external/zlib/deflate.h:290-295 | a match reaches back 262 bytes less than the window |
| Tokens.CopyReproduces | external/zlib/deflate.c:1557-1580 | a match that repeats the data reproduces it when copied, overlapping or not |
| Compressor.FlushPending | external/zlib/deflate.c:915-933 | as many bytes are delivered as there is room for; no bit is lost |
| Compressor.WriteBlock | external/zlib/deflate.c:1589-1598 | the block written decodes to the data of its tokens after all before, and also after what was written since the last full flush alone; it fits into pending_buf |
| Compressor.Deflater.Step | external/zlib/deflate.c:1811-2030 | a step is taken only with MIN_LOOKAHEAD bytes or, in a flush, at the end of the input; it is a step of the function that the level selects, and a block is written just if the symbol buffer is full |
| Compressor.Deflater.Run | external/zlib/deflate.c:1811-2030 | need_more, block_done, finish_started and finish_done come just with what they stand for: all data in tokens and blocks, or no room left; asked to finish it gets nearer to the end |
| Compressor.Deflater.Mark | external/zlib/deflate.c:1203-1225 | what follows the last block of a flush: nothing for Z_BLOCK, an empty block of ten bits with the fixed codes for Z_PARTIAL_FLUSH, an empty stored block for the others; with room left the flush has done what zlib.h says; after a full flush nothing before it is matched |
| Compressor.FlushThrough | external/zlib/zlib.h:286-318 | after a sync or full flush the bytes delivered decode to all data; after a partial flush so do those of their bits that come before the empty block; after Z_BLOCK they do with at most seven bits that are held |
| Compressor.Deflater.Forget | external/zlib/deflate.c:1211-1218 | with the hash cleared and the window empty, what is written from here on decodes by itself to the data from here on |
| Compressor.Deflater.AllSince | external/zlib/zlib.h:313-317 | at the end of the stream the bytes since the last full flush are a whole stream for the data since then |
| Compressor.RankOrder | external/zlib/deflate.c:132-133 | the flushes in order of what they do: none, Z_BLOCK, partial, sync, full, finish |
| Compressor.SyncMark | external/zlib/deflate.c:1206-1210 | the empty stored block, with its filler bits and 00 00 ff ff, adds no data to anything before it and ends at a byte |
| Compressor.AlignMark | external/zlib/trees.c:886-893 | the empty fixed block of ten bits adds no data to anything before it |
| Compressor.Deflater.Opening | external/zlib/deflate.c:996-1173 | while the header, of whatever kind, is not out, nothing else is delivered, and the rest starts in the call that completes it, even without room |
| Compressor.Deflater.Body | external/zlib/deflate.c:946-1226 | the same for the blocks alone: a whole raw stream is delivered before the trailer is written |
| Compressor.Deflater.UpToTrailer | external/zlib/deflate.c:946-1226 | header and blocks come in this order, and nothing of the trailer |
| InputSums.CountedMore | external/zlib/deflate.c:229-237 | the check value taken on by each piece of input is that of all of it, and so is the length modulo 2^32; which check value that is TailIs says |
| DeflateWrap.TailIs | external/zlib/deflate.c:1231-1249 | the trailer made of adler and total_in is the Adler-32 of all data, high byte first, for zlib, and its CRC-32 and length, low byte first, for gzip |
| DeflateWrap.Again | external/zlib/deflate.c:946-991 | after the trailer is written a call delivers what is pending of it, and refuses more input and other flushes |
| Compressor.DeflateInCalls | external/zlib/deflate.c:946-1255 | any orderly calls: all data is kept, and the stream is whole unless the room for finishing was used up |
| DeflateStored.PatchedHead | external/zlib/deflate.c:1667-1680 | the dummy header with the true length put in is the header of a stored block of that length |
| DeflateStored.DirectBlock | external/zlib/deflate.c:1667-1708 | a block copied to the output decodes to its bytes after all before, and after what came since the last full flush alone |
| DeflateStored.KeepCopied | external/zlib/deflate.c:1711-1743 | after direct copies the window has the end of all data |
| DeflateStored.Storer.Direct | external/zlib/deflate.c:1640-1709 | blocks go from window and input in order; when flushing what is left does not fit the room |
| DeflateStored.Storer.Refill | external/zlib/deflate.c:1756-1775 | the window takes input without losing what is not written |
| DeflateStored.PendingFits | external/zlib/deflate.c:1779-1798 | the block put into pending_buf fits there, and when flushing with little room there always is one |
| DeflateStored.DirectIs | external/zlib/deflate.c:1645-1668 | a block goes out directly just if it is the longest that has room with its header and is worth while: not too short, unless it is all there is and a flush asks for it |
| DeflateStored.PendingIs | external/zlib/deflate.c:1779-1792 | a block goes to pending_buf just if it is the longest that has room there, and the window holds enough, or all there is when flushing |
| DeflateStored.Storer.Pending | external/zlib/deflate.c:1779-1798 | the block continues the stream, and finishing gets nearer to the end |
| DeflateStored.Storer.Run | external/zlib/deflate.c:1627-1802 | the states returned come just with what they stand for, and the data fed is the data written and the data held |
| DeflateStored.Storer.Mark | external/zlib/deflate.c:1203-1225 | as for the other levels, and the window is empty after a full flush |
| DeflateStored.Storer.Deflate | external/zlib/deflate.c:946-1255 | deflate at level 0, header and trailer included, meets the contract of the other levels: errors if and only if, all input taken unless the room is used up, what each flush promises, and a stream by itself after a full flush |
| DeflateStored.StoreInCalls | external/zlib/deflate.c:1627-1802 | any orderly calls: all data is kept, and the stream is whole unless the room for finishing was used up |
| BitWriter.PutShort | external/zlib/trees.c:144-147 | two bytes, low one first, add the sixteen bits |
| BitWriter.SendBits | external/zlib/trees.c:252-285 | the bits follow all written before, across the 16-bit buffer |
| BitWriter.Flush | external/zlib/trees.c:166-176 | no bit is lost and at most seven stay in the buffer |
| BitWriter.Windup | external/zlib/trees.c:181-192 | fewer than eight bits are added, up to a byte boundary |
| Trees.BiReverse | external/zlib/trees.c:154-161 | the low bits of the code in reverse order |
| Trees.GenCodes | external/zlib/trees.c:202-231 | the codes are the canonical ones that inflate_table assigns to the lengths, bit-reversed |
| Trees.MakeLengthCodes | external/zlib/trees.c:316-329 | every match length has the code and base of section 3.2.5 of RFC 1951, 258 its own |
| Trees.MakeDistCodes | external/zlib/trees.c:331-347 | every distance up to 32768 has its code and base, by the two halves of the table |
| StaticTrees.StaticLengths | external/zlib/trees.c:349-360 | the lengths and codes are the fixed literal/length code |
| StaticTrees.StaticDists | external/zlib/trees.c:362-366 | the codes are the fixed distance code |
| BlockWriter.StaticInit | external/zlib/trees.c:294-373 | all tables and static trees together are right |
| HuffmanHeap.PqDownHeap | external/zlib/trees.c:507-526 | the heap order is restored below k, and the nodes are the same |
| HuffmanTree.PqRemove | external/zlib/trees.c:486-491 | the node that leaves is the least of all, by frequency and then depth |
| HuffmanTree.MergeOne | external/zlib/trees.c:671-693 | the two least nodes get a father with the 16-bit sum of their frequencies and a depth one more than the deeper of them |
| HuffmanTree.ForceTwo | external/zlib/trees.c:648-659 | at least two symbols have a frequency; the cost of those added is taken off again |
| HuffmanTree.MergeAll | external/zlib/trees.c:667-695 | one tree is left, made by a greedy history of merges |
| HuffmanTree.BuildNodes | external/zlib/trees.c:633-695 | the list of nodes, parents before children, is that of a full binary tree over the symbols that occur |
| HuffmanTree.ListFalls | external/zlib/trees.c:667-693 | nodes are listed from the heaviest to the lightest |
| Optimal.NoCheaper | external/zlib/trees.c:617-624 | no code over the nodes of a greedy history is cheaper than its fathers weigh together, and none as cheap is of less height |
| Optimal.TreePrice | external/zlib/trees.c:617-624 | with the depths as lengths the price is just what the fathers weigh |
| BuildTree.LeastCode | external/zlib/trees.c:617-624 | so the depths in the tree cost no more than any other prefix code, extra bits included |
| Shallow.Heavy | external/zlib/trees.c:552-574 | a node of height h made by greedy merges weighs at least the h-th Fibonacci number |
| Shallow.TreeCode | external/zlib/trees.c:552-574 | the depths of a greedy tree are a prefix code no longer than the tree is high |
| BuildTree.AttainedHeight | external/zlib/trees.c:552-574 | if some code of at most max_length bits is as cheap as any, the tree that is built is no higher |
| BuildTree.FewLow | external/zlib/trees.c:552-574 | with a sum of frequencies below the Fibonacci number no leaf lies too deep |
| LengthLimit.NotAttainable | external/zlib/trees.c:578-591 | nine frequencies of code lengths for which no code of at most seven bits is as cheap as the best |
| LengthLimit.NotLeast | external/zlib/trees.c:578-591 | build_tree given them makes a code that is not the cheapest prefix code |
| BitLengths.FirstPass | external/zlib/trees.c:552-574 | lengths are the depths in the tree, cut to max_length; overflow counts those cut and is zero if and only if no leaf lies deeper; the cost is that of the lengths |
| BitLengths.Repair | external/zlib/trees.c:580-591 | one after the other, a leaf that is too deep goes where the longest that can give way was; this ends with no overflow and a Kraft sum of one, the number of codes being the same |
| BitLengths.SecondPass | external/zlib/trees.c:593-610 | the lengths are given out so that each is used bl_count times and none is shorter than one listed before it, and opt_len follows every change |
| BuildTree.GenBitlen | external/zlib/trees.c:538-611 | for every tree: lengths of at most max_length with a Kraft sum of one; the depths if no leaf lies deeper than that, and else the longer the later a leaf is listed |
| BuildTree.LeastOrdered | external/zlib/trees.c:617-624 | in a code that no other beats, no symbol has a longer code than one that occurs less often |
| BuildTree.GivenOrdered | external/zlib/trees.c:593-610 | neither when lengths were given out again |
| SendTrees.ScanTree | external/zlib/trees.c:710-745 | the frequencies grow by the symbols of the packed lengths |
| SendTrees.SendTree | external/zlib/trees.c:751-792 | the bits sent are those of the packed lengths, repeats with their extra bits |
| RunLengths.PackedUnpacks | external/zlib/trees.c:751-792 | unpacking as inflate does gives the lengths back, whatever came before |
| RunLengths.ZerosPacked | external/zlib/trees.c:751-792 | a run of zeros: up to two as they are, up to ten by 17, and up to 138 at a time by 18 |
| RunLengths.OthersPacked | external/zlib/trees.c:751-792 | a run of another length: once, and then up to six at a time by 16, fewer than three as they are |
| SendTrees.SendAllTrees | external/zlib/trees.c:831-853 | the header of a dynamic block is sent: counts, the lengths of the code length code in the order that FormatLaws.PlacedLaw states, and the packed lengths |
| DynamicSpec.TreesDecode | external/zlib/trees.c:831-853 | the decoder reads from that header the very codes that it was made from |
| FormatLaws.PlacedLaw | external/zlib/inflate.c:607-608 | the lengths of the code length code come for 16, 17, 18, 0 and then outwards from 8: 8, 7, 9, 6, up to 1 and 15 |
| FormatLaws.PlacedShort | external/zlib/inflate.c:918-924 | those not sent are zero |
| FormatLaws.RepeatLaw | external/zlib/inflate.c:950-976 | 16 repeats a length 3 to 6 times, 17 zero 3 to 10 times, and 18 zero 11 to 138 times |
| FormatLaws.LengthLaw | external/zlib/inftrees.c:55-60 | length codes begin at 3, leave nothing out and have an extra bit more for every four; 258 has a code of its own |
| FormatLaws.DistanceLaw | external/zlib/inftrees.c:61-68 | distance codes begin at 1, leave nothing out up to 32768 and have an extra bit more for every two |
| FormatLaws.FixedLaw | external/zlib/inflate.c:263-280 | the fixed code of each of the 288 symbols is the one that section 3.2.6 of RFC 1951 lists |
| FormatLaws.BlockTypes | external/zlib/inflate.c:833-862 | the two bits after the first tell the type of a block, and there is no fourth |
| FormatLaws.StoredLengths | external/zlib/inflate.c:863-870 | a stored block is accepted just if its two length words are complements |
| FormatLaws.CountLimits | external/zlib/inflate.c:898-911 | more than 286 literal/length or 30 distance codes are an error |
| FormatLaws.RepeatErrors | external/zlib/inflate.c:950-981 | so is a length repeated before there is one, or beyond the last |
| FormatLaws.TableErrors | external/zlib/inflate.c:990-1019 | and a block without a code for its end, or with a code that cannot be used |
| FormatLaws.RefusedLaw | external/zlib/inftrees.c:125-133 | a code cannot be used just if it is neither complete, nor empty, nor, but for code lengths, one symbol of one bit |
| FormatLaws.SymbolErrors | external/zlib/inflate.c:1064-1143 | symbols 286 and 287, distance codes 30 and 31, and distances before the beginning of the output are errors |
| KnownStreams.StoredStream | external/zlib/inflate.c:847-895 | the eight bytes 01 03 00 fc ff 61 62 63 are a stored block of abc |
| KnownStreams.FixedStream | external/zlib/inflate.c:997-1176 | nine bytes of a block with the fixed codes, literals, a length and a distance with extra bits, decode to the text they were made from |
| KnownStreams.DynamicStream | external/zlib/inflate.c:896-1176 | so do twenty bytes of a dynamic block that uses 16, 17 and 18, a code of its own for each alphabet, and a string |
| KnownWrappers.ZlibStream | external/zlib/inflate.c:621-1234 | 78 9c, the block for the byte a, and 00 62 00 62 are a zlib stream of it |
| KnownWrappers.GzipStream | external/zlib/inflate.c:621-1234 | 32 bytes of a gzip stream with all header fields and a header CRC are read as what each byte says, the CRC-32 of the byte a being e8b7be43 |
| DynamicSpec.DynamicContinues | external/zlib/trees.c:831-853 | a dynamic block adds the data of its tokens to all decoded before |
| Trees.CompressBlock | external/zlib/trees.c:898-949 | the bits written are the codes and extra bits of the tokens and the end of the block |
| Encoding.TokensDecode | external/zlib/trees.c:898-949 | under any two prefix codes these bits decode to what the tokens stand for |
| Encoding.CodedDecodes | external/zlib/trees.c:898-949 | and with the end of the block the decoder goes on to the next block |
| BlockWriter.Tally | external/zlib/trees.c:1093-1117 | the frequencies are those of the symbols of the tokens |
| BlockWriter.BuildBlTree | external/zlib/trees.c:798-824 | the code length code has a code for all it has to send, and no more of its lengths are sent than it takes; opt_len grows by the bits of the whole header |
| BlockWriter.BuildTrees | external/zlib/trees.c:1007-1022 | opt_len and static_len are the bits that the block takes in either form; if the limits on the lengths are no hindrance, and always with fewer than 2583 tokens, the own codes take no more than the fixed ones |
| BlockCost.TokensCost | external/zlib/trees.c:538-611 | frequencies times lengths and extra bits make the number of bits of the tokens |
| BlockCost.PackedCost | external/zlib/trees.c:798-824 | the same for the packed code lengths |
| BlockCost.TreesLength | external/zlib/trees.c:818-819 | 3 (max_blindex + 1) + 5 + 5 + 4 and the packed lengths make the number of bits of the header |
| BlockCost.NoLonger | external/zlib/trees.c:1024-1035 | a least code costs no more than the fixed code |
| BlockCost.FixedLength | external/zlib/deflate.c:457-481 | with the fixed codes a symbol takes at most 31 bits |
| BlockCost.NotOverwritten | external/zlib/deflate.c:457-481 | with the fixed codes the bytes pending end at least 132 bits before the symbol that is read next from the overlaid sym_buf |
| Overlay.NotOverwrittenByOwn | external/zlib/deflate.c:485-494 | a block for which dynamic codes are chosen does not overwrite a symbol that is still to be read either, at any of its symbols, with lit_bufsize from 3064 on (memLevel 6), if its codes are as good as any prefix code |
| Overlay.EarlyTokens | external/zlib/deflate.c:485-494 | the first tokens of such a block, any number of them, take at most two bits more for each token of the block, and one more, than with the fixed codes |
| Overlay.HeaderLength | external/zlib/trees.c:831-853 | the code lengths of a dynamic block take at most 2283 bits |
| BlockWriter.ChoiceIsGood | external/zlib/trees.c:1024-1063 | no other form would be more than 10 bits shorter, and none by a byte unless the block is stored; and exactly when a stored block is longer than a coded one |
| Findings.StoredLonger | external/zlib/trees.c:1024-1063 | a block of fifteen literals that is stored in 155 bits where the fixed codes take 145 |
| BlockWriter.StoredHead | external/zlib/trees.c:858-863 | header bits, padding to a byte, length and complement |
| BlockWriter.StoredBlock | external/zlib/trees.c:858-873 | the bits written are header, filler, length, complement and the bytes |
| BlockWriter.StoresAdd | external/zlib/trees.c:858-873 | they add the bytes to whatever was sent before |
| BlockWriter.StaticBlock | external/zlib/trees.c:1056-1059 | the bits written are those of the tokens with the fixed codes, static_len of them |
| BlockWriter.StaticAdds | external/zlib/trees.c:1056-1059 | they add the data of the tokens to whatever was sent before |
| BlockWriter.DynamicBlock | external/zlib/trees.c:1063-1068 | the bits written are the trees and the tokens with the codes of the block, opt_len of them |
| BlockWriter.DynamicAdds | external/zlib/trees.c:1063-1068 | they add the data of the tokens to whatever was sent before |
| BlockWriter.FlushBlock | external/zlib/trees.c:995-1087 | whichever form is chosen the block takes the bits reckoned, and adds the data of its tokens to anything that was sent before and decodes to what they follow; the last one ends the stream at a byte; pending_buf is never overrun |
| GzipWriter.Writer.Header | external/zlib/deflate.c:996-1173 | a call is left in the header only when there is no more room, and otherwise the header is out; what was delivered is a beginning of it |
| GzipWriter.HeaderInCalls | external/zlib/deflate.c:996-1173 | the header does not depend on the rooms it was written in, its CRC included |
| GzipWriter.WholeHeader | external/zlib/deflate.c:996-1173 | calling on, with whatever room, all of it comes out |
| GzipSpec.ZlibDecodes | external/zlib/deflate.c:996-1029 | a zlib header, blocks and Adler-32 are read back, and nothing after them is touched |
| GzipSpec.GzipDecodes | external/zlib/deflate.c:1031-1173 | a gzip header, blocks, CRC and length are read back with the header, and nothing after them is touched |
| GzipSpec.AllReceived | external/zlib/inflate.c:671-809 | a reader with room gets back each field as it was given |
| Adler.NmaxLargest | external/zlib/adler32.c:10-12 | NMAX is exactly the greatest number of bytes for which the sums fit 32 bits |
| Adler.Accumulate | external/zlib/adler32.c:14-18 | sixteen bytes at a time and then singly, the sums without a modulo |
| Adler.ManyBytes | external/zlib/adler32.c:96-124 | reducing once in NMAX bytes gives what reducing at every byte gives |
| Adler.Adler32Z | external/zlib/adler32.c:61-125 | for any start the result is the Adler-32 of RFC 1950 if and only if, with no byte, the start is reduced, and with one byte the second sum needs one subtraction at most; longer data always gives it; 1 for no buffer |
| Adler.ReducedExact | external/zlib/adler32.c:61-125 | it always is for a start that is itself a checksum |
| Adler.NotExact | external/zlib/adler32.c:69-155 | starts and lengths for which neither adler32_z nor adler32_combine_ gives it, the latter with the checksum of 257 bytes that sum to 65519 |
| Adler.Adler32Combine | external/zlib/adler32.c:133-155 | the checksum of two pieces is that of the whole if and only if the sums are small enough for the few subtractions made; 0xffffffff for a negative length |
| Adler.ReducedCombines | external/zlib/adler32.c:133-155 | they are enough for checksums |
| AdlerSpec.AdlerConcat | external/zlib/adler32.c:61-125 | checksums may be computed piece by piece |
| Crc32.MakeCrcTable | external/zlib/crc32.c:314-323 | each entry is its byte times x^8 modulo p(x) |
| Crc32.CrcBytes | external/zlib/crc32.c:991-1006 | a lookup a byte makes the shift register of the bytes |
| Crc32.CrcWord | external/zlib/crc32.c:676-681 | lookups for the bytes of a word carry it past all its bits, for words of four or eight bytes |
| Crc32.Multmodp | external/zlib/crc32.c:155-170 | the product of polynomials modulo p(x) |
| CrcMul.MulComm | external/zlib/crc32.c:155-170 | that product is commutative |
| Crc32.MakeX2nTable | external/zlib/crc32.c:325-329 | repeated squaring gives x^(2^n) modulo p(x) |
| Crc32.X2nmodp | external/zlib/crc32.c:176-187 | x^(n 2^k) modulo p(x), for any n and k, from 32 entries used cyclically |
| Crc32.Crc32Combine | external/zlib/crc32.c:1021-1026 | for any pieces the CRC of both together; the length may not be negative, as zlib.h says |
| CrcDivision.CrcIsRemainder | external/zlib/crc32.c:142-149 | a CRC, complemented, is the only remainder of degree below 32 of the message, as a polynomial, on division by p(x) |
| CrcBraid.Braid | external/zlib/crc32.c:528-540 | the little-endian tables carry each byte of a word past all words of the other braids; the big-endian ones are these back to front with bytes swapped |
| CrcBraid.BraidWord | external/zlib/crc32.c:801-834 | lookups for the bytes of a word of one braid carry it to its next word |
| CrcBraid.TakeBlock | external/zlib/crc32.c:779-835 | a block carries every braid on by one word |
| CrcBraid.LastBlock | external/zlib/crc32.c:837-857 | folding the braids while taking the last block gives the register of all words in order |
| CrcBraid.TakeBlocks | external/zlib/crc32.c:775-857 | for any number of blocks and braids, taking words in braids is taking them one after another |
| CrcBig.SwapByte | external/zlib/crc32.c:113-131 | the bytes of a swapped word are those of the word the other way round |
| CrcBig.SwapTwice | external/zlib/crc32.c:113-131 | swapping twice changes nothing |
| CrcBig.CrcWordBig | external/zlib/crc32.c:683-689 | on a swapped word, shifting the other way, what crc_word computes, swapped |
| CrcBig.BraidWordBig | external/zlib/crc32.c:918-956 | lookups from the other end of a swapped word give what the little-endian ones give, swapped |
| CrcBig.LastBlockBig | external/zlib/crc32.c:959-980 | the last block folds all braids together, swapped |
| CrcBig.TakeBlocksBig | external/zlib/crc32.c:859-987 | the big-endian half gives the same register as the other |
| CrcBig.MakeTables | external/zlib/crc32.c:314-334 | make_crc_table builds all the tables that crc32_z is proved for, for words of either size and any number of braids |
| Once.NoDeadlock | external/zlib/crc32.c:236-246 | while a thread has not returned some thread has a step that brings the end nearer |
| OnceRace.OnceUnlessRaced | external/zlib/crc32.c:259-278 | init has run before any thread returns, and more than once only after such a race |
| OnceRace.TwoInStep | external/zlib/crc32.c:259-278 | a run of two threads in which init runs twice |
| OnceRace.FirstAlone | external/zlib/crc32.c:259-278 | if one call has returned before any other begins, init runs exactly once |

## Findings

Places where the code does not do what a comment or the format says, each with the exact condition.

- `inflate_fast` documents that fewer than 8 bits are held on entry (inffast.c:23-31).  `FastEntry.FastEntries` says
  exactly when there are more: at the first step of a call, if the call before ended in the middle of a code with at
  least eight of its bits read (`FastEntry.HeldInLen`).  `FastEntry.EightHeld` has such a stream.  The bytes given back
  at the end are still bytes of this call (`InflateFast.GiveBack`), because the first code uses more bits than were
  held.
- Without atomics, `once()` may run `init` more than once (the comment at crc32.c:257-258 admits that its test-and-set
  is not atomic).  `OnceRace.TwiceIff` says exactly when, `OnceRace.TwoInStep` has such a run, and
  `OnceRace.FirstAlone` is what a caller can see to.
- `adler32_z` and `adler32_combine_` do not always give the Adler-32 from starts that are not checksums, with sums of
  65521 or more: `Adler.NotExact` has cases of both, `Adler.Adler32Z` and `Adler.Adler32Combine` the exact conditions.
- `inflate` with a window smaller than 32K accepts a distance beyond the window if it is within the output of the same
  call.  So the output depends on how the room was divided: `FarBack.TwoResults` has a stream, and by
  `InflateRuns.TwoWays` it does if and only if some distance reaches beyond the window.  One call decodes as with a
  window of 32K (`InflateRuns.InflateOnce`), and room for a byte at a time makes it an error
  (`InflateRuns.InflateInCalls`).
- `inflateBack` may take a string from where nothing was written.  Before the window has been full it sets `whave` to
  the output so far (infback.c:473-474), and `inflate_fast`, which has the same bytes as output (`start` is the size of
  the window), counts them twice: a distance is taken up to twice the output, and beyond it the bytes that the window
  held before are copied (`BackSpec.EarlyStrays`).  Later, in a window below 32K, the same happens to distances beyond
  the window (`BackSpec.LaterStrays`).  `BackFindings.InOnePiece` has a stream, 4A 04 0C 08 01 and eight zeros, that is
  accepted so; divided into pieces of less than six bytes it is an error (`BackFindings.InSmallPieces`).  By
  `InflateBack.InflateBack` the result is that of the format if and only if this does not happen
  (`BackSpec.StreamFaithful`).  It never does to a stream that is as it should be (`BackSpec.RegularFaithful`), nor with
  pieces of less than six bytes or a window of 256 (`BackSpec.UnhurriedFaithful`).
- `build_tree` makes a code that no prefix code beats if and only if the limit on the lengths allows one as good as any
  (`BuildTree.BuildTree`); `LengthLimit.NotLeast` has frequencies for which it does not.
- `_tr_flush_block` compares sizes in bytes and does not count the padding of a stored block, so a stored block may be
  up to 10 bits longer than the coded one.  `BlockWriter.ChoiceIsGood` says exactly when it is longer, and
  `Findings.StoredLonger` has a block of which all ten are spent.
- With a code length code that has no codes at all, `inflate` reads each bit as the length zero, since CODELENS does
  not look at the operation of a table entry.  The reference decoder follows the code; by `Findings.EmptyCodeRefused`
  such a block is always refused, because it has no end-of-block code.
- The comment on the overlay of `sym_buf` and `pending_buf` says that 139 bits remain between what is written and what
  is read (deflate.c:480-483); up to seven bits left over from the block before make that 132
  (`BlockCost.NotOverwritten`).  For dynamic blocks it argues from the average over the whole block
  (deflate.c:485-494), which says nothing of a part of it.  `Overlay.NotOverwrittenByOwn` has an argument for every part:
  the first tokens cannot take much more than with the fixed codes, or a code made out of both would be better, and
  the last have what the block saves.
- ENOUGH (852 and 592) is said to come from exhaustive search; `Enough.dfy` has a proof.

## Left out

- Overlay.NotOverwrittenByOwn: is not stated for lit_bufsize below 3064 (memLevel 1 to 5), nor if the limit of 15 bits
  keeps the codes from being as good as any; there it is neither proved nor disproved.  That the whole block fits into
  `pending_buf` is proved for all forms and sizes (`BlockWriter.FlushBlock`).
- BuildTree.BuildTree: claims no least cost if the frequencies sum to 65536 or more, when the 16-bit sums may wrap;
  the code is then only shown to be complete, of limited length and without a missing symbol.  A block has fewer symbols.
- Optimal.NoCheaper: compares with all prefix codes, not with the best among those of limited length.
- Sync.RestartedSound: takes from InflateSync only hold, bits, wrap and flags; the other fields are those of a state
  that was reset, and no run of inflate after it is composed with the search before it.
- CrcBig.Crc32Z: the ARM instructions are not modelled.
- DeflateWindow.FillWindow: does not zero the window up to high_water; what is there does not matter
  (`DeflateMatch.BeyondLookahead`).
- DeflateStored.Storer.Run: does not keep s->matches, s->insert and high_water, which matter only for a change of level.
- DeflateMatch.LongestMatch: is the version that compares bytes, neither the one with unaligned words nor the one for
  FASTEST.
- deflate_rle and deflate_huff, which are simpler cases of deflate_fast.
- Preset dictionaries (deflateSetDictionary, inflateSetDictionary); inflate stops for one as it should.
- deflateParams, deflateTune, deflatePrime, inflatePrime, deflateCopy, inflateCopy, inflateUndermine, inflateMark,
  deflateBound.
- The text or binary flag (detect_data_type), total_in and total_out beyond what gzip writes and checks, messages.
- Allocation and its failure; inflateInit and deflateInit with their checks of arguments.
- compress.c, uncompr.c, the gz* functions on files, and contrib/.
