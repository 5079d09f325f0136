# bnkextr-asio: the SoundBank records and the section walk

bnkextr-asio reads Wwise SoundBank (`.bnk`) files using Boost.Asio coroutines.
Its core has two parts:

- the packed on-disk records: `Index`, `Section`, `BankHeader`, `Object` and the event records, together with their byte-code enums;
- the section walk in `extract_file`.

The walk reads an 8-byte section header with `read_structure`. It adds the header's `size` to a 64-bit running `total`, seeks forward over the payload, and repeats until a header read fails.

The project has three modules:

- `Bytes` (bytes.dfy) covers unsigned byte, u32 and u64 values. A u32 field is the little-endian decoding of its four bytes, because the records are filled by copying raw file bytes over them on a little-endian host. `AddU64` is the wrapping `+=` on the uint64 counter.
- `Structs` (structs.dfy) has a datatype for each record and enum, with the codes the enums declare.
  - Each fixed-size record has a decoder from its packed bytes and an encoder back to them. Layout lemmas pin each field to its byte offsets. Each decoder's contract states that encoding its result gives the bytes back. For `Section` and u32 that round trip is a separate lemma, because the section walk decodes a header at every step.
  - Each enum has a partial `FromCode` decoder. It accepts exactly the declared codes and is the inverse of `Code()`.
- `Extract` (extract.dfy) has the rest:
  - the open file as a class `BnkStream`, holding the file's bytes and a mutable cursor;
  - `read_structure` as `ReadStructure`, which copies into an `array<byte>` buffer;
  - the relative seek as `SeekCur`;
  - `extract_file` as the method `ExtractFile`, with its loop.

`ExtractFile` is proved against `WalkFrom`, a pure recursive function that does the same walk over the file's bytes. The method returns exactly `WalkTotal` of that walk and leaves the cursor where the walk's failed read left it. The lemmas then state properties of the walk:

- headers are read back to back, separated only by the payloads they declare;
- every header read lies wholly inside the file;
- no header is read from inside a declared payload;
- every header read advances the cursor by at least 8 bytes;
- the running total is the sum of the sizes modulo 2^64.

A failing read that obtains some bytes copies them over the front of `content_section`; a read at or past the end of the file copies nothing. After the failed read the loop still adds `content_section.size` before it breaks. As a result, when the walk's last seek lands at or past the end of the file, the last header's size is added twice (`CleanEndCountsLastSizeTwice`). A one-section file shows it concretely: a `BKHD` header of size 4 gives a total of 8 (`OneSectionCountedTwice`).

Two further behaviours of the loop are worth stating:

- A header read that obtains 1 to 7 bytes ends the loop the same way a clean end does. `total` then includes whatever that read left in the size field.
- `extract_file` does not dispatch on the signature, swap byte order or yield anything, although its comments at include/bnkextr/bnkextr.h:162-165 and 173-178 plan to yield WEM files and objects. It only sums the sizes and seeks over every section alike.

## Model

| member | source | states |
|---|---|---|
| Bytes.DecodeEncodeU32 | include/bnkextr/structs.h:13-20 | a uint32 field stored as four little-endian bytes reads back as the same value |
| Bytes.EncodeDecodeU32 | include/bnkextr/structs.h:13-20 | any four bytes are the storage of exactly one uint32 value: re-storing the value `DecodeU32` reads gives the same bytes |
| Bytes.AddU64 | include/bnkextr/bnkextr.h:182-188 | `total += content_section.size` on the uint64 counter: the result is the sum modulo 2^64 |
| Bytes.EncodeU32 | include/bnkextr/structs.h:13-20 | a uint32 field occupies exactly four bytes of a packed record |
| Structs.IndexLayout | include/bnkextr/structs.h:13-20 | the packed Index is id, offset and size at byte offsets 0, 4 and 8, 12 bytes with no padding |
| Structs.DecodeIndex | include/bnkextr/bnkextr.h:19-26 | the Index read from 12 bytes re-encodes to exactly those bytes, so decoding loses nothing |
| Structs.EncodeIndex | include/bnkextr/structs.h:13-20 | the packed Index image is 12 bytes, the record's size |
| Structs.SectionLayout | include/bnkextr/structs.h:22-28 | the packed Section is the 4 signature bytes, kept raw, followed by the little-endian size: 8 bytes |
| Structs.SectionRoundTrip | include/bnkextr/bnkextr.h:28-34 | every 8-byte header image is the encoding of the Section `DecodeSection` reads from it, so decoding loses nothing |
| Structs.EncodeSection | include/bnkextr/structs.h:22-28 | the packed Section image is 8 bytes |
| Structs.BankHeaderLayout | include/bnkextr/structs.h:30-36 | the packed BankHeader is version then id, 8 bytes |
| Structs.DecodeBankHeader | include/bnkextr/bnkextr.h:36-42 | the BankHeader read from 8 bytes re-encodes to exactly those bytes |
| Structs.EncodeBankHeader | include/bnkextr/structs.h:30-36 | the packed BankHeader image is 8 bytes |
| Structs.ObjectTypeFromCode | include/bnkextr/structs.h:38-59 | a type byte names an ObjectType exactly when it is one of the declared codes 2..20, and then that type's code is the byte |
| Structs.ObjectTypeCodeRoundTrip | include/bnkextr/bnkextr.h:44-65 | every ObjectType is recovered from its code |
| Structs.ObjectLayout | include/bnkextr/structs.h:61-68 | the packed Object is a 1-byte type then the little-endian size and id, 9 bytes; the type byte decodes to the type stored |
| Structs.DecodeObject | include/bnkextr/bnkextr.h:67-74 | the Object read from 9 bytes, including one with an undeclared type byte, re-encodes to exactly those bytes |
| Structs.EncodeObject | include/bnkextr/structs.h:61-68 | the packed Object image is 9 bytes |
| Structs.EventActionScopeFromCode | include/bnkextr/structs.h:76-84 | a byte names an EventActionScope exactly when it is 1..6, and then that scope's code is the byte |
| Structs.EventActionScopeCodeRoundTrip | include/bnkextr/bnkextr.h:82-90 | every EventActionScope is recovered from its code |
| Structs.EventActionTypeFromCode | include/bnkextr/structs.h:86-113 | a byte names an EventActionType exactly when it is 1..25, and then that type's code is the byte |
| Structs.EventActionTypeCodeRoundTrip | include/bnkextr/bnkextr.h:92-119 | every EventActionType is recovered from its code |
| Structs.EventActionParameterTypeFromCode | include/bnkextr/structs.h:115-120 | a byte names an EventActionParameterType exactly when it is 0x0E, 0x0F or 0x10, and then that parameter type's code is the byte |
| Structs.EventActionParameterTypeCodeRoundTrip | include/bnkextr/bnkextr.h:121-126 | every EventActionParameterType is recovered from its code |
| Extract.Available | include/bnkextr/bnkextr.h:143-152 | a read obtains at most the requested size, only bytes inside the file, and the whole size exactly when the request fits before the end; a short read obtains every byte left before the end, as a transfer-all read does |
| Extract.Fill | include/bnkextr/bnkextr.h:145-152 | after a read the record has the record's size; it equals the file bytes at the cursor when they are all there, and is unchanged when the cursor is at or past the end |
| Extract.FillKeepsTail | include/bnkextr/bnkextr.h:145-152 | the record bytes beyond the end of the file keep their former contents |
| Extract.ZeroSize | include/bnkextr/bnkextr.h:180 | a header whose size bytes are still those of the zero-initialised `content_section` has size 0 |
| Extract.BnkStream.constructor | include/bnkextr/bnkextr.h:215-219 | a file just opened for reading has its cursor at 0 |
| Extract.BnkStream.ReadStructure | include/bnkextr/bnkextr.h:138-160 | success exactly when the whole record lies before the end; the record's front is overwritten by the bytes obtained and its rest kept; the cursor advances by the number obtained |
| Extract.BnkStream.SeekCur | include/bnkextr/bnkextr.h:196-198 | a relative seek moves the cursor forward by the offset, past the end if need be |
| Extract.WalkFrom | include/bnkextr/bnkextr.h:184-201 | the walk stops at or after its start, at a cursor from which no whole header fits in the file, with an 8-byte buffer |
| Extract.WalkReads | include/bnkextr/bnkextr.h:187-198 | with a whole header at the cursor, the walk records it and goes on from past its payload, with that header left in the buffer |
| Extract.WalkStops | include/bnkextr/bnkextr.h:187-194 | without a whole header at the cursor, the walk ends there, with the buffer as the short read left it |
| Extract.WalkChain | include/bnkextr/bnkextr.h:187-198 | the first header is read at the start cursor; each next header is read right after the previous one's payload; the walk stops right after the last payload |
| Extract.HeadersInFile | include/bnkextr/bnkextr.h:187-194 | every header read lies wholly inside the file at or after the start, and its record is the decoding of the 8 bytes there |
| Extract.HeadersOutsidePayloads | include/bnkextr/bnkextr.h:196-198 | every declared payload ends at or before the stop and before any later header, so no header is read from inside a payload |
| Extract.WalkLength | include/bnkextr/bnkextr.h:184-201 | each header read moves the cursor on by at least 8 bytes, so the walk terminates with at most a file's length divided by 8 headers |
| Extract.RunningTotal | include/bnkextr/bnkextr.h:182-188 | the running total after any number of headers is the sum of their sizes modulo 2^64, however the additions wrapped on the way |
| Extract.WalkTotal | include/bnkextr/bnkextr.h:182-193 | the value of `total` when the loop exits: the sum of the sizes of all headers read plus the size field the failing read left in the buffer, modulo 2^64 |
| Extract.FillPartial | include/bnkextr/bnkextr.h:145-152 | a read that starts inside the file and runs past its end copies the bytes left over the front of the record and keeps the rest |
| Extract.ShortFile | include/bnkextr/bnkextr.h:180-194 | a file shorter than one header yields no header, and when it has at most 4 bytes the total is 0 |
| Extract.CleanEndCountsLastSizeTwice | include/bnkextr/bnkextr.h:187-194 | when the walk reads a header and then ends at or past the end of the file, the failed read leaves the last header in the buffer and the total adds its size a second time |
| Extract.OneSectionCountedTwice | include/bnkextr/bnkextr.h:180-198 | a 12-byte file holding one `BKHD` header of size 4 and its payload yields that one header, stops at 12 and totals 8 |
| Extract.ExtractFile | include/bnkextr/bnkextr.h:167-204 | the loop returns exactly the walk's total and leaves the cursor where the walk's failed header read left it |

## Left out

- `main`, the `io_context`, `co_spawn` and `extract_file_task`: they open the file, start the coroutine and wait for it. `main` also catches any exception, prints its message, or 'unhandled error' for a non-standard exception, and returns EXIT_FAILURE (src/bnkextr.cpp:37-46), and `extract_file_task` prints the working directory and the file name (include/bnkextr/bnkextr.h:210-213). Opening is the `BnkStream` constructor, and the file's bytes are a parameter.
- The coroutine machinery (`coro`, `co_await`, `co_return`): each read is modelled as a synchronous call that completes before the next statement runs.
- The console output of `read_structure` and `extract_file`. `ExtractFile` returns the final `total` instead of printing each running value; the running values are `RunningTotal` of the steps so far.
- `bnk_file.is_open()`: a file that was opened stays open in this model, so the loop's condition is always true.
- I/O errors other than end-of-file: the only way a read fails here is running out of bytes.
- `data_offset` and `swap_byte_order`: `extract_file` declares the first and never uses it, and accepts the second without reading it. `ExtractFile` has the unused parameter too.
- Dispatching on the section signature, reading the bank header, the index table and the data section, and decoding HIRC objects and events: `extract_file` does none of these. The records and enums involved are modelled as data with their byte layouts and codes.
- `EventObject`, `EventActionObject` and `WEMFile`: they have variable-length vectors and no packed layout, and no code decodes them. They are datatypes without decoders. Like `Object`'s type byte, `EventActionObject` keeps its scope, action type and parameter type fields as the raw bytes a one-byte enum can hold, and names them through the `FromCode` decoders.
- The header also declares every record with signed `int8_t` enums, `int8_t` parameters and a `char[4]` signature. The unsigned declarations are modelled: all declared codes are below 0x80, so the enum values agree, and the signature's raw bytes are the same either way. The event-action `parameters` do differ: a byte at or above 0x80 is negative as `int8_t` (bnkextr.h:135) and is kept here as the unsigned byte of structs.h:129.
- Extract.BnkStream.SeekCur: the cursor is unbounded; the 64-bit file offset's limit is not modelled, and a seek takes only the non-negative offsets the loop passes.
- A big-endian host: u32 fields are decoded little-endian throughout.
