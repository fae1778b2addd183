# int2DDS: a verified model of the CDR codec and the C interface around it

This project models, in Dafny, the parts of int2DDS that decide what goes over the wire and who owns what:

- **The CDR/XCDR codec** of the C header (`ffi/include/int2dds_cdr.h`) together with the serializers the IDL
  compiler generates on top of it (`idl/src/codegen/c.rs`): PLAIN_CDR and PL_CDR of XCDR1 (DDS-XTypes 1.3, section
  7.4.1), XCDR2 (section 7.4.2) and its DHEADER/EMHEADER rules (section 7.4.3.4).
- **The field extractor** (`ffi/src/data.rs`), which finds one field of a serialized sample by skipping the others.
- **The path language** over dynamic values (`ffi/src/dynamic.rs`).
- **The state machines of the C interface**: value handles, write loans, read loans, the discovery snapshot, and the
  copy of an error text into a C buffer.

`dafny verify dfyconfig.toml` checks everything.

## How the codec is proved

A generated serializer is a well-nested *script* of writer calls (`Scripts.Calls`). `Scripts.Layout` gives the bytes
of a script directly, by recursion, with no buffer, capacity, error or back-patching in it. `WriterSteps` is the
header's writer as transitions of a state, with placeholders that are patched and parameter headers that are widened
in place; `CdrWriter.Writer` is the same over a byte array. `WriterProof.RunWrites` ties the two together for every
script from every good state.

What is on the wire is said a second time, by `WireFormat.Wire`: straight from types and values to bytes, with paddings,
widths, header words and the types that get a DHEADER written out, and nothing in it that writer and reader share.
`WireFormat.LayoutIsWire` says that generated code produces these bytes, for every type, value and position;
`WireFacts` reads the single words off them, and `ReadFacts` says what the reader makes of each word of arbitrary bytes.

On the other side `Decoding` says what the reader and the generated deserializers return for arbitrary bytes, and
`CdrReader.Reader` computes it with a cursor and a sticky error. `EvolutionProof.FieldReads` is the main theorem: for
every pair of a reader's type and a writer's type related by `Evolution.Evolves` (appendable structs may lose trailing
members, mutable structs any members, at any depth), every value, both byte orders and both versions, the reader
returns exactly the projection of the value and stops exactly where the writer stopped, if and only if every sequence
count fits the bytes behind it and every text fits where the reader keeps it. Round trips, prefix reads, mutable
evolution and parameter lists are instances of it.

Both string modes of the generator are covered: `Str(None)` is a `char*` read in place, `Str(Some(n))` is a `char[n]`
filled by a copy that overflows when the text and its NUL do not fit; the generator's default is an array of 257. Both
forms of EMHEADER are covered too: a member of the writer's type says whether its header is written compactly, with the
length known beforehand, or back-patched, as the generated code does for all of them. The theorems hold for every mixture.

| file | content |
|---|---|
| `Wrappers`, `Bytes`, `RawStores`, `BulkCopy` | byte order, stores into arrays, bulk copies |
| `WireFormat`, `WireFacts`, `ReadFacts` | the wire format by itself, and its words |
| `Scripts`, `WriterSteps`, `WriterProof`, `WriterRuns`, `Writer` | layout, transitions, their agreement, arbitrary runs, the class |
| `WireTypes`, `Decoding`, `Readback`, `Reader`, `ReaderRuns`, `Relocation` | types, decoding, headers read back, the class, arbitrary runs, position independence |
| `Evolution`, `EvolutionProof`, `Compatibility`, `RoundTrip`, `Messages`, `Newer` | the main theorem, what it applies to, its consequences, whole messages, and the one direction it leaves open |
| `DecodedTypes`, `Failures` | what a decoded value is, and which error each failure reports |
| `Limits`, `Hollow`, `Framing` | what fails, and exactly when |
| `FieldExtractor`, `ExtractorAgreement`, `ExtractorLimits`, `ExtractorSamples`, `ExtractorIff`, `ExtractorValues` | the extractor, its agreement with the writer, and exactly where it ends |
| `Paths`, `ValueHandles`, `Loans`, `Discovery`, `LastError`, `Utf8Text` | the C interface |

## What turned out not to hold

- Sequences whose elements take no bytes do not round-trip: the reader rejects a count larger than the bytes left
  (`Limits.EmptyElementsRejected` for one message). For every struct type, all representable samples come back if and
  only if none of them holds such a sequence (`Hollow.RoundTripsIff`).
- Strings of 2^32 - 1 bytes and more do not round-trip, since the length is stored in 32 bits; shorter ones all do
  (`Limits.TextRoundTripIff`).
- A final struct gets a DHEADER of its own as soon as anything below it has variable length. Adding such a member to a
  nested appendable struct therefore changes the framing of the final struct around it. Whatever scalars the old reader
  knew and whatever members were gained, it sees what it should of every message if and only if it knew no member at
  all (`Framing.FramingChangeIff`). A string added to an int32 is enough (`Framing.StringAfterInt32`). `Evolves`
  contains the condition that excludes this: both types are framed alike.
- A reader that knows more members of an appendable struct than its writer had does not stop at the end of the object:
  it decodes the others from the bytes behind it (`Newer.NewerReads`), and fails when there are none
  (`Newer.NewerAtEnd`).
- The bound of a sequence plays no part in reading it: as many elements are stored as the count on the wire says
  (`Limits.StoredCount`), so a fixed array is safe exactly up to the bytes that can follow (`Limits.RoomNeededIff`).
- The extractor aligns 64-bit fields to 8 in XCDR2 streams, where the writer aligns to 4. From the first 64-bit field off
  the multiples of 8 on it is behind for good, and strings move fields about. So a field comes back for all of its
  values from all messages if and only if the 64-bit fields up to it are in front of all strings, and on multiples of 8
  there (`ExtractorIff.ExtractsIff`). A final struct of an int32 and an int64 is enough to fail
  (`ExtractorLimits.Int32ThenInt64`).
- A path index that does not parse is dropped without an error, and so is a second index: an index is honoured if and
  only if it parses (`Paths.IndexMeans`), and `Paths.ParsesIff` says what does.
- The module comment of `ffi/src/dynamic_value.rs` promises that failing calls consume nothing. Setting a field the
  type does not have consumes the value all the same, as that function's own comment says. The model follows the code,
  and `ValueHandles.FailureConsumesNothingIff` gives the exact condition.

## Model

| member | source | states |
|---|---|---|
| WriterProof.RunWrites | ffi/include/int2dds_cdr.h:392-700 | Any well-nested script of writer calls, from any good state: it succeeds if and only if every EMHEADER id fits in 28 bits and the layout fits in the buffer, and then exactly the layout has been appended and nothing before it changed; so every back-patched length is the byte count of its body, inner widenings included |
| WriterProof.RunHeadWrites | ffi/include/int2dds_cdr.h:392-700 | The same for a single call with everything nested inside it |
| WireFormat.LayoutIsWire | idl/src/codegen/c.rs:954-1133 | For every type, value, position, byte order and version, the bytes that generated code writes are those of a reference that goes straight from values to bytes, with every padding, width, header word and DHEADER rule written out as a number or a list of types |
| WireFormat.VariesIff | idl/src/codegen/c.rs:1641-1660 | A type has variable length if and only if a string or a sequence is somewhere in it |
| WireFacts.ByteOrder | ffi/include/int2dds_cdr.h:270-328 | Little-endian numbers have their lowest byte first, big-endian ones last |
| WireFacts.CompositesOnWire | idl/src/codegen/c.rs:1022-1061 | In XCDR2, a sequence or array of strings, enums, structs, sequences or arrays starts, at the next multiple of 4, with the number of all bytes that follow; a sequence then has its count |
| WireFacts.NumberSeqOnWire | idl/src/codegen/c.rs:1022-1048 | A sequence of bools, integers or float128 starts with its count, and then has the numbers one after the other and nothing else |
| WireFacts.NumberArrOnWire | idl/src/codegen/c.rs:1049-1075 | An array of them is the numbers and nothing else |
| WireFacts.FinalOnWire | idl/src/codegen/c.rs:1662-1671 | In XCDR2, a final struct starts with the number of bytes that follow if a string or a sequence is somewhere in it, and is its members alone if not |
| WireFacts.AppendableOnWire | idl/src/codegen/c.rs:752-789 | An appendable struct starts with that number in XCDR2, and is its members alone in XCDR1 |
| WireFacts.Xcdr1OnWire | idl/src/codegen/c.rs:954-1133 | In XCDR1 there are no such numbers: a sequence starts with its count, arrays and final structs are what they hold |
| WireFacts.ParamOnWire | ffi/include/int2dds_cdr.h:659-691 | The 16-bit number at the aligned start of a parameter is the must-understand flag above 14 bits of id, or of 0x3F01 when the id is above 0x3F00 or the content above 0xFFFF bytes; length, id and content follow where they should |
| WireFacts.ListEnds | ffi/include/int2dds_cdr.h:693-700 | A parameter list ends in the words 0x3F02 and 0 |
| WireFacts.FramedOnWire | ffi/include/int2dds_cdr.h:632-650 | The word of a back-patched EMHEADER is flag, length code 4 and 28 bits of id; the length of the content and the content follow |
| WireFacts.EmheaderOnWire | ffi/include/int2dds_cdr.h:608-630 | The same of a compact one, with codes 0 to 3 for the lengths 1, 2, 4 and 8 |
| WireFacts.HeaderTable | ffi/include/int2dds_cdr.h:414-447 | The four bytes of the encapsulation header, literally, for each version, byte order and extensibility |
| WireFacts.HeaderTells | ffi/include/int2dds_cdr.h:64-73 | The second byte tells byte order and version, and in XCDR2 the extensibility |
| WireFacts.MessageIsWire | idl/src/codegen/c.rs:824-871 | Behind the header a message is the reference's bytes of the struct, with no DHEADER for a final one |
| WriterProof.LengthFrame | ffi/include/int2dds_cdr.h:592-604 | Begin, body and finalize of a length header leave the padding, the body's length and the body, and fail exactly when one of them does |
| WriterProof.CloseParam | ffi/include/int2dds_cdr.h:669-691 | Finalizing a parameter fills in the short header, or moves the content up and leaves an extended one, whichever id and length call for; it fails exactly when the result does not fit |
| WriterProof.BehindEitherHeader | ffi/include/int2dds_cdr.h:672-691 | The content of a parameter is the same bytes behind a short and behind an extended header, which is why it can be moved |
| Scripts.Translate | ffi/include/int2dds_cdr.h:392-410 | A script lays out the same bytes at stream positions congruent modulo 8 (XCDR1) or 4 (XCDR2) |
| Scripts.BulkIsPerElement | ffi/include/int2dds_cdr.h:567-587 | A bulk write lays out what the element-by-element loop lays out, for every width, count, position, byte order and version; nothing for count 0 |
| WriterProof.BulkRunsAlike | ffi/include/int2dds_cdr.h:567-587 | From every good state the bulk write and the loop of single writes succeed together and then end in the same state |
| BulkCopy.FlatOfValues | ffi/include/int2dds_cdr.h:578-585 | A straight copy is the right encoding when host and stream byte order agree |
| BulkCopy.FlatOfSwapped | ffi/include/int2dds_cdr.h:355-362 | A swapping copy is the right encoding when they differ |
| BulkCopy.ValuesOfFlat | ffi/include/int2dds_cdr.h:940-959 | Reading a run back returns the numbers written |
| BulkCopy.SwapCopy | ffi/include/int2dds_cdr.h:355-362 | The nested copying loop reverses each element in place of the copy and leaves the rest of the buffer alone |
| Bytes.GetPut | ffi/include/int2dds_cdr.h:270-328 | Loading undoes storing, at every width and in both byte orders |
| Bytes.PutGet | ffi/include/int2dds_cdr.h:270-328 | Storing undoes loading |
| RawStores.PutU16 | ffi/include/int2dds_cdr.h:270-278 | The byte stores of a 16-bit value are its encoding, and only they change |
| RawStores.PutU32 | ffi/include/int2dds_cdr.h:285-297 | The same for 32 bits |
| RawStores.PutU64 | ffi/include/int2dds_cdr.h:306-318 | The same for 64 bits |
| RawStores.PutF128 | ffi/include/int2dds_cdr.h:532-540 | The 16-byte loop stores a float128 in the stream's byte order |
| RawStores.GetF128 | ffi/include/int2dds_cdr.h:870-879 | The reading loop returns its little-endian bytes |
| WriterRuns.EveryRunInBounds | ffi/include/int2dds_cdr.h:242-266 | After any calls in any order, nested or not, header_size <= pos <= capacity |
| WriterRuns.Play | ffi/include/int2dds_cdr.h:366-700 | Any calls in any order on the writer object, tokens used or not, end in the state the transitions compute |
| WriterRuns.ResetStartsOver | ffi/include/int2dds_cdr.h:376-380 | Whatever calls came before it, errors included, behind a reset the writer behaves as a new one |
| WriterRuns.ErrorSticks | ffi/include/int2dds_cdr.h:376-380 | After an error nothing changes until a reset, not even by finalizing a frame whose begin failed |
| Failures.ScriptErrors | ffi/include/int2dds_cdr.h:392-700 | A script that fails reports an overflow, or an invalid member id if it has one, and nothing else |
| Failures.IdRefused | ffi/include/int2dds_cdr.h:608-643 | An EMHEADER with an id of more than 28 bits is refused as such and nothing is written; with any other id it is written or overflows |
| Failures.WhereNumbersStop | ffi/include/int2dds_cdr.h:488-510 | A number that does not fit leaves its padding behind if that fits |
| Failures.WhereTextsStop | ffi/include/int2dds_cdr.h:544-553 | A string that does not fit leaves its padding and its length behind as far as they fit |
| CdrWriter.Writer.constructor | ffi/include/int2dds_cdr.h:366-374 | The class starts in the initial state of the transition system |
| CdrWriter.Writer.Clear | ffi/include/int2dds_cdr.h:376-380 | Reset keeps buffer and options and clears position, header and error |
| CdrWriter.Writer.WriteAlign | ffi/include/int2dds_cdr.h:392-410 | Refines the aligning step: zero padding up to the capped alignment, counted from the header, or an overflow |
| CdrWriter.Writer.WriteEncapsulation | ffi/include/int2dds_cdr.h:414-447 | Refines the header step, with alignment counted from behind it; a header that does not fit changes nothing |
| CdrWriter.Writer.WriteU8 | ffi/include/int2dds_cdr.h:451-470 | Refines the scalar step for one byte |
| CdrWriter.Writer.WriteU16 | ffi/include/int2dds_cdr.h:472-486 | Refines the scalar step for two bytes |
| CdrWriter.Writer.WriteU32 | ffi/include/int2dds_cdr.h:488-502 | Refines the scalar step for four bytes |
| CdrWriter.Writer.WriteU64 | ffi/include/int2dds_cdr.h:504-518 | Refines the scalar step for eight bytes |
| CdrWriter.Writer.WriteInt | ffi/include/int2dds_cdr.h:458-510 | Refines the scalar step for the two's complement of a signed number |
| CdrWriter.Writer.WriteF128 | ffi/include/int2dds_cdr.h:532-540 | Refines the scalar step for sixteen bytes, aligned to eight |
| CdrWriter.Writer.WriteString | ffi/include/int2dds_cdr.h:544-553 | Refines the text step: length with the NUL, bytes, NUL |
| CdrWriter.Writer.WritePrimArray | ffi/include/int2dds_cdr.h:567-587 | Whatever the host byte order, the array's numbers go out as the bulk step says |
| CdrWriter.Writer.DheaderBegin | ffi/include/int2dds_cdr.h:592-597 | Refines the opening of a DHEADER and returns its aligned position |
| CdrWriter.Writer.FinalizeSize | ffi/include/int2dds_cdr.h:599-604 | Refines the back-patch of a length |
| CdrWriter.Writer.WriteEmheader | ffi/include/int2dds_cdr.h:608-630 | Refines the EMHEADER step, with its length codes and the id check |
| CdrWriter.Writer.EmheaderBegin | ffi/include/int2dds_cdr.h:632-643 | Refines the opening of an EMHEADER with a length to come |
| CdrWriter.Writer.PidBegin | ffi/include/int2dds_cdr.h:659-667 | Refines the opening of a parameter: 4 or 12 bytes are reserved |
| CdrWriter.Writer.PidFinalize | ffi/include/int2dds_cdr.h:669-691 | Refines the closing of a parameter, moving the content in the array when the short header is outgrown |
| CdrWriter.Writer.PidSentinel | ffi/include/int2dds_cdr.h:693-700 | Refines the end of a parameter list |
| CdrWriter.Writer.Perform | idl/src/codegen/c.rs:752-789 | Carrying out a script call by call ends in the state the transition system computes |
| CdrWriter.Writer.Write | idl/src/codegen/c.rs:752-789 | A script carried out on a byte array succeeds exactly when ids and layout fit, and then the array holds what was there before followed by the layout |
| WireTypes.FieldWellFormed | idl/src/codegen/c.rs:954-1133 | The calls generated for any field of any type use only widths, counts and ids the writer knows |
| Readback.ReadsSigned | ffi/include/int2dds_cdr.h:796-846 | A signed number comes back as it was, at every width and position |
| Readback.EmheaderLossless | ffi/include/int2dds_cdr.h:999-1020 | Reading an EMHEADER recovers every id, every length and the must-understand flag, and ends where the header ended |
| Readback.CompactFills | ffi/include/int2dds_cdr.h:608-630 | In XCDR2 a primitive of 1, 2, 4 or 8 bytes written behind the EMHEADER that announces it fills exactly the announced length, with no padding |
| Readback.ReadsFramed | ffi/include/int2dds_cdr.h:632-650 | The back-patched EMHEADER is read back, and the body lies behind it |
| EvolutionProof.EmMemberReads | ffi/include/int2dds_cdr.h:608-650 | Whichever form of EMHEADER a member got, the reader finds its id, the exact length of its payload, the flag, and the payload right behind |
| Readback.ReadsParam | ffi/include/int2dds_cdr.h:1055-1079 | Whichever header a parameter got, id and content length come back: no short id is taken for the extended marker or the sentinel |
| Readback.ReadsSentinel | ffi/include/int2dds_cdr.h:693-700 | The end of a parameter list is recognized |
| EvolutionProof.FieldReads | idl/src/codegen/c.rs:1239-1468 | For every compatible pair of types, every value and every position, in both string modes: decoding gives the reader's projection of the value and ends where the writer ended, if every sequence count on the way fits the bytes behind it and every text its destination, and an error otherwise |
| EvolutionProof.PlainReads | idl/src/codegen/c.rs:791-820 | The same for a body without a DHEADER around it |
| EvolutionProof.TextReads | idl/src/codegen/c.rs:1280-1302 | A string is read as written if it fits where the reader keeps it, and is an overflow otherwise |
| EvolutionProof.FieldsRead | idl/src/codegen/c.rs:1171-1188 | A reader that knows only a prefix of the members gets their values and stops behind the last one it knows |
| EvolutionProof.FramedRead | idl/src/codegen/c.rs:1190-1233 | The XCDR2 member loop recovers every shared member, skips every unknown one and ends at the DHEADER's end, for every mixture of compact and back-patched EMHEADERs |
| EvolutionProof.ParamsRead | idl/src/codegen/c.rs:1190-1233 | The XCDR1 parameter loop does the same up to the sentinel, at any nesting and whichever headers were widened |
| EvolutionProof.MutableReads | idl/src/codegen/c.rs:1190-1233 | A reader that knows any members of a mutable struct gets exactly the shared ones and ends behind the object, in both versions |
| EvolutionProof.DelimitedReads | ffi/include/int2dds_cdr.h:976-995 | After reading any prefix of an appendable struct the reader resumes at the byte behind the writer's object |
| Compatibility.SimplesEvolve | idl/src/codegen/c.rs:1239-1318 | Strings are compatible wherever each side keeps them; numbers with themselves |
| Compatibility.CollectionsEvolve | idl/src/codegen/c.rs:1324-1410 | So are sequences, and arrays of one size, of compatible elements |
| Compatibility.FinalsEvolve | idl/src/codegen/c.rs:1662-1671 | So are final structs of compatible members, in XCDR2 if both have variable length or neither |
| Compatibility.AppendablesEvolve | ffi/include/int2dds_cdr.h:976-995 | In XCDR2 so are appendable structs of compatible members of which the reader's has fewer |
| Compatibility.MutablesEvolve | idl/src/codegen/c.rs:1190-1233 | So are mutable structs whose shared members are compatible, in any order, whatever else each has |
| Compatibility.ParametersEvolve | idl/src/codegen/c.rs:1190-1233 | In XCDR1, inside a parameter, also structs that lost trailing members |
| RoundTrip.EvolvesToItself | idl/src/codegen/c.rs:1137-1169 | Every type is compatible with itself |
| RoundTrip.ProjectsToItself | idl/src/codegen/c.rs:1137-1169 | Seen through its own type, a value is itself |
| RoundTrip.CountsAlwaysFit | ffi/include/int2dds_cdr.h:922-930 | When the elements of the sequences a value holds take space, the reader accepts it if and only if the texts it sees fit where it keeps them |
| RoundTrip.OwnTextsFit | idl/src/codegen/c.rs:655-661 | Every value fits where its own type keeps it |
| RoundTrip.AlwaysSolid | ffi/include/int2dds_cdr.h:922-930 | A type whose sequence elements take space has only values for which the above holds |
| Newer.NewerReads | idl/src/codegen/c.rs:1171-1188 | For every appendable object and every members gained since: the members the writer had are read as ever, the others from the bytes behind the object, the reader ends behind the object, and fails exactly when one of these reads does |
| Newer.NewerAtEnd | idl/src/codegen/c.rs:1171-1188 | An object that ends the buffer cannot be read by a reader that expects one more number |
| Messages.HeaderRecognized | ffi/include/int2dds_cdr.h:710-744 | The reader picks the byte order and version the writer put in the header, for each extensibility |
| Messages.MessageReads | idl/src/codegen/c.rs:824-871 | Every sample, with anything behind it in the buffer: a compatible reader, of either string mode, recognizes the header and sees the projection, ending behind the sample, if and only if counts and texts fit |
| Messages.MessageRoundTrip | idl/src/codegen/c.rs:1137-1169 | Every sample whose sequence elements take space comes back unchanged, in both byte orders and versions |
| Messages.FieldRoundTrip | ffi/include/int2dds_cdr.h:746-754 | The same without a header, for a field at any stream position |
| Messages.SerializeCdr | idl/src/codegen/c.rs:824-871 | The generated serializer returns the size of the sample and fills the array with exactly its bytes, or returns 0 when the sample does not fit or has an id out of range |
| Messages.DeserializeCdr | idl/src/codegen/c.rs:1137-1169 | On arbitrary bytes, the generated deserializer succeeds exactly when header and body decode, with that value; in the default string mode a text that overflows its array fails it |
| Messages.Exchange | idl/src/codegen/c.rs:824-871 | Serialized on one host and deserialized on another, of any byte orders, string modes and compatible types: it arrives if and only if the reader has room for the texts it sees, and what arrives is the projection of what was sent |
| Limits.TextRoundTripIff | ffi/include/int2dds_cdr.h:544-553 | A string round-trips if and only if its length with the NUL is below 2^32 |
| Limits.EmptyElementsRejected | ffi/include/int2dds_cdr.h:922-930 | The message of a struct that holds a nonempty sequence of empty structs is rejected, whatever the count |
| Limits.StoredCount | idl/src/codegen/c.rs:1324-1383 | On arbitrary bytes, a sequence that is read stores exactly as many elements as the count on the wire, which is at most the bytes behind it |
| Limits.RoomNeededIff | idl/src/codegen/c.rs:1324-1383 | An array of n octets is long enough for every stream with a given number of bytes behind the count if and only if there are at most n |
| Hollow.HollowRejected | ffi/include/int2dds_cdr.h:922-930 | From every representable sample that holds a sequence of elements without bytes, one of the same size can be made that the reader rejects |
| Hollow.RoundTripsIff | ffi/include/int2dds_cdr.h:922-930 | For every struct type: all its representable samples come back if and only if none of them holds such a sequence |
| Framing.FramingChangeMisread | idl/src/codegen/c.rs:1641-1671 | For all scalar members and all members gained, at every position: the inner struct may evolve, the framing of the outer one changes, an old reader that knew nothing is right, and any other misses the telltale value of its first member |
| Framing.FramingChangeIff | idl/src/codegen/c.rs:1641-1671 | For all such members, whenever there is a message at all: the old reader sees what it should of every message if and only if it knew no member |
| Framing.StringAfterInt32 | idl/src/codegen/c.rs:1641-1671 | For one, an int32 to which a string is added: there are messages, and of some the old reader does not see what it should |
| DecodedTypes.DecodedTyped | idl/src/codegen/c.rs:1239-1468 | On arbitrary bytes: what is decoded is a value of the type, save for members of mutable structs that are lacking; a failure is an underflow, or an overflow if a string is copied |
| DecodedTypes.LooksIff | idl/src/codegen/c.rs:1239-1468 | Without mutable structs, exactly the values of the type are like that |
| DecodedTypes.DecodedCanBeWritten | idl/src/codegen/c.rs:1239-1468 | So what was decoded, from whatever bytes, can be written again |
| ReadFacts.NumberRead | ffi/include/int2dds_cdr.h:770-868 | On arbitrary bytes, a number is read from the next multiple its width calls for, or it is an underflow |
| ReadFacts.TextRead | ffi/include/int2dds_cdr.h:883-902 | On arbitrary bytes, length 0 is the empty text, and any other length counts a last byte that is dropped |
| ReadFacts.CopyRead | ffi/include/int2dds_cdr.h:904-920 | The same into an array, with an overflow exactly when text and NUL have no room |
| ReadFacts.CountRead | ffi/include/int2dds_cdr.h:922-930 | A count of up to as many as there are bytes is accepted, one more is an underflow |
| ReadFacts.EmheaderRead | ffi/include/int2dds_cdr.h:999-1044 | On arbitrary bytes: id, flag and the length each of the eight length codes means, with the position behind |
| ReadFacts.PidRead | ffi/include/int2dds_cdr.h:1055-1079 | On arbitrary bytes: flag bits ignored, 0x3F02 ends the list, 0x3F01 announces id and length in words of their own |
| ReadFacts.BoolsRead | ffi/include/int2dds_cdr.h:961-972 | Every octet but 0 is true, in arrays |
| ReadFacts.BoolRead | ffi/include/int2dds_cdr.h:790-794 | And alone |
| ReadFacts.EncapTable | ffi/include/int2dds_cdr.h:710-744 | What each encapsulation identifier means to the reader, and that there are no others |
| CdrReader.Reader.Open | ffi/include/int2dds_cdr.h:710-744 | Init fails exactly on a short buffer or an unknown identifier, and otherwise starts behind the header with its options |
| CdrReader.Reader.ReadAlign | ffi/include/int2dds_cdr.h:770-786 | Advances by exactly the capped padding, or fails without moving |
| CdrReader.Reader.ReadUint | ffi/include/int2dds_cdr.h:802-868 | Returns the number the bytes at the aligned cursor stand for (for a float, its bit pattern), or fails; after an error it does nothing |
| CdrReader.Reader.ReadInt | ffi/include/int2dds_cdr.h:796-846 | The signed number the bytes stand for in two's complement, or a failure |
| CdrReader.Reader.ReadFlag | ffi/include/int2dds_cdr.h:790-794 | Any nonzero octet is true; false when there is none |
| CdrReader.Reader.ReadF128 | ffi/include/int2dds_cdr.h:870-879 | The same for a float128 |
| CdrReader.Reader.ReadString | ffi/include/int2dds_cdr.h:883-902 | Returns the text without its NUL; length 0 is the empty text |
| CdrReader.Reader.ReadStringCopy | ffi/include/int2dds_cdr.h:904-920 | The destination receives the text and a NUL and is otherwise untouched; a text that does not fit is an overflow that leaves it as it was |
| CdrReader.Reader.ReadSeqHeader | ffi/include/int2dds_cdr.h:922-930 | A count larger than the bytes left is an error |
| CdrReader.Reader.ReadPrimArray | ffi/include/int2dds_cdr.h:940-959 | The host array receives the numbers on the wire, whichever of the two byte orders host and stream have |
| CdrReader.Reader.ReadBoolArray | ffi/include/int2dds_cdr.h:961-972 | Every nonzero octet becomes true |
| CdrReader.Reader.ReadDheaderEnd | ffi/include/int2dds_cdr.h:985-995 | Jumps to the announced end, or fails without moving |
| CdrReader.Reader.ReadEmheaderWord | ffi/include/int2dds_cdr.h:999-1044 | Id, flag and length in all length codes, 5 to 7 as written |
| CdrReader.Reader.ReadPidHeader | ffi/include/int2dds_cdr.h:1055-1079 | Short, extended and sentinel headers |
| CdrReader.Reader.SkipBytes | ffi/include/int2dds_cdr.h:1081-1086 | Skips within the buffer or fails |
| CdrReader.Reader.ReadField | idl/src/codegen/c.rs:1239-1468 | The generated deserializer, over the cursor and in both string modes, returns what decoding says of the bytes, or the same error |
| CdrReader.Reader.ReadFramedMembers | idl/src/codegen/c.rs:1190-1233 | The XCDR2 member loop, likewise; it terminates because every header takes bytes |
| CdrReader.Reader.ReadParams | idl/src/codegen/c.rs:1190-1233 | The XCDR1 parameter loop, likewise |
| ReaderRuns.Run | ffi/include/int2dds_cdr.h:770-1086 | Every run of reader calls over every buffer stays between header and end, the first error is final, and it is an underflow or an overflow |
| Relocation.DecodeMoves | ffi/include/int2dds_cdr.h:770-786 | On arbitrary bytes, well formed or not: readers with the same bytes ahead and congruent stream positions return the same value after the same number of bytes, or both fail |
| FieldExtractor.SkipAgreesWithRead | ffi/src/data.rs:177-349 | Skipping and reading a field agree on where the next one starts, which is further on and in bounds; they differ in failing only on malformed text |
| FieldExtractor.ParseFieldValue | ffi/src/data.rs:352-393 | The loop returns the first field of that name that skipping leads to, with the error cases |
| FieldExtractor.LazyEqualsEager | ffi/src/data.rs:378-392 | On arbitrary bytes, whenever a full left-to-right decode succeeds, extraction returns its value for the first field of that name |
| Failures.ExtractFails | ffi/src/data.rs:378-392 | On arbitrary bytes: the first field that cannot be skipped is named, or else the one asked for, as unreadable or as missing |
| Failures.FieldsStart | ffi/src/data.rs:352-376 | The fields start behind a DHEADER exactly with identifiers 6 to 11, a type that is not final, and eight bytes or more |
| ExtractorAgreement.InStepIff | ffi/src/data.rs:177-227 | Skipping stays in step with the writer if and only if every 64-bit field passed lies on a multiple of 8 (always so in XCDR1) |
| ExtractorAgreement.ExtractsWritten | ffi/src/data.rs:378-392 | Under that condition the extractor returns what the writer wrote, at any position |
| ExtractorAgreement.StrayFieldMisread | ffi/src/data.rs:294-329 | The condition is needed: at the first 64-bit field off the multiples of 8 there is a value the extractor does not return, whatever the other fields hold |
| ExtractorAgreement.MessageExtract | ffi/src/data.rs:352-393 | From any message of a final or appendable flat struct the extractor returns the value of any field up to which the condition holds |
| ExtractorAgreement.Xcdr1Extract | ffi/src/data.rs:352-393 | In XCDR1 it returns every field of every such message |
| ExtractorLimits.BehindStray | ffi/src/data.rs:177-227 | Past the first 64-bit field off the multiples of 8, as far as numbers go, the extractor has failed or is behind the writer by a word or more, though by no more than what was written |
| ExtractorLimits.MessageStray | ffi/src/data.rs:352-393 | From every message in which the field asked for is the first stray one, its telltale value does not come back |
| ExtractorLimits.LastStrayFails | ffi/src/data.rs:352-393 | When that field ends the message it cannot be read at all, whatever its value |
| ExtractorLimits.Int32ThenInt64 | ffi/src/data.rs:294-329 | A final struct of an int32 and an int64 in XCDR2, for all values of both: asking for the int64 is a parse error |
| ExtractorSamples.BehindLonger | ffi/include/int2dds_cdr.h:392-410 | In XCDR2, what follows a text that grew by whole words moves by as much |
| ExtractorSamples.TextOverrun | ffi/src/data.rs:177-227 | Inside a long enough text of 0x7F bytes the extractor takes four of them for a length, and neither skips nor reads on |
| ExtractorIff.LaterFieldMisread | ffi/src/data.rs:352-393 | For every number behind a stray field, over numbers, there is a message from which it does not come back, differing from any given one in that field at most |
| ExtractorIff.TextMisread | ffi/src/data.rs:352-393 | With a string between a stray field and the field asked for, or as that field, there is a message from which it does not come back |
| ExtractorIff.ExtractsIff | ffi/src/data.rs:352-393 | For every final or appendable flat type, every field of it and whatever follows the message: every value comes back from every message if and only if the 64-bit fields up to it are in front of all strings (in XCDR2) and on multiples of 8 |
| ExtractorValues.IntegersComeBack | ffi/src/data.rs:230-349 | From every message, as far as the fields are in step: an integer field of each kind comes back as the integer it was, negative ones too |
| ExtractorValues.SignedWrites | ffi/include/int2dds_cdr.h:458-510 | What the signed write calls write for each signed kind is the two's complement the above assumes |
| ExtractorValues.TextsComeBack | ffi/src/data.rs:238-257 | A string field comes back as the text it was |
| ExtractorValues.NumberExtracted | ffi/src/data.rs:258-348 | On arbitrary bytes: each kind is read at the next multiple of its width, as the signed or unsigned number there, a bool as its octet |
| ExtractorValues.TextExtracted | ffi/src/data.rs:238-257 | On arbitrary bytes: one trailing NUL is dropped, any other last byte is kept, and what is not UTF-8 is refused |
| Paths.ResolvePath | ffi/src/dynamic.rs:627-644 | The loop over the segments computes the walk |
| Paths.ItemAtPath | ffi/src/dynamic.rs:627-644 | For all data, paths, names and numbers: `name` is the field, `name[i]` item i of it when it is a sequence or array with one, else nothing; the same behind any path |
| Paths.LengthAtPath | ffi/src/dynamic.rs:949-970 | The length at a path is that of the sequence or array there, with the code of each failure; an index resolves if and only if it is below it |
| Paths.ValueAtPath | ffi/src/dynamic.rs:647-650 | Typed values and members at a name, with the code of each failure |
| Paths.SplitJoin | ffi/src/dynamic.rs:629-629 | Splitting `p.q` is splitting `p` and splitting `q`, for all strings |
| Paths.ResolveCompose | ffi/src/dynamic.rs:627-644 | For all strings: resolving `p.q` is resolving `q` in the struct at `p`, and fails when there is none |
| Paths.GetThroughMember | ffi/src/dynamic.rs:979-999 | Taking the member at `p` and asking it for `q` is asking for `p.q`, for values, lengths and members; when there is no such member, all three are not found |
| Paths.IndexRoundTrip | ffi/src/dynamic.rs:619-624 | Every index up to the largest `usize` survives printing and parsing |
| Paths.RenderResolves | ffi/src/dynamic.rs:619-644 | Resolving a printed list of steps is the walk the steps describe, which has its own indexing |
| Paths.ParsesIff | ffi/src/dynamic.rs:619-624 | A bracket parses as index n if and only if it is an optional plus sign, any zeros, n in decimal and the closing bracket, with n a `usize` |
| Paths.IndexMeans | ffi/src/dynamic.rs:619-644 | At the end of any path, a bracketed segment means the item if its index parses and the whole field if not |
| Paths.SecondIndexIgnored | ffi/src/dynamic.rs:619-624 | So do two indices in a row, whatever they are |
| ValueHandles.Values.Make | ffi/src/dynamic_value.rs:196-239 | A constructor gives the caller one new handle, last, and changes nothing else |
| ValueHandles.Values.MakeUnion | ffi/src/dynamic_value.rs:248-264 | Both inputs are taken over by the new value, discriminator first |
| ValueHandles.Values.Push | ffi/src/dynamic_value.rs:273-286 | A sequence or array takes the element over as its last; anything else fails and takes nothing |
| ValueHandles.Values.MapInsert | ffi/src/dynamic_value.rs:296-313 | A map takes key and value over, in that order, as its last; anything else fails and takes nothing |
| ValueHandles.Values.Destroy | ffi/src/dynamic_value.rs:320-324 | Frees the whole value |
| ValueHandles.Values.SetValue | ffi/src/dynamic_value.rs:339-356 | Stores the value in the first field of that name and frees the one it replaces; frees the new one when the field does not exist |
| ValueHandles.Values.DestroyData | ffi/src/dynamic.rs:835-839 | Frees every value the data object holds |
| ValueHandles.Values.Play | ffi/src/dynamic_value.rs:248-356 | Any legal run of calls on the handles ends in the state the transitions compute |
| ValueHandles.PushesInOrder | ffi/src/dynamic_value.rs:273-286 | Pushing any values one after the other gives the collection them in that order, behind what it had |
| ValueHandles.LastSetCounts | ffi/src/dynamic_value.rs:339-356 | A field holds the value last set under its name, whatever calls follow on other things |
| ValueHandles.StepConserves | ffi/src/dynamic_value.rs:248-356 | No call loses, duplicates or frees twice any value, whatever the state |
| ValueHandles.EveryValueHasOneOwner | ffi/src/dynamic_value.rs:248-356 | After every legal run, each value ever made is under exactly one handle, or in exactly one field, or freed exactly once |
| ValueHandles.NothingLeaks | ffi/src/dynamic_value.rs:320-324 | After every legal run that ends with no live handle and the data object destroyed, every value ever made was freed exactly once |
| ValueHandles.FailureConsumesNothingIff | ffi/src/dynamic_value.rs:339-356 | A failing call leaves everything as it was if and only if it is not the setting of a field the type does not have |
| Loans.WriteLoans.Prepare | ffi/src/publisher.rs:833-858 | A handle is issued exactly when the core grants the loan |
| Loans.WriteLoans.Commit | ffi/src/publisher.rs:876-905 | On success the box is freed; on every failure it stays with the caller, emptied |
| Loans.WriteLoans.Abort | ffi/src/publisher.rs:911-918 | Frees the box and whatever loan is still in it; null does nothing |
| Loans.WriteLoans.CommitOrAbort | ffi/src/publisher.rs:862-869 | Commit, and abort on error, frees the box exactly once whatever the core answers |
| Loans.WriteLoans.Play | ffi/src/publisher.rs:833-918 | Any run of calls that does not reuse a freed handle ends in the state the transitions compute |
| Loans.EveryWriteSettledOnce | ffi/src/publisher.rs:833-918 | Over every run that does not reuse a freed handle: no box is freed twice, no core loan handed back twice, and none kept when its box is freed |
| Loans.ReadLoans.Finish | ffi/src/loan.rs:27-40 | A handle is issued exactly when the core lends samples; no data and failure are told apart |
| Loans.ReadLoans.ReturnLoan | ffi/src/loan.rs:470-492 | An accepted loan is freed; a refused one is back in its box as it was |
| Loans.ReadLoans.Play | ffi/src/loan.rs:27-40 | Any run of calls that does not reuse a freed handle ends in the state the transitions compute |
| Loans.EveryReadIntact | ffi/src/loan.rs:15-19 | Over every legal run: a box still out holds the very samples it was issued with, and every other one was returned exactly once |
| Discovery.Snapshot.Merge | ffi/src/discovery.rs:102-121 | Refines the merge of one sample |
| Discovery.Snapshot.Collect | ffi/src/discovery.rs:146-184 | The collecting loop refines the fold over its reads, ignoring failed ones, and makes no read after the first that finds the deadline past or, without a deadline, the snapshot not empty |
| Discovery.FoldMeans | ffi/src/discovery.rs:102-121 | After any samples, an instance has an entry exactly when it had one or was seen, with the state of its last sample and the last payload that was present |
| Discovery.FoldKeyed | ffi/src/discovery.rs:117-119 | Every entry carries its own key |
| Discovery.CollectMeans | ffi/src/discovery.rs:146-184 | The same over any sequence of reads, some of them failed |
| Discovery.FoldTwice | ffi/src/discovery.rs:102-121 | Merging a batch once more changes nothing |
| Discovery.AbsorbedIff | ffi/src/discovery.rs:148-160 | A later read absorbs what an earlier one merged, in every snapshot, if and only if it has a sample of every instance and a payload wherever the earlier one had |
| Discovery.RereadingIsHarmless | ffi/src/discovery.rs:146-184 | However often the loop rereads, and whatever samples go, as long as each read covers the ones before it in that sense: the snapshot is the one its last successful read alone gives |
| Discovery.GrowingCovers | ffi/src/discovery.rs:148-160 | A read that has the samples of an earlier one and more covers it |
| LastError.WriteCString | ffi/src/last_error.rs:55-71 | What lands before the NUL is the longest well-formed prefix that fits, the rest of the buffer is untouched, at most three steps back are taken, and the full length is returned |
| Utf8Text.TextIff | ffi/src/data.rs:255-255 | Text is well-formed if and only if it is the encoding of Unicode scalar values, surrogates excluded |
| Utf8.BoundaryIsPrefix | ffi/src/last_error.rs:65-67 | In well-formed text the boundary test holds exactly where the prefix is well-formed |
| Utf8.BoundaryNearby | ffi/src/last_error.rs:65-67 | A boundary is at most three bytes back |

## Left out

- Storage: values are kept apart from the memory that holds them; how many elements are stored is in `Limits.StoredCount`, and what a store past the end of an array would overwrite is not modelled.
- Types: maps, wide strings, unions, bitmasks, bitsets, base types, optional members and recursive types are not modelled; each would add cases of the same kind.
- Pointers: null checks and the aliasing of caller buffers with the writer's own buffer are not modelled.
- Sizes: `size_t` is unbounded, so the overflow guards of the bulk calls (`count` against the largest `size_t`) never fire; values of 2^32 and more in 32-bit fields are cut off as in the source, and theorems about round trips require lengths below 2^32.
- Alignment arguments are 0, 1, 2, 4 and 8, which is all that callers pass; shifts and masks are written as arithmetic.
- Strings in the codec are byte sequences that may contain NUL, which a C string cannot.
- Floating point values are bit patterns.
- `write_bytes`, `read_bytes`, the legacy sentinel (`write_sentinel`, `is_sentinel`), `serialize_for` and key serialization are not modelled.
- ExtractorAgreement.MessageExtract: says nothing about mutable types, whose member headers the extractor does not skip.
- ExtractorAgreement.StrayFieldMisread: gives one value that is misread at each such field; other values can be returned by accident. What holds of later fields is in `ExtractorIff.ExtractsIff`.
- Framing.FramingChangeIff: the members the old reader knows are scalars.
- ExtractorIff.ExtractsIff: where there are strings up to the field asked for, it takes one message of the type, with what follows it, of less than 256 megabytes; a string asked for holds UTF-8, since the extractor returns nothing else.
- ValueHandles.Values.Make: stands for all scalar and collection constructors; `get_value`, which clones, and the inspection functions are not modelled, nor is a null handle.
- ValueHandles.EveryValueHasOneOwner: legal runs do not pass one handle in two roles of a call, and the data object is of struct type.
- Loans.WriteLoans.Commit: the core's answer is a parameter; the reclaim-or-restore code of entity deletion and listeners is not modelled.
- Discovery.Snapshot.Collect: the clock's answers and the reads are given; waiting and the instance state mask are not modelled.
- Discovery.RereadingIsHarmless: reads in which an instance or its only payload is gone are covered by `Discovery.CollectMeans`; by `Discovery.AbsorbedIff` the claim is false of them.
- LastError.WriteCString: the thread-local slot holding the message is not modelled.
- `Float128` parsing, type support, type registry, key hashing, RTPS, QoS, the IDL parser, RPC, wait sets, listeners and status getters are not part of this model.
