# Verification of the networking pods

Dafny models and proofs for three pieces of the libraries vendored under `Artable/Pods`.

## nanopb: descriptor-driven Protocol Buffers

A message type is a list of field descriptors, recursive for submessages. A struct is a value tree: one
cell per field, one shared cell per union. The pure modules say what encoding and decoding mean; the
classes and methods are the C code's streams, iterator, bitmap and loops, proved against them.

| module | content |
|---|---|
| `Bits`, `Parse` | shifts, masks and ors on naturals; the outcome of reading a byte string |
| `Varint` | base-128 varints with the 32-bit and the 64-bit reader, ZigZag, little-endian integers |
| `Descriptor` | descriptors, struct cells, default messages |
| `EncodeSpec`, `DecodeSpec` | the bytes of a message; what a byte string does to a message |
| `RoundTrip`, `Meaning` | decoding an encoding gives the same message, and exactly when |
| `WireFormat` | the guide's reader, what it finds in an encoding, and when there is one |
| `Readings` | what the decoder reads from any data of each kind, and which it accepts and skips |
| `Submessages`, `Presence` | submessages in several records; required and absent fields |
| `Elision` | a submessage is left out exactly when it would send nothing |
| `Merge`, `Records` | truncation, unknown records, packed or not |
| `Concatenation` | decoding a concatenation is decoding its parts in turn, and exactly when |
| `Accepted` | what any accepted byte string decodes to, and sending it on |
| `Streams`, `Iterator`, `RequiredBitmap` | the objects that encoder and decoder work with |
| `Encoder`, `Decoder` | the imperative code |
| `Transfer` | a message through the encoder, a buffer and the decoder |

The main results: the whole-message round trip (`Meaning.EncodeDecode`, an if-and-only-if), the exactness
of the sizing pass (`Encoder.EncodeMessage`, `Encoder.EncodeMeasured`, `Encoder.SizingPredicts`), decoding
a concatenation as merging (`Concatenation.MergesExactly`, an if-and-only-if), independence from packing
(`Merge.PackingDoesNotMatter`), transparency of unknown fields (`Merge.UnknownFieldsTransparent`), failure
of truncated messages (`Records.CutMessageFails`), what any accepted byte string leaves and that it can be sent on
(`Accepted.AcceptedIsHeld`, `Accepted.AcceptedIsSentOn`), and the decoder loop with its cyclic iterator,
substreams and bitmap refining the specification (`Decoder.DecodeNoinit`), and encoder and decoder
composed (`Transfer.SendAndReceive`). Encoder and decoder are not only held against each other:
`WireFormat.EncodingFollowsTheGuide` finds the fields of a message in its bytes with a reader that shares
nothing with them, `Readings` says in plain numbers what the decoder makes of any data, and
`Submessages.SubmessagesMerge` and `Presence.RequiredExactly` what it makes of any records. The format is that of the
Protocol Buffers Encoding guide, sections "Base 128 Varints", "Signed Integers", "Length-Delimited
Records" and "Packed Repeated Fields".

The configuration is the default static one over memory buffers, with `PB_FIELD_32BIT`: `PB_SIZE_MAX` is
2^32 - 1 and four size bytes precede the data of a bytes field.

A valid message, in the round trip, has numbers its C types hold, strings that end with a NUL inside their
buffers, bytes within theirs, counts within the arrays, and submessages and packed data shorter than 2^32
bytes. One promise does not hold for every valid message: a has-less singular field whose default is not
zero is received as its default when it was sent as zero, since zero is not sent. `Meaning.EncodeDecode`
has the exact condition, `Meaning.NonzeroDefaultHidesZero` the failing family. Decoding two byte strings
in a row equals decoding both at once if and only if the second does not take up again the count-less
array that the first ended with (`Concatenation.MergesExactly`): the first of its records that is for any
count-less array is for that one, and that one has room for entries. And an empty encoding implies the zero check only
with proper union selectors and nonempty count-less arrays (`Elision.CheckIsExact`, exactly;
`Elision.SilentCounterexamples`).

## Alamofire: three state machines

Each section under a lock, and each block on a queue, is one atomic step of a transition system; a run is
any sequence of enabled steps. The methods of the classes compute the sections.

| module | content |
|---|---|
| `Authentication` | requests queued around a single credential refresh with a sliding-window limit |
| `Outcomes` | what their closures are called with, in which order, and when a refresh starts |
| `RequestTaskMap`, `Session` | the two-way map, and the rendezvous of completion and metrics |
| `RequestLifecycle` | request states and the chain of response serializers (in `Request.dfy`) |
| `Serializers` | which serializers run and are completed, in any run, and which steps put that at risk |

Not every serializer that is added runs once and is completed. One that is added between the last look-up of
a chain and its clearing is lost (`RequestLifecycle.LateIsLost`); of two that are added after the end of a
chain the first can run twice (`Serializers.AddedAfterTheEnd`); and a failed serializer that asks for a retry
hands in no completion, so that a request cancelled before the retry comes to rest with no completion called
(`Serializers.CancelledInRetry`). For runs with one chain `RequestLifecycle.SerializersRunInOrder` is the
exact condition. For any run, `Serializers.Risky` says which steps are at fault, in terms that can be checked
before the step: without them every serializer is served (`Serializers.SafeRunsServeAll`), and each of them,
from any state reached without them, can go wrong within three steps of what is already under way
(`Serializers.RiskIsReal`). What is true of every run is `Serializers.EachIsCompleted`.

Assumptions: the authenticator completes each refresh once, after the section that started it; the clock
is monotone and reals stand for its readings; a submitted closure is new, and so is a
serializer that is added; a URL task completes at most once and
reports metrics at most once, and a request gets a new one only when it has none.

## Alamofire: multipart form data

`Multipart` has the two encoders of the one format (section 5.1.1 of RFC 2046) over streams that deliver
and accept any positive number of bytes at a time, and may fail; both are proved to produce the same bytes.
An output stream that answers that it has no space makes the writing encoder drop the rest of one piece
without an error (`Multipart.Wrote`); its result is complete exactly when that never happened
(`Multipart.WroteExactly`). A stream is closed after its part, and a closed stream yields nothing: a part
whose stream an earlier part has too is encoded without a body. A second call finds the bodies read, and encodes
the parts without them (`Multipart.SecondCall`). `MultipartInverse` reads the format back.

## Model

| member | source | states |
|---|---|---|
| `Meaning.EncodeDecode` | Artable/Pods/nanopb/pb_decode.c:925-1087 | A valid message encodes; its encoding decodes, is read to its last byte, and gives the same message if and only if no has-less zero datum, at any depth, is hidden by a nonzero default |
| `Meaning.NormalizeKeepsMessage` | Artable/Pods/nanopb/pb_encode.c:330-417 | The receiver's struct, the sent fields laid over the defaults, is the same message exactly under that condition |
| `Meaning.ZeroDefaultsRestore` | Artable/Pods/nanopb/pb_encode.c:235-238 | With the zero defaults of proto3 the condition holds for every valid message |
| `Meaning.ZeroIsDefault` | Artable/Pods/nanopb/pb_decode.c:871-888 | A zero datum equals its field's default exactly when that default is zero, recursively for submessages |
| `Meaning.NonzeroDefaultHidesZero` | Artable/Pods/nanopb/pb_encode.c:346-350 | A has-less number with a nonzero default is never received as zero |
| `Meaning.ReceivedAt` | Artable/Pods/nanopb/pb_decode.c:988-1020 | A field that is in no union arrives in its own cell and in no other |
| `Meaning.ReceivedUnion` | Artable/Pods/nanopb/pb_decode.c:466-475 | Exactly the selected union member arrives; no other member becomes selected |
| `RoundTrip.MessageRoundTrip` | Artable/Pods/nanopb/pb_encode.c:519-541 | For every well-formed descriptor tree and valid message, decoding the encoding consumes it exactly and yields the normalized message |
| `RoundTrip.FieldsRoundTrip` | Artable/Pods/nanopb/pb_decode.c:943-1021 | The same from any field on, from any state in which the remaining fields are untouched, with any bytes behind |
| `RoundTrip.MessageLoop` | Artable/Pods/nanopb/pb_decode.c:1023-1070 | After the message's bytes the tracked count-less array is complete and every tracked required field was seen |
| `RoundTrip.FieldRoundTrip` | Artable/Pods/nanopb/pb_encode.c:332-417 | The records of one field of any kind are received as that field, or nothing is sent and nothing changes |
| `RoundTrip.ItemStep` | Artable/Pods/nanopb/pb_decode.c:454-464 | A single-entry record appends its entry to an array, packable type or not |
| `RoundTrip.PackedStep` | Artable/Pods/nanopb/pb_decode.c:425-453 | A packed record appends all of its entries |
| `RoundTrip.PackedRoundTrip` | Artable/Pods/nanopb/pb_encode.c:159-202 | Packed data are read back entry by entry behind whatever the array already holds |
| `RoundTrip.TaggedItemsRoundTrip` | Artable/Pods/nanopb/pb_encode.c:203-230 | Entries under their own tags are read back in order, for counted and count-less arrays |
| `RoundTrip.ValueRoundTrip` | Artable/Pods/nanopb/pb_decode.c:1503-1525 | One datum of any type, submessages included, is read back and nothing behind it is touched |
| `RoundTrip.ScalarRoundTrip` | Artable/Pods/nanopb/pb_decode.c:1318-1429 | Every number that its C type holds, of 1, 2, 4 or 8 bytes, survives its wire codec |
| `RoundTrip.BlobRoundTrip` | Artable/Pods/nanopb/pb_decode.c:1431-1501 | Bytes, strings (up to their NUL) and fixed-length bytes survive |
| `RoundTrip.NullTerminatedRoundTrip` | Artable/Pods/nanopb/pb_encode.c:548-556 | A message followed by a zero byte ends there, whatever follows |
| `WireFormat.EncodingFollowsTheGuide` | Artable/Pods/nanopb/pb_encode.c:332-417 | Whatever a struct holds: if it is encoded, a reader with the guide's own numbers splits the bytes into exactly the records of its fields, in their order, with their numbers, wire types and data, submessages and packed arrays included |
| `WireFormat.EncodesExactly` | Artable/Pods/nanopb/pb_encode.c:144-233 | What a struct holds is encoded if and only if no array to be sent counts too many entries, no bytes to be sent overflow their buffer, and every varint to be sent has a C type of 1, 2, 4 or 8 bytes, at every depth |
| `WireFormat.ArraySent` | Artable/Pods/nanopb/pb_encode.c:144-233 | An array goes out packed in one record, or one record for each entry, or not at all |
| `WireFormat.NothingIsZero` | Artable/Pods/nanopb/pb_encode.c:237-328 | A has-less datum is left out exactly when it is zero, empty, or a submessage of which every field is left out |
| `WireFormat.ScalarSent` | Artable/Pods/nanopb/pb_encode.c:760-841 | A bool goes out as 0 or 1, an integer as its C type reads it (in two's complement of 64 bits, or folded by ZigZag), a fixed-width number least significant byte first |
| `WireFormat.HeldNumberIsItself` | Artable/Pods/nanopb/pb_encode.c:767-824 | A number that its C type holds is read as itself |
| `WireFormat.BlobSent` | Artable/Pods/nanopb/pb_encode.c:843-905 | Bytes go out as they are, a string up to its NUL or the end of its buffer |
| `WireFormat.Base128RoundTrip` | Artable/Pods/nanopb/pb_encode.c:599-619 | The guide's reader gets every varint back |
| `WireFormat.FixedIsLittleEndian` | Artable/Pods/nanopb/pb_encode.c:632-657 | Byte i of a fixed-width number is its i-th digit to base 256 |
| `Readings.VarintReads` | Artable/Pods/nanopb/pb_decode.c:255-275 | The 64-bit reader accepts exactly the varints of at most ten bytes, and returns their value modulo 2^64 |
| `Readings.SmallVarintReads` | Artable/Pods/nanopb/pb_decode.c:187-247 | The 32-bit reader reads every varint of at most ten bytes whose value is below 2^32, whatever it is padded with |
| `Readings.VarintFieldReads` | Artable/Pods/nanopb/pb_decode.c:1329-1364 | An integer field of 8 bytes takes any varint modulo 2^64, a narrower one modulo 2^32 if the result fits its C type; anything else is refused |
| `Readings.Int32ReadsAll` | Artable/Pods/nanopb/pb_decode.c:1335-1346 | A field of 4 bytes accepts every varint, and holds the integer of 32 bits that agrees with it modulo 2^32 |
| `Readings.NegativeReadsEitherWay` | Artable/Pods/nanopb/pb_decode.c:1337-1342 | A negative integer reads alike from its five-byte and its ten-byte varint |
| `Readings.UnsignedFieldReads` | Artable/Pods/nanopb/pb_decode.c:1366-1388 | An unsigned field takes a varint modulo 2^64 exactly when that fits its C type |
| `Readings.ZigZagFieldReads` | Artable/Pods/nanopb/pb_decode.c:1390-1412 | A ZigZag field takes what it unfolds to, exactly when that fits its C type |
| `Readings.BoolReads` | Artable/Pods/nanopb/pb_decode.c:1318-1327 | A bool is set by any number but zero |
| `Readings.FixedFieldReads` | Artable/Pods/nanopb/pb_decode.c:1283-1315 | A fixed-width field takes four or eight bytes, the least significant first |
| `Readings.PrefixedReads` | Artable/Pods/nanopb/pb_decode.c:372-400 | A length below 2^32 in at most ten bytes is followed by as many bytes, or refused |
| `Readings.BlobReads` | Artable/Pods/nanopb/pb_decode.c:1431-1548 | Which lengths are accepted: bytes that leave room for their size, strings that leave room for the NUL, fixed-length data of that length, or of none, which stands for zeros |
| `Readings.SkippedIsOnePayload` | Artable/Pods/nanopb/pb_decode.c:278-331 | What is skipped is one payload as the guide has it, for every wire type, and an unknown wire type is refused |
| `Readings.EntryTakesItsPlace` | Artable/Pods/nanopb/pb_decode.c:454-464 | An entry takes the place behind those that have arrived and no other; in a full array there is none |
| `Submessages.SubmessagesMerge` | Artable/Pods/nanopb/pb_decode.c:1503-1525 | A required or optional submessage in two records is what the second leaves when read into the first, whatever the field held; one record with the contents of both says the same if and only if the second does not take up again the count-less array that the first ended with, and is refused otherwise |
| `Submessages.MergedInto` | Artable/Pods/nanopb/pb_decode.c:1516-1520 | One record of a required or optional submessage is merged into what the field holds, and refused exactly when that fails |
| `Submessages.UnionStartsAnew` | Artable/Pods/nanopb/pb_decode.c:466-475 | In a union a submessage starts from defaults, whatever the union held |
| `Submessages.EntryStartsAnew` | Artable/Pods/nanopb/pb_decode.c:1516-1518 | In an array it is one more entry, and starts from defaults |
| `Submessages.EntriesStartAnew` | Artable/Pods/nanopb/pb_decode.c:1516-1518 | Two records are two entries, each decoded from defaults |
| `Submessages.LastOneWins` | Artable/Pods/nanopb/pb_decode.c:415-422 | A singular field that is no submessage takes the last datum sent, whatever its cell held |
| `Presence.RequiredExactly` | Artable/Pods/nanopb/pb_decode.c:1051-1070 | A series of whole records decodes if and only if its last count-less array is complete and each of the first 64 required fields has a record |
| `Presence.RunMarks` | Artable/Pods/nanopb/pb_decode.c:1012-1017 | Of these fields exactly the ones with a record are marked |
| `Presence.RecordsLeave` | Artable/Pods/nanopb/pb_decode.c:988-1020 | Records leave the cells of other fields as they are |
| `Presence.AbsentIsInitial` | Artable/Pods/nanopb/pb_decode.c:836-923 | In a decoded message a field without a record is at the default of its descriptor, recursively for submessages, with its flag, count or selector off |
| `Varint.VarintRoundTrip` | Artable/Pods/nanopb/pb_decode.c:255-275 | Every 64-bit value is read back, and the reader stops right behind it |
| `Varint.EncVarintFits` | Artable/Pods/nanopb/pb_encode.c:601-602 | The encoder's ten-byte buffer is enough for every 64-bit value |
| `Varint.EncVarintMinimal` | Artable/Pods/nanopb/pb_encode.c:599-619 | Nothing shorter than the emitted bytes decodes to the value |
| `Varint.Varint32AgreesWith64` | Artable/Pods/nanopb/pb_decode.c:187-247 | Where the 32-bit reader accepts at most ten bytes, the 64-bit reader accepts the same bytes and agrees modulo 2^32 |
| `Varint.Varint32AcceptsExactly` | Artable/Pods/nanopb/pb_decode.c:187-247 | Which canonical 64-bit varints the 32-bit reader accepts, and what it makes of them |
| `Varint.Varint32RoundTrip` | Artable/Pods/nanopb/pb_decode.c:187-247 | Values below 2^32 are read back |
| `Varint.Varint32AcceptsNegatives` | Artable/Pods/nanopb/pb_decode.c:221-230 | Sign-extended negative 32-bit integers are accepted |
| `Varint.Varint32RejectsMiddle` | Artable/Pods/nanopb/pb_decode.c:221-242 | Values from 2^32 up to 2^63 are refused |
| `Varint.SignedUnsigned` | Artable/Pods/nanopb/pb_decode.c:1329-1364 | The two's complement casts of the varint decoder undo those of the encoder |
| `Varint.ZigZagRoundTrip` | Artable/Pods/nanopb/pb_decode.c:1269-1281 | ZigZag is undone, and 64-bit integers are exactly those whose ZigZag fits 64 bits |
| `Varint.FixedRoundTrip` | Artable/Pods/nanopb/pb_decode.c:1283-1315 | Little-endian integers are read back |
| `Elision.CheckIsExact` | Artable/Pods/nanopb/pb_encode.c:237-328 | For any struct, the recursive zero check is true if and only if encoding emits no byte and no field is silent though set |
| `Elision.ElisionIsExact` | Artable/Pods/nanopb/pb_encode.c:286-305 | With selectors that are 0 or name a member, and no zero-length arrays, a submessage passes the check if and only if its encoding is empty |
| `Elision.SilentCounterexamples` | Artable/Pods/nanopb/pb_encode.c:247-259 | Both conditions are needed: two concrete structs that send nothing and fail the check |
| `Elision.LeftOutExactly` | Artable/Pods/nanopb/pb_encode.c:346-350 | A has-less field sends nothing if and only if its number is 0, its string has no character, its bytes are none, or nothing of its submessage would be sent and none of that one's fields is silent though set |
| `Elision.EmptySubmessageIsLeftOut` | Artable/Pods/nanopb/pb_encode.c:286-305 | With proper selectors and no zero-length arrays, a has-less submessage is left out if and only if its encoding is empty |
| `Concatenation.MergesExactly` | Artable/Pods/nanopb/pb_decode.c:925-1073 | Where both decodings succeed in a row, one decoding of the concatenation agrees with them if and only if the second byte string does not take up again the count-less array that the first ended with; if it does, the joined decoding fails |
| `Concatenation.ConcatenationMerges` | Artable/Pods/nanopb/pb_decode.c:925-1073 | Under that condition decoding x followed by y in one call equals decoding x and then reading the records of y into the result, success and failure alike, for every descriptor |
| `Concatenation.CountedArraysMerge` | Artable/Pods/nanopb/pb_decode.c:925-1073 | Descriptors without count-less arrays always merge |
| `Concatenation.CountlessArraysDoNotMerge` | Artable/Pods/nanopb/pb_decode.c:988-1010 | An instance of the failing side: an array of one entry, received twice |
| `Concatenation.RecordAlike` | Artable/Pods/nanopb/pb_decode.c:988-1020 | A record does the same after different records if both trackers admit it alike, and records of other fields do not look at the tracker |
| `Concatenation.FullRecord` | Artable/Pods/nanopb/pb_decode.c:436-461 | A full array takes no record but an empty packed one |
| `Concatenation.LoopAlike` | Artable/Pods/nanopb/pb_decode.c:932-937 | A complete array that is not taken up again makes no difference to the rest of a decoding |
| `Concatenation.LoopRefuses` | Artable/Pods/nanopb/pb_decode.c:932-937 | One that is taken up again makes it fail, where a fresh decoding would succeed |
| `Accepted.AcceptedIsHeld` | Artable/Pods/nanopb/pb_decode.c:1075-1087 | Whatever bytes are accepted, the struct has numbers within their C types, blobs within their buffers and counts within their arrays, at every depth, and is what the encoder may be given exactly when its count-less arrays were received |
| `Accepted.AcceptedIsSentOn` | Artable/Pods/nanopb/pb_encode.c:519-541 | Such a struct has an encoding; if that is shorter than 2^32 bytes it is accepted to its last byte, and gives the same message exactly when no zero datum is hidden by a default |
| `Accepted.MessageHeld` | Artable/Pods/nanopb/pb_decode.c:925-1073 | Decoding into a struct within bounds leaves it within bounds |
| `Accepted.ScalarHeld` | Artable/Pods/nanopb/pb_decode.c:1318-1429 | A number that is accepted fits its C type |
| `Accepted.BlobHeld` | Artable/Pods/nanopb/pb_decode.c:1431-1548 | A blob that is accepted fits its buffer |
| `Accepted.StoringHolds` | Artable/Pods/nanopb/pb_decode.c:466-475 | Storing one field, union members included, keeps the others within bounds |
| `Accepted.HeldIsStored` | Artable/Pods/nanopb/pb_encode.c:389-399 | For a struct within bounds, the encoder's assumption is exactly that count-less arrays were received |
| `Accepted.MessageIsSent` | Artable/Pods/nanopb/pb_encode.c:519-541 | No such struct fails to encode |
| `Accepted.MessageIsValid` | Artable/Pods/nanopb/pb_encode.c:708-756 | If its encoding is short, so is every nested one |
| `Merge.CleanLoop` | Artable/Pods/nanopb/pb_decode.c:943-1021 | What is read to its end without a zero tag can be continued with any bytes |
| `Merge.WholeLoop` | Artable/Pods/nanopb/pb_decode.c:943-1021 | A series of whole records takes the decoder through the states of its records, whatever follows |
| `Merge.DecRecordLocal` | Artable/Pods/nanopb/pb_decode.c:957-1020 | A record is read without looking at any byte behind it |
| `Merge.CutRecord` | Artable/Pods/nanopb/pb_decode.c:949-986 | Every proper nonempty prefix of a record is an error |
| `Merge.TruncationFails` | Artable/Pods/nanopb/pb_decode.c:943-1021 | A byte string cut strictly inside a top-level record does not decode |
| `Merge.UnknownIsSkipped` | Artable/Pods/nanopb/pb_decode.c:957-986 | A record of an unlisted field number leaves the whole decoding state alone |
| `Merge.NumberZeroIsRead` | Artable/Pods/nanopb/pb_decode.c:957-986 | Of a descriptor without fields, a record numbered 0 is read as a varint, whatever its wire type |
| `Merge.UnknownFieldsTransparent` | Artable/Pods/nanopb/pb_decode.c:957-986 | Any number of such records between any records changes nothing of the state reached |
| `Merge.UnknownFieldsIgnored` | Artable/Pods/nanopb/pb_decode.c:925-1073 | Nor of the message decoded |
| `Merge.SkipConsumesOneValue` | Artable/Pods/nanopb/pb_decode.c:321-331 | Skipping by wire type consumes exactly one encoded datum of whatever type |
| `Merge.RecordFrame` | Artable/Pods/nanopb/pb_decode.c:988-1020 | A record of another field neither reads nor writes an array's cell |
| `Merge.PieceStep` | Artable/Pods/nanopb/pb_decode.c:424-464 | One packed or single record appends its entries to a counted array |
| `Merge.PackingDoesNotMatter` | Artable/Pods/nanopb/pb_decode.c:424-464 | However entries are split into packed and single records, and wherever other records stand, the array gets the entries in order and the others act as if alone |
| `Merge.SplitsAgree` | Artable/Pods/nanopb/pb_decode.c:424-464 | Any two splits of the same entries decode to the same struct, whatever entries the array holds already |
| `Records.MessageIsRecords` | Artable/Pods/nanopb/pb_encode.c:519-541 | An encoded message is a series of whole records of the receiver |
| `Records.CutMessageFails` | Artable/Pods/nanopb/pb_decode.c:943-955 | An encoded message cut strictly inside any of its records does not decode |
| `Records.NewerSenderIsUnderstood` | Artable/Pods/nanopb/pb_decode.c:957-986 | A valid message with unknown records anywhere between its records still arrives whole |
| `Iterator.LayoutIsTheStructs` | Artable/Pods/nanopb/pb.h:399-409 | The running offsets of the iterator are the offsets of the struct the macros described, arrays and unions included |
| `Iterator.OneCellOneOffset` | Artable/Pods/nanopb/pb_common.c:44-50 | Union members share data and selector addresses |
| `Iterator.CellsAreDisjoint` | Artable/Pods/nanopb/pb_common.c:41-75 | Fields that are not members of one union share no byte |
| `Iterator.EntriesEndBefore` | Artable/Pods/nanopb/pb_common.c:52-66 | The entries of an array, each of the data size, end before the fields behind it |
| `Iterator.FieldIter.constructor` | Artable/Pods/nanopb/pb_common.c:8-18 | A new iterator is at the first field |
| `Iterator.FieldIter.Begin` | Artable/Pods/nanopb/pb_common.c:8-18 | Restarts at the first field; true exactly when there is one |
| `Iterator.FieldIter.Next` | Artable/Pods/nanopb/pb_common.c:20-76 | After any step all pointers and the required-field number are those of the position; the step wraps around with false |
| `Iterator.FieldIter.Find` | Artable/Pods/nanopb/pb_common.c:78-95 | Ends; succeeds exactly when a field has the tag, and then at the nearest such field going around; else it is back where it was |
| `Streams.IStream.FromBuffer` | Artable/Pods/nanopb/pb_decode.c:159-181 | A stream over the first bytes of a buffer |
| `Streams.IStream.Read` | Artable/Pods/nanopb/pb_decode.c:87-137 | Succeeds exactly when enough bytes are left, returns the next ones, and keeps cursor plus budget |
| `Streams.IStream.ReadByte` | Artable/Pods/nanopb/pb_decode.c:141-157 | The same for one byte |
| `Streams.OStream.FromBuffer` | Artable/Pods/nanopb/pb_encode.c:86-101 | A stream that may fill the first bytes of a buffer |
| `Streams.OStream.Store` | Artable/Pods/nanopb/pb_encode.c:74-84 | The bytes replace as many at the cursor, and no others |
| `Streams.OStream.Write` | Artable/Pods/nanopb/pb_encode.c:74-121 | Succeeds exactly when the bytes fit (always when sizing); exactly they are appended and the rest of the buffer is untouched |
| `Streams.Output.AppendTwice` | Artable/Pods/nanopb/pb_encode.c:103-121 | Two writes are one write of both |
| `RequiredBitmap.Mark` | Artable/Pods/nanopb/pb_decode.c:1012-1017 | The two words hold exactly the old numbers and the new one |
| `RequiredBitmap.AllSeen` | Artable/Pods/nanopb/pb_decode.c:1051-1069 | Comparing whole words and the masked rest passes exactly when every number below the count is held |
| `RequiredBitmap.MarksCover` | Artable/Pods/nanopb/pb_decode.c:1030-1070 | All tracked numbers are held exactly when every one of the first 64 required fields was seen, for descriptors of any length |
| `Transfer.SendAndReceive` | Artable/Pods/nanopb/pb_decode.c:1075-1087 | A valid message is sent through a buffer exactly when its encoding fits; then it is received, whatever the receiver held, and is the same message exactly when no zero datum is hidden by a default |
| `Transfer.ValidIsStored` | Artable/Pods/nanopb/pb_encode.c:519-541 | The encoder may be given every valid message |
| `Encoder.SizingPredicts` | Artable/Pods/nanopb/pb_encode.c:558-567 | If sizing advanced by n, encoding into a buffer succeeds exactly when n more bytes fit, and advances by exactly n; if sizing failed, so does encoding |
| `Encoder.EncodeMessage` | Artable/Pods/nanopb/pb_encode.c:519-541 | Succeeds exactly when the message has an encoding and it fits; then exactly the encoding is appended |
| `Encoder.EncodeSubmessage` | Artable/Pods/nanopb/pb_encode.c:708-756 | Length and contents, on a sizing stream as on a buffer |
| `Encoder.EncodeMeasured` | Artable/Pods/nanopb/pb_encode.c:731-755 | On the stream limited to the measured size the second pass always succeeds at that size: the size-changed error cannot occur |
| `Encoder.GetEncodedSize` | Artable/Pods/nanopb/pb_encode.c:558-567 | Exactly the length of the encoding, or failure exactly when there is none |
| `Encoder.EncodeBasicField` | Artable/Pods/nanopb/pb_encode.c:332-417 | Per kind of field: what is sent, and when nothing is |
| `Encoder.EncodeArray` | Artable/Pods/nanopb/pb_encode.c:144-233 | Empty arrays send nothing, too long ones fail, packable ones go packed, others one by one |
| `Encoder.EncodePacked` | Artable/Pods/nanopb/pb_encode.c:161-202 | One tag, the size of the data, the data |
| `Encoder.EncodePackedBody` | Artable/Pods/nanopb/pb_encode.c:166-202 | The size written is the size of what follows; a sizing stream only counts |
| `Encoder.PackedSize` | Artable/Pods/nanopb/pb_encode.c:166-186 | The shortcut for fixed-width data agrees with measuring |
| `Encoder.EncodeItems` | Artable/Pods/nanopb/pb_encode.c:194-201 | All entries back to back, or failure at the first that fails |
| `Encoder.EncodeTaggedItems` | Artable/Pods/nanopb/pb_encode.c:205-230 | All entries, each under the field's tag |
| `Encoder.EncodeTagged` | Artable/Pods/nanopb/pb_encode.c:378-387 | A tag and its datum |
| `Encoder.EncodeValue` | Artable/Pods/nanopb/pb_encode.c:52-68 | The codec that belongs to the field's type |
| `Encoder.EncodeScalar` | Artable/Pods/nanopb/pb_encode.c:760-841 | Numbers read at the width of their C type; other widths fail |
| `Encoder.EncodeBlob` | Artable/Pods/nanopb/pb_encode.c:843-901 | Bytes within their buffer; a string up to its NUL or the end of its buffer |
| `Encoder.CheckProto3Default` | Artable/Pods/nanopb/pb_encode.c:237-328 | Decides the zero check of a field |
| `Encoder.CheckZeroDatum` | Artable/Pods/nanopb/pb_encode.c:266-327 | Decides whether a singular datum is zero or empty |
| `Encoder.CheckMessageDefault` | Artable/Pods/nanopb/pb_encode.c:286-305 | Decides it for every field of a submessage, by the iterator |
| `Encoder.EncodeVarint` | Artable/Pods/nanopb/pb_encode.c:599-619 | Emits the base-128 bytes of every 64-bit value |
| `Encoder.VarintBytes` | Artable/Pods/nanopb/pb_encode.c:610-616 | The loop fills the ten-byte buffer with exactly those bytes, never past its end |
| `Encoder.EncodeSVarint` | Artable/Pods/nanopb/pb_encode.c:621-630 | The shift-and-complement computation is ZigZag |
| `Encoder.EncodeFixed32` | Artable/Pods/nanopb/pb_encode.c:632-641 | Emits the four little-endian bytes |
| `Encoder.EncodeFixed64` | Artable/Pods/nanopb/pb_encode.c:644-657 | Emits the eight little-endian bytes |
| `Encoder.EncodeTag` | Artable/Pods/nanopb/pb_encode.c:660-664 | Emits field number and wire type as one varint |
| `Encoder.EncodeTagForField` | Artable/Pods/nanopb/pb_encode.c:666-698 | With the wire type of the field's data type |
| `Encoder.EncodeString` | Artable/Pods/nanopb/pb_encode.c:700-706 | Emits length and bytes |
| `Decoder.DecodeMessage` | Artable/Pods/nanopb/pb_decode.c:1075-1087 | Decodes into defaults, whatever the struct held; success, result and rest are those of the specification |
| `Decoder.DecodeNoinit` | Artable/Pods/nanopb/pb_decode.c:925-1073 | The loop with iterator, bitmap and array tracker does what the specification does with a set of seen fields |
| `Decoder.DecodeTaggedField` | Artable/Pods/nanopb/pb_decode.c:957-1020 | A record is known, unknown, or taken for the terminator of an empty list |
| `Decoder.DecodeKnownField` | Artable/Pods/nanopb/pb_decode.c:988-1020 | One known record, with the bitmap and the tracker still standing for the abstract state |
| `Decoder.TrackFixedArray` | Artable/Pods/nanopb/pb_decode.c:988-1010 | A new count-less array is taken up only when the one before it is complete |
| `Decoder.CheckRequired` | Artable/Pods/nanopb/pb_decode.c:1030-1070 | Passes exactly when every one of the first 64 required fields was seen |
| `Decoder.DecodeStaticField` | Artable/Pods/nanopb/pb_decode.c:406-480 | Per kind of field: what its cell becomes |
| `Decoder.DecodeArray` | Artable/Pods/nanopb/pb_decode.c:424-464 | Packed or single entries appended; one too many fails |
| `Decoder.DecodePacked` | Artable/Pods/nanopb/pb_decode.c:436-448 | Entries until the part is used up; fails when the array is full first |
| `Decoder.DecodeValue` | Artable/Pods/nanopb/pb_decode.c:68-81 | The codec that belongs to the field's type |
| `Decoder.DecodeSubmessage` | Artable/Pods/nanopb/pb_decode.c:1503-1525 | Merged into the prior contents, or into defaults for array entries; the parent continues behind the part |
| `Decoder.SetToDefaults` | Artable/Pods/nanopb/pb_decode.c:908-919 | All defaults, recursively, whatever the struct held |
| `Decoder.SetFieldToDefault` | Artable/Pods/nanopb/pb_decode.c:836-906 | The default of one field |
| `Decoder.DecodeScalar` | Artable/Pods/nanopb/pb_decode.c:1318-1429 | Numbers, refused when their C type cannot hold them |
| `Decoder.CastSigned` | Artable/Pods/nanopb/pb_decode.c:1348-1361 | The cast-and-compare test accepts exactly the integers of the field's width |
| `Decoder.CastUnsigned` | Artable/Pods/nanopb/pb_decode.c:1372-1385 | It accepts exactly the values below 256 to the power of the width |
| `Decoder.DecodeFixed` | Artable/Pods/nanopb/pb_decode.c:1283-1315 | The value of the little-endian bytes |
| `Decoder.DecodeBlob` | Artable/Pods/nanopb/pb_decode.c:1431-1548 | Accepts exactly what fits the buffer; no bytes at all stand for zeros of fixed length |
| `Decoder.DecodeVarint32Eof` | Artable/Pods/nanopb/pb_decode.c:187-247 | The loop computes the 32-bit reading; end of input is told apart |
| `Decoder.DecodeVarint32` | Artable/Pods/nanopb/pb_decode.c:249-252 | The same without telling |
| `Decoder.DecodeVarint` | Artable/Pods/nanopb/pb_decode.c:255-275 | The or-and-shift loop computes the sum of the groups modulo 2^64 and refuses an eleventh byte |
| `Decoder.DecodeTag` | Artable/Pods/nanopb/pb_decode.c:298-319 | Number and wire type; a zero tag and the end of input both count as the end |
| `Decoder.SkipVarintBytes` | Artable/Pods/nanopb/pb_decode.c:278-287 | Stops behind the first byte without a continuation bit |
| `Decoder.SkipString` | Artable/Pods/nanopb/pb_decode.c:289-296 | Skips a length and that many bytes |
| `Decoder.SkipFieldBytes` | Artable/Pods/nanopb/pb_decode.c:321-331 | Skips exactly one payload of the wire type |
| `Decoder.MakeSubstream` | Artable/Pods/nanopb/pb_decode.c:372-385 | The part starts at the cursor, has the declared length, and is taken off the parent's budget |
| `Decoder.CloseSubstream` | Artable/Pods/nanopb/pb_decode.c:387-400 | Moves the parent behind the part whatever was read of it, and never fails over a buffer |
| `Authentication.EveryClosureCalledOnce` | Artable/Pods/Alamofire/Source/AuthenticationInterceptor.swift:251-401 | In all interleavings a closure is called at most once, and once nothing is under way every submitted closure has been called exactly once |
| `Authentication.RunKeeps` | Artable/Pods/Alamofire/Source/AuthenticationInterceptor.swift:251-401 | In every world of every run: submitted closures are the called, queued, batched and travelling ones; at most one refresh is outstanding; the rate is kept |
| `Authentication.StepAccounts` | Artable/Pods/Alamofire/Source/AuthenticationInterceptor.swift:369-401 | No step loses or doubles a closure |
| `Authentication.StepSingleFlight` | Artable/Pods/Alamofire/Source/AuthenticationInterceptor.swift:331-352 | While refreshing exactly one refresh is outstanding; otherwise none is and both queues are empty |
| `Authentication.StartKeepsRate` | Artable/Pods/Alamofire/Source/AuthenticationInterceptor.swift:354-367 | A refresh that passes the check puts no closed window of the configured length over the limit |
| `Authentication.StepKeepsRate` | Artable/Pods/Alamofire/Source/AuthenticationInterceptor.swift:331-367 | Every step keeps that, with a monotone clock read twice per refresh |
| `Authentication.RateOverTime` | Artable/Pods/Alamofire/Source/AuthenticationInterceptor.swift:354-367 | At most n times the limit of refreshes start within n windows on end |
| `Outcomes.EveryCallIsDue` | Artable/Pods/Alamofire/Source/AuthenticationInterceptor.swift:251-402 | In every run, whatever a closure was called with was decided by an earlier step: with a credential, by an attempt in which that was the latest one set or obtained; missing a credential, when there was none; to retry, when it was queued as a refresh succeeded; with a failure, when it was queued as a refresh failed so, or its own refresh was one too many |
| `Outcomes.EveryPromiseIsKept` | Artable/Pods/Alamofire/Source/AuthenticationInterceptor.swift:251-402 | What a step decided of a closure is what it is called with, at most once and with nothing else, and exactly once when the run comes to rest |
| `Outcomes.RunFates` | Artable/Pods/Alamofire/Source/AuthenticationInterceptor.swift:251-402 | Nothing else is ever on its way to a closure: what is decided is exactly what some step decided |
| `Outcomes.StepFates` | Artable/Pods/Alamofire/Source/AuthenticationInterceptor.swift:251-402 | A step decides exactly what it is due to decide, and undoes no decision |
| `Outcomes.FateIsOne` | Artable/Pods/Alamofire/Source/AuthenticationInterceptor.swift:369-402 | While every closure is accounted for once, it has at most one fate |
| `Outcomes.CredentialIsLatest` | Artable/Pods/Alamofire/Source/AuthenticationInterceptor.swift:369-371 | The credential is in every world of every run the one last set or obtained by a refresh |
| `Outcomes.TriedOrWaits` | Artable/Pods/Alamofire/Source/AuthenticationInterceptor.swift:251-291 | An adapt that is tried waits for the refresh under way, or is decided, or waits for one that starts now |
| `Outcomes.EntersOrWaits` | Artable/Pods/Alamofire/Source/AuthenticationInterceptor.swift:321-328 | A retry that enters the lock waits for the refresh under way or for one that starts now, or fails when there were too many |
| `Outcomes.WaitsForRefresh` | Artable/Pods/Alamofire/Source/AuthenticationInterceptor.swift:369-402 | What waits stays in the lock until a refresh ends |
| `Outcomes.TriedAgain` | Artable/Pods/Alamofire/Source/AuthenticationInterceptor.swift:381-384 | An adapt that waited for a refresh that succeeded stays to be tried until it is tried again |
| `Outcomes.RefreshStarts` | Artable/Pods/Alamofire/Source/AuthenticationInterceptor.swift:331-352 | A refresh starts exactly when a retry enters the lock, or an adapt whose credential requires it is tried, and none is under way, and there were not too many in the past window; and exactly then it is stamped |
| `Outcomes.ExcessiveIsTooMany` | Artable/Pods/Alamofire/Source/AuthenticationInterceptor.swift:354-367 | The check is passed exactly when fewer refreshes than the limit lie in the past window, ends included; always, without a window |
| `Outcomes.LinesMove` | Artable/Pods/Alamofire/Source/AuthenticationInterceptor.swift:369-402 | Closures join the lines of waiting adapts and retries at their ends, and leave them in front |
| `Outcomes.RetriesKeepTheirOrder` | Artable/Pods/Alamofire/Source/AuthenticationInterceptor.swift:321-402 | In every run retries are called in the order in which they entered the lock |
| `Authentication.AuthenticationInterceptor.constructor` | Artable/Pods/Alamofire/Source/AuthenticationInterceptor.swift:241-247 | Not refreshing, with empty queues |
| `Authentication.AuthenticationInterceptor.Adapt` | Artable/Pods/Alamofire/Source/AuthenticationInterceptor.swift:251-275 | The section of adapt: decided at once, or queued, with a refresh started when due |
| `Authentication.AuthenticationInterceptor.RetryRequest` | Artable/Pods/Alamofire/Source/AuthenticationInterceptor.swift:320-326 | The section of retry: queued, with a refresh started unless one is |
| `Authentication.AuthenticationInterceptor.Refresh` | Artable/Pods/Alamofire/Source/AuthenticationInterceptor.swift:331-340 | Stamps and starts a refresh, or fails everything queued when there were too many |
| `Authentication.AuthenticationInterceptor.IsRefreshExcessive` | Artable/Pods/Alamofire/Source/AuthenticationInterceptor.swift:354-367 | Counts the stamps no older than the window |
| `Authentication.AuthenticationInterceptor.HandleRefreshSuccess` | Artable/Pods/Alamofire/Source/AuthenticationInterceptor.swift:369-385 | Stores the credential and moves both queues into one batch |
| `Authentication.AuthenticationInterceptor.HandleRefreshFailure` | Artable/Pods/Alamofire/Source/AuthenticationInterceptor.swift:387-401 | Moves both queues into one failing batch |
| `RequestTaskMap.AssociatingIsConsistent` | Artable/Pods/Alamofire/Source/RequestTaskMap.swift:62-64 | Setting a pair keeps the two maps inverse if and only if it pulls neither side out of another pair |
| `RequestTaskMap.DissociatingIsConsistent` | Artable/Pods/Alamofire/Source/RequestTaskMap.swift:72-80 | Clearing a pair keeps them inverse, with events for exactly the mapped tasks |
| `RequestTaskMap.TaskMap.SetTask` | Artable/Pods/Alamofire/Source/RequestTaskMap.swift:62-64 | The new pair in both maps, with no events |
| `RequestTaskMap.TaskMap.ClearRequest` | Artable/Pods/Alamofire/Source/RequestTaskMap.swift:50-60 | Removes the request's pair; a fatal error exactly when there is none |
| `RequestTaskMap.TaskMap.ClearTask` | Artable/Pods/Alamofire/Source/RequestTaskMap.swift:71-81 | Removes the pair of a task; a fatal error exactly when there is none |
| `RequestTaskMap.TaskMap.DisassociateAfterGatheringMetrics` | Artable/Pods/Alamofire/Source/RequestTaskMap.swift:115-125 | Records the event or lets the pair go at the second; when it is fatal |
| `RequestTaskMap.TaskMap.DisassociateAfterCompleting` | Artable/Pods/Alamofire/Source/RequestTaskMap.swift:127-141 | The same for completion |
| `Session.EveryHistoryKeeps` | Artable/Pods/Alamofire/Source/Session.swift:1201-1222 | After every legal history: no fatal error, inverse maps of exactly the unfinished tasks, completions waiting exactly for tasks completed without metrics, and each run exactly once when both events came |
| `Session.RunsAtTheSecondEvent` | Artable/Pods/Alamofire/Source/Session.swift:1206-1221 | A completion runs at the second event of its URL task and at no other |
| `Session.CrashesExactly` | Artable/Pods/Alamofire/Source/RequestTaskMap.swift:115-141 | An event stops the program if and only if it is for a URL task that was never created, or comes to it a second time |
| `Session.SessionCore.DidCreateTask` | Artable/Pods/Alamofire/Source/Session.swift:1074-1076 | A new task is associated with its request |
| `Session.SessionCore.DidGatherMetricsForTask` | Artable/Pods/Alamofire/Source/Session.swift:1201-1210 | Runs a waiting completion when it is the second event |
| `Session.SessionCore.DidCompleteTask` | Artable/Pods/Alamofire/Source/Session.swift:1212-1222 | Runs the completion when it is the second event, else keeps it |
| `RequestLifecycle.CancelledForGood` | Artable/Pods/Alamofire/Source/Request.swift:50-63 | In every run a cancelled request stays cancelled |
| `RequestLifecycle.StateMoves` | Artable/Pods/Alamofire/Source/Request.swift:516-532 | The state moves only as permitted, or from finished to resumed when a serializer is added |
| `RequestLifecycle.MoveOutcome` | Artable/Pods/Alamofire/Source/Request.swift:50-63 | Resuming, suspending and cancelling succeed unless the request is cancelled, finished or already so, and then the state is the one named; a chain that ends leaves the request finished unless it was cancelled |
| `RequestLifecycle.FinishedIsServed` | Artable/Pods/Alamofire/Source/Request.swift:516-573 | In every run a finished request has no serializers left |
| `RequestLifecycle.SerializersRunInOrder` | Artable/Pods/Alamofire/Source/Request.swift:537-593 | In a run with one chain, with any number of finishes, retries and state changes: what stands of the serializers that ran is in order, each once; completions are called in order, each once, and none before the last serializer ran; at rest every serializer that was added has been completed if and only if none was added between the last look-up and the clearing and no retry found the request cancelled |
| `RequestLifecycle.AllStands` | Artable/Pods/Alamofire/Source/Request.swift:604-607 | Where no retry took anything back, all that ran stands |
| `RequestLifecycle.LateIsLost` | Artable/Pods/Alamofire/Source/Request.swift:553-573 | A run in which a serializer added there never runs |
| `RequestLifecycle.ChainNeverStuck` | Artable/Pods/Alamofire/Source/Request.swift:552-584 | Until every completion was called, or a retry is awaited or found the request cancelled, something can take a step |
| `RequestLifecycle.StrandedStep` | Artable/Pods/Alamofire/Source/Session.swift:1174-1189 | Once a retry found the request cancelled, nothing happens to its chain any more |
| `RequestLifecycle.ChainEnds` | Artable/Pods/Alamofire/Source/Request.swift:552-593 | Each step of the thread that drives a chain shortens what it has left, retries included, and nothing lengthens it but an addition |
| `Serializers.SafeRunsServeAll` | Artable/Pods/Alamofire/Source/Request.swift:496-608 | In every run without a risky step, with any number of chains, additions, finishes, retries and cancellations: at rest all serializers that were added stand, in the order in which they were added, each is completed exactly once, and without retries that is how they ran |
| `Serializers.RiskIsReal` | Artable/Pods/Alamofire/Source/Request.swift:496-608 | From any safe state every risky step can go wrong: at most three steps of what is already under way lose a serializer for good, have one in progress twice at once, or leave some with nothing under way |
| `Serializers.RunIsSafe` | Artable/Pods/Alamofire/Source/Request.swift:496-608 | The invariant of those runs: the chain is the rest of what was added and complete up to the serializer in progress, and only one thread is at work on it |
| `Serializers.StepTidy` | Artable/Pods/Alamofire/Source/Request.swift:496-608 | No step but a risky one breaks it |
| `Serializers.RetryTidy` | Artable/Pods/Alamofire/Source/Session.swift:1174-1189 | A retry takes back exactly what its chain has run |
| `Serializers.GoneForGood` | Artable/Pods/Alamofire/Source/Request.swift:537-573 | A serializer that was lost never runs, unless it is added again |
| `Serializers.LateHarms` | Artable/Pods/Alamofire/Source/Request.swift:553-573 | One added while a chain is about to clear is lost by the clearing |
| `Serializers.SecondHarms` | Artable/Pods/Alamofire/Source/Request.swift:496-549 | A second look-up while a chain is busy can take a serializer again |
| `Serializers.EarlyHarms` | Artable/Pods/Alamofire/Source/Request.swift:516-526 | So can the finish after a retry, when a serializer was added before it |
| `Serializers.CancelledHarms` | Artable/Pods/Alamofire/Source/Session.swift:1174-1189 | A retry that finds the request cancelled leaves its serializers with nothing under way |
| `Serializers.EachIsCompleted` | Artable/Pods/Alamofire/Source/Request.swift:551-608 | In every run: at rest, as often as a serializer ran its completion was called, was taken back by a retry, or still waits because a retry found the request cancelled |
| `Serializers.AddedAfterTheEnd` | Artable/Pods/Alamofire/Source/Request.swift:516-526 | A run in which two serializers added after the end of a chain make the first run twice |
| `Serializers.CancelledInRetry` | Artable/Pods/Alamofire/Source/ResponseSerialization.swift:245-273 | A run in which a request is cancelled while its first serializer asks for a retry, and comes to rest with no completion called |
| `Serializers.AttendedStep` | Artable/Pods/Alamofire/Source/Request.swift:496-593 | While serializers or completions wait and no retry is awaited, something is on its way to clear them, unless a retry found the request cancelled |
| `Serializers.SettledStep` | Artable/Pods/Alamofire/Source/Request.swift:553-593 | No step loses or doubles the completion of a serializer that ran: it is called, handed in, taken back by a retry, or still owed |
| `RequestLifecycle.ChainKeeps` | Artable/Pods/Alamofire/Source/Request.swift:496-593 | The invariant of the chain in every world of a run with one chain; a serializer is lost exactly after a late addition, and the chain is stranded exactly after a retry that found the request cancelled |
| `RequestLifecycle.Request.Finish` | Artable/Pods/Alamofire/Source/Request.swift:496-506 | Starts processing, and records the reason, unless that is under way |
| `RequestLifecycle.Request.AppendResponseSerializer` | Artable/Pods/Alamofire/Source/Request.swift:516-526 | Adds a serializer; a finished request is resumed; whether processing starts again |
| `RequestLifecycle.Request.NextResponseSerializer` | Artable/Pods/Alamofire/Source/Request.swift:537-549 | The serializer after as many as completed, if there is one |
| `RequestLifecycle.Request.TakeCompletions` | Artable/Pods/Alamofire/Source/Request.swift:553-573 | Takes all completions, clears the chain and finishes unless cancelled |
| `RequestLifecycle.Request.ResponseSerializerDidComplete` | Artable/Pods/Alamofire/Source/Request.swift:590-593 | Adds a completion |
| `RequestLifecycle.Request.Reset` | Artable/Pods/Alamofire/Source/Request.swift:604-607 | Forgets the error, the completions and that it was finishing |
| `RequestLifecycle.Request.Cancel` | Artable/Pods/Alamofire/Source/Request.swift:652-656 | Leaves the request cancelled and answers true, unless it is cancelled, finished or already so |
| `RequestLifecycle.Request.Suspend` | Artable/Pods/Alamofire/Source/Request.swift:678-682 | Leaves the request suspended and answers true, unless it is cancelled, finished or already so |
| `RequestLifecycle.Request.Resume` | Artable/Pods/Alamofire/Source/Request.swift:699-703 | Leaves the request resumed and answers true, unless it is cancelled, finished or already so |
| `Multipart.FirstCall` | Artable/Pods/Alamofire/Source/MultipartFormData.swift:320-336 | Of parts that no call has touched a call encodes the format |
| `Multipart.SecondCall` | Artable/Pods/Alamofire/Source/MultipartFormData.swift:327-333 | A second call encodes the parts without their bodies |
| `Multipart.SecondCallAgrees` | Artable/Pods/Alamofire/Source/MultipartFormData.swift:327-333 | Its result is the first one if and only if all bodies are empty |
| `Multipart.AppendedAfterACall` | Artable/Pods/Alamofire/Source/MultipartFormData.swift:327-333 | A part appended after a call goes behind the closing boundary that the call gave to the part before it |
| `Multipart.MultipartFormData.Encode` | Artable/Pods/Alamofire/Source/MultipartFormData.swift:320-336 | Fails exactly when a body stream fails; else, for every pace of the streams and whatever earlier calls did, the result is the data of the parts as they are flagged and what is left of their bodies |
| `Multipart.MultipartFormData.EncodeParts` | Artable/Pods/Alamofire/Source/MultipartFormData.swift:330-333 | The loop of that |
| `Multipart.MultipartFormData.Append` | Artable/Pods/Alamofire/Source/MultipartFormData.swift:305-308 | A new part behind the others; a stream that an earlier part has too leaves it no body |
| `Multipart.MultipartFormData.WriteEncodedData` | Artable/Pods/Alamofire/Source/MultipartFormData.swift:345-369 | Fails only when a stream fails; else the output is the same data piece by piece, each answer of the output stream that it has no space having cost the rest of one piece |
| `Multipart.MultipartFormData.WriteParts` | Artable/Pods/Alamofire/Source/MultipartFormData.swift:366-368 | The loop of that |
| `Multipart.WroteExactly` | Artable/Pods/Alamofire/Source/MultipartFormData.swift:485-501 | So the output is complete if and only if the output stream never answered that, and shorter otherwise |
| `Multipart.CutsShorten` | Artable/Pods/Alamofire/Source/MultipartFormData.swift:485-501 | What was taken of the pieces is all that was offered exactly when none was cut short |
| `Multipart.WroteBoth` | Artable/Pods/Alamofire/Source/MultipartFormData.swift:485-501 | Two writes are one write of both |
| `Multipart.MultipartFormData.MarkBoundaries` | Artable/Pods/Alamofire/Source/MultipartFormData.swift:363-364 | Flags the first part and the last; clears no flag |
| `Multipart.MultipartFormData.EncodePart` | Artable/Pods/Alamofire/Source/MultipartFormData.swift:373-390 | Boundary, headers, body and, for the last, the closing boundary |
| `Multipart.MultipartFormData.EncodeBodyStream` | Artable/Pods/Alamofire/Source/MultipartFormData.swift:400-423 | All bytes left in the stream however they arrive; fails exactly when the stream does; the stream is closed either way |
| `Multipart.MultipartFormData.WritePart` | Artable/Pods/Alamofire/Source/MultipartFormData.swift:427-442 | The same bytes as the other encoder, up to what the output stream refused |
| `Multipart.MultipartFormData.WriteBodyStream` | Artable/Pods/Alamofire/Source/MultipartFormData.swift:444-468 | All bytes left in the stream, chunk by chunk; when it fails a stream did; the body stream is closed either way |
| `Multipart.MultipartFormData.WriteBuffer` | Artable/Pods/Alamofire/Source/MultipartFormData.swift:485-501 | All bytes however few each write takes, or the first of them exactly when the stream answered that it has no space, which is no failure |
| `Multipart.InputStream.Read` | Artable/Pods/Alamofire/Source/MultipartFormData.swift:407-419 | What the encoders rely on in a body stream: pieces of any size up to the limit, or an error; nothing once it is closed |
| `Multipart.InputStream.Close` | Artable/Pods/Alamofire/Source/MultipartFormData.swift:402-403 | A closed stream has nothing left |
| `Multipart.OutputStream.Write` | Artable/Pods/Alamofire/Source/MultipartFormData.swift:488-500 | What they rely on in an output stream: at least one byte taken, or an error |
| `MultipartInverse.ReadBack` | Artable/Pods/Alamofire/Source/MultipartFormData.swift:320-336 | With a CR-free boundary, CR-free headers and colon-free names, a reader of the format gets the parts back if and only if the delimiter is in no body |
| `MultipartInverse.EncodingIsInjective` | Artable/Pods/Alamofire/Source/MultipartFormData.swift:320-336 | Then different part lists have different encodings |
| `MultipartInverse.HeadersRead` | Artable/Pods/Alamofire/Source/MultipartFormData.swift:392-398 | The header block is read back and ends where it ends |
| `MultipartInverse.BodyEnd` | Artable/Pods/Alamofire/Source/MultipartFormData.swift:64-77 | The first delimiter behind a body is the one put there, not one that starts inside the body |
| `MultipartInverse.BodyCut` | Artable/Pods/Alamofire/Source/MultipartFormData.swift:64-77 | A delimiter in a body is found too early |
| `MultipartInverse.DelimiterInBodyIsAmbiguous` | Artable/Pods/Alamofire/Source/MultipartFormData.swift:64-77 | A delimiter in a body, with a line end and any block of headers behind it, makes two different part lists encode alike, wherever the part stands |

## Left out

- Pointer, callback and extension fields, `PB_ENABLE_MALLOC`, `PB_WITHOUT_64BIT`, `PB_BUFFER_ONLY`, `PB_ENCODE_ARRAYS_UNPACKED` and custom streams: not in the configuration modelled.
- Size overflow: sizes are unbounded, except that a length is cut to 64 bits where it is written as a varint.
- Writing in place: a struct is a value passed to a method and returned, not memory reached through a pointer; that distinct fields are distinct memory is `Iterator.CellsAreDisjoint`.
- Indeterminate contents: entries of an array beyond the known ones, the datum of a union with no member selected, and what a failed call has written to the struct or the output buffer are not described. A has-flag, selector or count set before a failure is part of that.
- The flag that the terminator, read as a required bool numbered 0, would set in a struct without fields.
- Padding and byte order inside the struct; numbers in cells stand for the bytes of their C type, and text is its bytes.
- Varint.Varint32AgreesWith64: stated for at most ten bytes, because beyond them the 8-bit position counter wraps; the wrap itself is in the model.
- Merge.SplitsAgree: the array counts exactly the entries it knows, as it does after any decoding that began with defaults; entries beyond the count are not considered.
- Accepted.AcceptedIsSentOn: for encodings shorter than 2^32 bytes, since a longer submessage has a length that the decoder refuses.
- Readings.SkippedIsOnePayload: lengths from 2^32 on, which the 32-bit reader cuts when they look like negative integers, and lengths padded beyond ten bytes, are not considered; nor are they by `Readings.PrefixedReads` and `Readings.BlobReads`.
- Submessages.SubmessagesMerge: a first record whose contents stop at a zero tag is not considered; `Submessages.MergedInto` covers it.
- RequestLifecycle.SerializersRunInOrder: runs with one chain; additions after its end are in `Serializers.SafeRunsServeAll` and `Serializers.RiskIsReal`.
- Serializers.SafeRunsServeAll: not an if-and-only-if, since a run with a risky step may still turn out well, and a retry takes back what was doubled; that the risk is real from every safe state is `Serializers.RiskIsReal`.
- RequestLifecycle.ChainNeverStuck: a step can be taken; that a queue or a retry takes it is not claimed. A retry that the session decides on for a request that was finished while its URL task was under way, as an invalidated session does, is not modelled.
- Session.EveryHistoryKeeps: watchOS, where metrics are not gathered, and session invalidation are not modelled.
- MultipartInverse.ReadBack: says when parts are read back, not which other list a delimiter in a body can be taken for; `MultipartInverse.DelimiterInBodyIsAmbiguous` has one family.
- File checks and MIME types in the multipart encoders, and which error a stream reports. A stream counts as open until it is closed, and is not opened again.
- Error values other than the kinds that reach a completion closure, event monitors, progress, validation, redirects, delegates.
- Real queues, locks, clocks and URL sessions: steps of the transition systems stand for them. That a refresh, a queue or a retry ever completes is not claimed, except that a serializer chain that keeps being scheduled ends (`RequestLifecycle.ChainEnds`).
- Delimited messages (`pb_encode_delimited`, `pb_decode_delimited`): the submessage codec under another name.
- The application's own code, parameter encoding, header and retry-policy types, trust evaluation and reachability: thin or user interface.
