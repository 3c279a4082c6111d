# Verified models of the nanopb codec and of Alamofire's state machines

Two of the libraries this application ships with carry most of its logic: nanopb, the descriptor-driven
protobuf codec in C, and Alamofire, the HTTP client in Swift. This project models the parts of both in which
many branches, bits or interleavings meet, and proves what they promise.

`dafny verify dfyconfig.toml` checks everything.

## The nanopb codec

Two layers. The first is a set of functions on byte strings that say what the codec computes:

- `Varint`, `Integers`: base 128 varints, the 64-bit and the 32-bit decoder, zigzag, integer casts, fixed-width
  values. The 32-bit decoder keeps its own bit position (eight bits wide) and its tolerance for sign-extended
  negative numbers.
- `Messages`: field descriptors as a tree (tag, type, repetition, sizes, default, struct member) and message
  values as a tree. A struct member is a slot; members of one union share a slot.
- `Encode`, `Decode`: what `pb_encode` emits and what `pb_decode` stores, for required, optional, proto3
  singular, repeated, fixed-count and oneof fields and for nested messages.

On these functions the laws of the format are proved: `Framing` (a decoder never looks past what it takes,
unknown records), `Merge`, `DefaultMessages`, `RoundTrip`, `Theorems`, `Packing`, `Misfits`, `Concatenation`,
`Submessages`, `Soundness`, `AbsentFields`, `Presence`, `NestedUnknowns`, `Witnesses`. `WireFormat` states the
wire types, tags, sizes and widths in numbers.

The second layer has the form of the C code: streams are classes over arrays (`InputStreams`, `OutputStreams`),
the field iterator and the required-field bitmap are mutable objects (`FieldIteration`, `RequiredBitmap`), and
`Decoder` and `Encoder` are methods with loops. Each method is proved equal to the function of the first
layer: same success, same value, same bytes consumed or emitted. So every law above holds of it too.

What the encoder's methods promise is the predicate `Outcome`: success exactly when there is an encoding and
room for it, then exactly those bytes at the write position, and no byte changed outside the space the stream
was given even when it fails. Because the sizing stream and the memory stream satisfy the same contract, the
two passes over a submessage agree and "submsg size changed" cannot be reported.

Well-formed descriptors (`ValidType`) have distinct tags from 1 to 2^29 - 1, sizes and counts below 2^32, no
extension pseudo-field, and no default pointer on a proto3 singular field. A message is valid when each value
fits its field, and canonical when strings end at their first NUL, absent optional fields hold their default
and a `which_` names a member of its union: exactly what the wire format can carry back.

Four results about nanopb say that something does not hold, with the exact condition:

- Two concatenated encodings cannot be decoded if the arrays of the two messages exceed their size together, or if
  the type has exactly one fixed-count array; nothing else stands in the way
  (`Concatenation.MergeOnConcatenation`).
- A string array without a terminator is encoded but not accepted back
  (`RoundTrip.StringDecodesIffTerminated`).
- The 32-bit varint decoder accepts, of the values from 2^32 up, the sign-extended negatives and a few of
  their neighbours (`Varint.Varint32OnCanonical` with `Accepted32`).
- A required field beyond the first 64 is not checked (`Soundness.RequiredFieldsEnforced`).

## Alamofire's state machines

Each module has a class whose methods are the lock sections (or queue blocks) of the Swift code, a function per
section that its method is proved against, and a transition system that adds the queues and callers around it.
A run is any sequence of events; every theorem is about all runs.

- `CredentialRefresh`, `CredentialAnswers`: adapting and retrying while a credential is refreshed, the limit on
  refreshes, and what each completion is called with.
- `SerializerPipeline`: response serializers, with the lookup and the clearing as separate sections.
- `TaskJoin`: the two-way map of requests and URL session tasks, and the join of the two events of each.
- `StreamCounter`: the outstanding parser runs of a data stream request.
- `Multipart`, `MultipartHeaders`: the in-memory encoder and the streaming writer of multipart form data, and
  what a receiver can read back.

Some results say what is not guaranteed, each with its exact condition. A serializer appended during the first
pass is dropped exactly when it came after the lookup that found none (`SerializerPipeline.FirstPassRunsOnce`), and
a serializer is started twice exactly when it is looked up while in flight (`SerializerPipeline.StartsAgainIff`).
A retry starts a refresh of the credential it read even if that has been replaced since
(`CredentialRefresh.StaleRetryRefreshes`). Assigning a pair keeps the two maps inverse exactly when neither side
is mapped elsewhere (`TaskJoin.AssociateKeepsInverse`). Stream completions are dispatched with all data delivered exactly when what
arrived after their release has been (`StreamCounter.DispatchCompleteIff`); for such data to arrive the request
has to be finished while a URL session task of it is still running. The multipart writer does not compare
lengths as `encode` does, and it stops without an error when the output stream reports no more than that it has no
space left (`Multipart.EncodersCompared`).

Where code and documentation differ the code is followed: the comment at `RefreshWindow` says a refresh is
refused when more than `maximumAttempts` happened within the window, the code refuses when that many happened;
`CredentialRefresh.EveryRunBoundsRate` states the bound of the code.

## Model

| member | source | states |
|---|---|---|
| Theorems.MessageRoundTrip | Pods/nanopb/pb_encode.c:528-550 | `pb_decode` gives back every valid canonical message from what `pb_encode` emits for it, and takes every byte |
| Theorems.EncodingIsInjective | Pods/nanopb/pb_encode.c:341-426 | two different canonical messages never have the same encoding |
| Theorems.MessageEncodes | Pods/nanopb/pb_encode.c:528-550 | encoding a valid message fails for no reason but lack of space |
| Theorems.MergeOntoDefaults | Pods/nanopb/pb_decode.c:917-928 | merging a canonical message onto the default message gives that message: what is not emitted is what decoding starts from |
| RoundTrip.MessageDecodes | Pods/nanopb/pb_decode.c:934-1082 | decoding an encoding onto any valid message it fits on succeeds and merges into it (Last One Wins): present scalars overwritten, repeated fields appended, submessages merged, oneofs replaced or merged |
| RoundTrip.FieldsDecode | Pods/nanopb/pb_decode.c:952-1030 | after the records of the first fields, in descriptor order, the decoder's whole state is the merge of those fields |
| RoundTrip.ScalarDecodes | Pods/nanopb/pb_encode.c:769-910 | each scalar type's encoding decodes to the same value, taking exactly its bytes |
| RoundTrip.StringDecodesIffTerminated | Pods/nanopb/pb_encode.c:873-897 | a string array round-trips exactly when it holds a terminator; without one its encoding is rejected |
| Merge.MergedSlot | Pods/nanopb/pb_decode.c:406-483 | the merged message, struct member by struct member |
| Concatenation.MergeOnConcatenation | Pods/nanopb/pb_decode.c:952-1037 | decoding two concatenated encodings yields the merge of the two messages, and fails if and only if their arrays do not fit together or the type has exactly one fixed-count array |
| Misfits.DecodesIffFits | Pods/nanopb/pb_decode.c:406-483 | decoding an encoding onto a valid message yields the merge if the arrays fit at every depth at which messages are merged, and fails if not |
| Submessages.DecodesOntoExisting | Pods/nanopb/pb_decode.c:1525-1547 | a record of a required, optional or proto3 singular submessage, or of the union member that is set, is decoded onto the submessage its slot holds |
| Submessages.DecodesOntoDefaults | Pods/nanopb/pb_decode.c:466-478 | a record of a union member that is not set is decoded onto the default message |
| Submessages.ElementsStartAfresh | Pods/nanopb/pb_decode.c:1537-1542 | each element of an array of submessages is decoded onto the default message |
| Submessages.MergeSubmessage | Pods/nanopb/pb_decode.c:1525-1547 | a submessage that both messages hold is merged, not replaced |
| Submessages.SecondCopyMerges | Pods/nanopb/pb_decode.c:1525-1547 | after decoding two encodings in a row, a submessage in both keeps from the first every struct member the second does not mention, at every depth |
| Witnesses.TwoCopiesRejected | Pods/nanopb/pb_decode.c:1003-1020 | a message that round-trips while two copies in a row are rejected |
| Concatenation.FullArrayFails | Pods/nanopb/pb_decode.c:1003-1020 | once the only fixed-count array is complete, one more element makes decoding fail |
| Packing.FixedCountIsExact | Pods/nanopb/pb_decode.c:1031-1037 | a message that ends with a fixed-count array's records is accepted only if the array received exactly its number of elements, however they were packed |
| Packing.FixedCountNotInterrupted | Pods/nanopb/pb_decode.c:1003-1014 | a fixed-count array cannot begin while another is short of elements |
| Packing.PackedAndUnpackedAgree | Pods/nanopb/pb_decode.c:424-464 | any two splits of the same elements into packed and unpacked records, empty ones included, give the same success, array and count, anywhere in a message and for fixed-count arrays too; success keeps the count within array_size |
| Packing.ChunksDecode | Pods/nanopb/pb_decode.c:424-464 | a list of packed and unpacked records appends its elements in order, or fails when they exceed array_size |
| Framing.UnknownFieldsAreTransparent | Pods/nanopb/pb_decode.c:966-995 | inserting a record with an unlisted tag at a record boundary changes neither success nor message |
| NestedUnknowns.UnknownAnywhere | Pods/nanopb/pb_decode.c:1525-1547 | the same at any depth: an unknown record at a record boundary inside nested submessages, repeated ones and unions included, changes neither success nor message, and takes exactly its bytes and those of the longer length prefixes |
| Theorems.EncodedFieldIsUnknown | Pods/nanopb/pb_decode.c:278-331 | whatever an encoder emits for a field the decoder does not list is such a record, so later schema additions do not disturb older decoders |
| Framing.DecodeConcat | Pods/nanopb/pb_decode.c:952-1030 | the record loop on two byte strings is the loop on the second from the state the first left |
| Framing.TerminatedIgnoresRest | Pods/nanopb/pb_decode.c:298-319 | after a zero tag nothing that follows is read |
| WireFormat.SkipByNumber | Pods/nanopb/pb_decode.c:278-331 | skipping takes a varint for wire type 0, 8 bytes for 1, a length and its payload for 2, 4 bytes for 5, and fails for every other |
| WireFormat.TagByType | Pods/nanopb/pb_encode.c:669-707 | a record starts with the varint of 8 times the tag plus 0, 1, 2 or 5, by the type of its field |
| WireFormat.PackedTag | Pods/nanopb/pb_encode.c:163-199 | arrays of bool, integer and fixed-width fields are one record of wire type 2: tag, length, elements |
| WireFormat.UnpackedTags | Pods/nanopb/pb_encode.c:207-233 | arrays of bytes, strings and submessages are one record an element |
| WireFormat.PackedByNumber | Pods/nanopb/pb_decode.c:424-464 | wire type 2 makes a number array's record a packed one, any other an element |
| WireFormat.BlobBySize | Pods/nanopb/pb_decode.c:1447-1570 | bytes are taken up to four less than the data size, strings up to one less, fixed-length bytes at exactly the data size or, empty, as zeros |
| WireFormat.BoolByValue | Pods/nanopb/pb_decode.c:1334-1343 | any non-zero varint is true |
| WireFormat.CastsAreCongruent | Pods/nanopb/pb_decode.c:1345-1428 | an integer cast keeps the value modulo the number of values of the type, which SpanOfBytes ties to its bytes |
| Framing.DecodeBodyLocal | Pods/nanopb/pb_decode.c:740-766 | what a record decodes to does not depend on the bytes behind it |
| Soundness.DecodeSound | Pods/nanopb/pb_decode.c:406-483 | for any bytes, a successful decode onto a valid message yields a valid one: counts within array_size, blobs within their space, integers within their width |
| Soundness.RequiredFieldsEnforced | Pods/nanopb/pb_decode.c:1039-1079 | decoding succeeds exactly when the records decode, the last fixed-count array is complete, and each of the first 64 required fields is on the wire |
| WireFormat.FirstSixtyFourRequired | Pods/nanopb/pb_decode.c:1039-1079 | a successful decode has read a record of every required field with fewer than 64 required ones in front of it |
| Witnesses.UntrackedRequiredMayBeMissing | Pods/nanopb/pb_decode.c:1021-1026 | for any type whose last field is required but not among the first 64, an encoding without that field is accepted and leaves its default |
| Witnesses.SixtyFifthMayBeMissing | Pods/nanopb/pb_decode.c:1060-1078 | such a type with 65 required fields |
| Soundness.SeenIffOnWire | Pods/nanopb/pb_decode.c:1021-1026 | a tracked required field is marked exactly when a record with its tag was read |
| DefaultMessages.DefaultsAt | Pods/nanopb/pb_decode.c:845-915 | each struct member of the default message, also in unions, is its field's default; of a fixed-count array the code writes only a count-sized word at the front, and the model shows the rest as zeros too |
| AbsentFields.DefaultsByDescriptor | Pods/nanopb/pb_decode.c:845-915 | in the default message a field with a default pointer holds exactly that value, any other numeric zero, no bytes, zeros or the nested defaults; optional flags are clear, arrays empty, unions unset |
| AbsentFields.AbsentHoldsDefault | Pods/nanopb/pb_decode.c:1084-1096 | decoding any bytes without a record for a struct member leaves it at that |
| DefaultMessages.DefaultsValid | Pods/nanopb/pb_decode.c:917-928 | the default message is valid |
| Varint.VarintRoundTrip | Pods/nanopb/pb_decode.c:255-275 | a 64-bit varint decodes back, taking exactly its own bytes whatever follows |
| Varint.EncodeIsMinimal | Pods/nanopb/pb_encode.c:608-628 | no terminated byte string with the same value is shorter |
| Varint.EncodeAtMostTen | Pods/nanopb/pb_encode.c:608-628 | a 64-bit value takes one to ten bytes |
| Varint.DecodersAgree | Pods/nanopb/pb_decode.c:187-247 | whenever the 32-bit decoder succeeds within ten bytes so does the 64-bit one, on the same bytes, and the values agree modulo 2^32 |
| Varint.Varint32OnCanonical | Pods/nanopb/pb_decode.c:211-243 | exactly which 64-bit values' canonical encodings the 32-bit decoder accepts, and what it makes of them |
| Varint.Accepted32Ranges | Pods/nanopb/pb_decode.c:216-229 | every sign-extended negative 32-bit value is among them, no value from 2^32 up to 2^63 is |
| Varint.Varint32RoundTrip | Pods/nanopb/pb_decode.c:187-253 | every value below 2^32 round-trips through the 32-bit decoder, whatever follows |
| Integers.ZigZagBijection | Pods/nanopb/pb_encode.c:630-639 | zigzag and its inverse are mutually inverse on all 64-bit integers |
| Integers.WireRoundTrip | Pods/nanopb/pb_encode.c:776-833 | signed, unsigned and zigzag fields of 1, 2, 4 and 8 bytes carry every value of their width |
| Integers.RejectsExactlyMisfits | Pods/nanopb/pb_decode.c:1345-1428 | the unsigned and zigzag decoders reject exactly the values that do not fit; the signed one reduces to 32 bits first unless the field has 64 |
| Integers.FixedRoundTrip | Pods/nanopb/pb_encode.c:641-667 | fixed-width values survive little-endian encoding |
| Integers.FixedBound | Pods/nanopb/pb_decode.c:1299-1332 | every byte string of the width is the encoding of exactly the value it decodes to |
| FieldIteration.FieldIter.constructor | Pods/nanopb/pb_common.c:8-27 | the iterator starts at the first field with its data and count pointers and no required field before it |
| FieldIteration.FieldIter.Next | Pods/nanopb/pb_common.c:29-85 | moves to the next field or back to the first, which it reports, and keeps both pointers and the required index those of the field |
| FieldIteration.FieldIter.Find | Pods/nanopb/pb_common.c:87-104 | from any position the cyclic search ends, finds a field exactly when one with the tag exists, and is back at its start when it fails |
| FieldIteration.FieldIter.FindExtension | Pods/nanopb/pb_decode.c:831-842 | the same for the extension pseudo-field |
| FieldIteration.FieldIter.CountRequired | Pods/nanopb/pb_decode.c:1039-1058 | the closing walk, from wherever the iterator stands, counts all required fields |
| FieldIteration.RunningOffsetIsTrue | Pods/nanopb/pb_common.c:29-85 | for descriptors the macros generate from any struct layout, the running sum is the offset of the member that holds the field, shared inside unions of any size |
| FieldIteration.RunningCounterIsTrue | Pods/nanopb/pb_common.c:81-83 | the running count pointer is the offset of the member's count, flag or which_ |
| FieldIteration.FieldIter.PointsAtField | Pods/nanopb/pb_common.c:8-85 | in every reachable state both pointers are those of the member the current field lives in |
| FieldIteration.FieldsDisjoint | Pods/nanopb/pb.h:390-405 | the data of any two fields not in one union, all elements of an array included, does not overlap where the iterator puts it |
| RequiredBitmap.SeenFields.Mark | Pods/nanopb/pb_decode.c:1021-1026 | setting one bit adds exactly that field to the set |
| RequiredBitmap.SeenFields.AllSeen | Pods/nanopb/pb_decode.c:1060-1078 | whole words and remainder mask together decide whether every required field was seen, for every count up to 64 |
| RequiredBitmap.FullWord | Pods/nanopb/pb_decode.c:1064-1067 | a word equals all ones of n bits exactly when each bit below n is set and none above |
| RequiredBitmap.ShiftedOnes | Pods/nanopb/pb_decode.c:1070-1076 | the shifted all-ones word is the mask of the remaining bits |
| InputStreams.IStream.Read | Pods/nanopb/pb_decode.c:102-137 | delivers the next bytes, or consumes nothing; position plus remaining bytes stays constant |
| InputStreams.IStream.ReadVarint | Pods/nanopb/pb_decode.c:255-275 | the loop with shifts and ors computes the 64-bit decoder's value and consumption |
| InputStreams.IStream.ReadVarint32 | Pods/nanopb/pb_decode.c:187-247 | the loop with its eight-bit bit position and sign-extension test computes the 32-bit decoder's, and reports an empty stream |
| InputStreams.Accumulate64 | Pods/nanopb/pb_decode.c:271-273 | or-ing in seven more bits modulo 2^64 extends the value read so far, the tenth byte's lost bits included |
| InputStreams.IStream.SkipVarintBytes | Pods/nanopb/pb_decode.c:278-287 | skips exactly one terminated varint of any length |
| InputStreams.IStream.MakeSubstream | Pods/nanopb/pb_decode.c:372-385 | the substream holds exactly the payload, and the parent counts it as consumed |
| InputStreams.IStream.CloseSubstream | Pods/nanopb/pb_decode.c:387-400 | however much the nested decoder read, the parent ends exactly behind the payload |
| InputStreams.IStream.SkipBody | Pods/nanopb/pb_decode.c:321-331 | skips exactly one field of the wire type, or fails |
| InputStreams.IStream.ReadTag | Pods/nanopb/pb_decode.c:298-319 | splits a tag, and tells the end of the message from an error |
| Decoder.ReadFixed | Pods/nanopb/pb_decode.c:1299-1332 | joining the bytes by shifts gives the little-endian value |
| Decoder.ReadInteger | Pods/nanopb/pb_decode.c:1345-1428 | clamp and compare decode exactly the values `Integers` says fit |
| Decoder.ReadBlob | Pods/nanopb/pb_decode.c:1447-1523 | bytes, strings and fixed-length bytes with their size checks, the 32-bit overflow of size + 1 included |
| Decoder.SetToDefaults | Pods/nanopb/pb_decode.c:917-928 | the iterator walk writes every field's default |
| Decoder.ReadValue | Pods/nanopb/pb_decode.c:1525-1547 | a submessage is decoded in its own substream, and the parent goes on behind it |
| Decoder.ReadPacked | Pods/nanopb/pb_decode.c:426-452 | the element loop stores the packed elements in order and fails when the array overflows |
| Decoder.ReadSlot | Pods/nanopb/pb_decode.c:406-483 | stores one record into its struct member, by repetition rule |
| Decoder.ReadKnown | Pods/nanopb/pb_decode.c:997-1029 | fixed-count bookkeeping, bitmap and field decoding of a record whose field was found |
| Decoder.ReadUnknown | Pods/nanopb/pb_decode.c:966-995 | a record no field has is skipped exactly |
| Decoder.Complete | Pods/nanopb/pb_decode.c:1031-1079 | the closing checks accept exactly a complete last fixed-count array and a full set of tracked required fields |
| Decoder.ReadMessage | Pods/nanopb/pb_decode.c:934-1082 | `pb_decode_noinit` terminates on any bytes and computes the decoding function: success, message and bytes consumed |
| Decoder.ReadNewMessage | Pods/nanopb/pb_decode.c:1084-1096 | `pb_decode` likewise, from the default message |
| Decoder.ReadDelimited | Pods/nanopb/pb_decode.c:1113-1126 | a delimited message is decoded from its payload alone, and the stream ends behind it |
| OutputStreams.OStream.BufWrite | Pods/nanopb/pb_encode.c:74-84 | writes the bytes at the write position and no others |
| OutputStreams.OStream.Write | Pods/nanopb/pb_encode.c:103-124 | succeeds exactly when there is room, the wrap-around of the size sum included, emits exactly the data, and otherwise changes nothing |
| OutputStreams.VarintBytes | Pods/nanopb/pb_encode.c:618-627 | the buffer loop produces the canonical varint |
| OutputStreams.OStream.WriteSvarint | Pods/nanopb/pb_encode.c:630-639 | shift and complement produce the zigzag value's varint |
| OutputStreams.OStream.WriteFixed | Pods/nanopb/pb_encode.c:641-667 | shift and mask produce the little-endian bytes |
| Encoder.StringLength | Pods/nanopb/pb_encode.c:889-894 | the loop finds the first NUL, if there is one |
| Encoder.WriteScalar | Pods/nanopb/pb_encode.c:769-910 | each scalar encoder emits its field's encoding or fails without touching other bytes |
| Encoder.WriteSubmessage | Pods/nanopb/pb_encode.c:717-765 | sizing pass and limited writing pass together emit length and payload; the sizes cannot differ |
| Encoder.SubstreamWritten | Pods/nanopb/pb_encode.c:744-764 | a substream limited to the announced size receives exactly the payload |
| Encoder.EncodedSize | Pods/nanopb/pb_encode.c:567-576 | `pb_get_encoded_size` is the length of the encoding, for exactly the messages that have one |
| Encoder.PackedSize | Pods/nanopb/pb_encode.c:170-195 | computed or counted, the announced size is the length of the packed elements |
| Encoder.WriteArray | Pods/nanopb/pb_encode.c:147-236 | arrays are emitted packed when possible, else one record each, and refused above array_size |
| Encoder.CheckDefault | Pods/nanopb/pb_encode.c:240-336 | the proto3 check, recursive over submessages by iterator, decides whether the field holds its default |
| Presence.DefaultIffEmpty | Pods/nanopb/pb_encode.c:240-336 | the recursive check succeeds for a submessage exactly when nothing would be emitted for it |
| Presence.ImplicitPresence | Pods/nanopb/pb_encode.c:341-388 | a proto3 singular field is left out exactly when it is numeric zero, has no bytes, is a string that ends at once or a submessage of which nothing would be emitted |
| Presence.ExplicitPresence | Pods/nanopb/pb_encode.c:371-423 | the other fields are left out exactly when flag, count or which_ says so |
| Encoder.WriteField | Pods/nanopb/pb_encode.c:341-426 | which fields are emitted, by repetition rule and presence |
| Encoder.WriteMessage | Pods/nanopb/pb_encode.c:528-550 | `pb_encode` succeeds exactly when the message has an encoding that fits, emits exactly it, and confines every write to its space |
| Encoder.SizingRefinesWriting | Pods/nanopb/pb_encode.c:717-765 | a memory stream succeeds exactly when the sizing stream does and its count fits the remaining space, and then emits exactly that many bytes, the encoding |
| CredentialRefresh.EveryRunConserves | Pods/Alamofire/Source/AuthenticationInterceptor.swift:250-402 | in every run each completion is in exactly one place (with its caller, queued, in a dispatched batch, called), queues are empty unless a refresh is in flight, exactly one refresh is outstanding while isRefreshing, and adapt and retry completions get answers of their kind |
| CredentialRefresh.QuietMeansAnswered | Pods/Alamofire/Source/AuthenticationInterceptor.swift:370-402 | whenever nothing is left to run every completion has been called exactly once |
| CredentialAnswers.EveryRunAnswers | Pods/Alamofire/Source/AuthenticationInterceptor.swift:276-402 | in every run each completion is called with the right answer, told from the history of the run: a failed wait gives its error, a decided adaptation the credential in force at its decision, a decided retry the answer of its decision |
| CredentialAnswers.WaitingRetryAnswered | Pods/Alamofire/Source/AuthenticationInterceptor.swift:370-402 | in every run a retry that waited is told to retry exactly when the refresh it waited for succeeded, and else given that refresh's error |
| CredentialAnswers.BatchRunsInOrder | Pods/Alamofire/Source/AuthenticationInterceptor.swift:376-401 | a batch repeats or fails its adaptations first and then answers its retries, each in the order in which they began to wait |
| CredentialRefresh.EveryRunKeepsQueues | Pods/Alamofire/Source/AuthenticationInterceptor.swift:250-402 | in every run the queue invariant the lock sections rely on holds between them |
| CredentialRefresh.EveryRunBoundsRate | Pods/Alamofire/Source/AuthenticationInterceptor.swift:330-368 | in every run any window of the configured length holds at most maximumAttempts started refreshes, though the clock is read twice |
| CredentialAnswers.RefusedIffFull | Pods/Alamofire/Source/AuthenticationInterceptor.swift:355-368 | in every run a refresh is refused if and only if the window ending at the test already holds maximumAttempts started refreshes |
| CredentialAnswers.StartsAreBounded | Pods/Alamofire/Source/AuthenticationInterceptor.swift:330-353 | what is recorded are exactly the refreshes handed to the queue, at their times; so the bound holds of these |
| CredentialRefresh.StaleRetryRefreshes | Pods/Alamofire/Source/AuthenticationInterceptor.swift:307-325 | whatever happens between a retry's reading of the credential and its lock section, the section starts a refresh of the credential read if and only if none is in flight and the rate allows it; that it is out of date by then takes an event that replaced it |
| CredentialRefresh.RefreshedTwice | Pods/Alamofire/Source/AuthenticationInterceptor.swift:307-325 | a run in which such a retry starts a second refresh, of the replaced credential, after the first succeeded |
| CredentialRefresh.RecordKeepsRate | Pods/Alamofire/Source/AuthenticationInterceptor.swift:355-368 | a start recorded after a passed test keeps the bound for every window, however late it is recorded |
| CredentialRefresh.StepPlaces | Pods/Alamofire/Source/AuthenticationInterceptor.swift:250-402 | no step but a new call changes how often a completion occurs |
| CredentialRefresh.StepOneRefresh | Pods/Alamofire/Source/AuthenticationInterceptor.swift:330-353 | every step keeps one refresh in flight exactly while isRefreshing, the excessive-refresh path included |
| CredentialRefresh.AuthenticationInterceptor.IsRefreshExcessive | Pods/Alamofire/Source/AuthenticationInterceptor.swift:355-368 | decides by counting the starts inside the window |
| CredentialRefresh.AuthenticationInterceptor.Refresh | Pods/Alamofire/Source/AuthenticationInterceptor.swift:330-353 | afterwards one refresh is in flight and everything still waits for it, or everything that waited is in one failing batch; the rate bound holds whatever time passed between test and record |
| CredentialRefresh.AuthenticationInterceptor.AdaptSection | Pods/Alamofire/Source/AuthenticationInterceptor.swift:250-274 | keeps the class invariant (queues of the right kind, empty unless refreshing, rate bounded); every completion waits or is dispatched as often as before, the new one once exactly when it is deferred |
| CredentialRefresh.AuthenticationInterceptor.RetrySection | Pods/Alamofire/Source/AuthenticationInterceptor.swift:319-325 | keeps the class invariant; no waiting completion is lost or doubled, the new one is added once, and a refresh starts only when none was in flight |
| CredentialRefresh.AuthenticationInterceptor.HandleRefreshSuccess | Pods/Alamofire/Source/AuthenticationInterceptor.swift:370-386 | the batch holds exactly the completions that waited, as often as they waited, none waits any more, and the new credential is in force |
| CredentialRefresh.AuthenticationInterceptor.HandleRefreshFailure | Pods/Alamofire/Source/AuthenticationInterceptor.swift:388-402 | the failing batch holds exactly the completions that waited, also when no refresh was in flight |
| SerializerPipeline.OneTokenInFirstPass | Pods/Alamofire/Source/Request.swift:513-601 | until the first pass clears, at most one processing call is alive, serializers start and complete in order, and no completion has been called |
| SerializerPipeline.FirstPassRunsOnce | Pods/Alamofire/Source/Request.swift:554-610 | in every run a serializer appended before the first clearing runs if and only if it was appended before the lookup that came up empty, then exactly once, in order and completed before any completion is called; all appended before finish are among them |
| SerializerPipeline.QuietMeansCalled | Pods/Alamofire/Source/Request.swift:569-601 | when no processing call is left the completions of the first pass have been called exactly once, side by side, in order of appending |
| SerializerPipeline.StartsAgainIff | Pods/Alamofire/Source/Request.swift:554-566 | in every run a lookup starts a serializer that was started before if and only if another processing call has it in flight |
| SerializerPipeline.ClearingEndsStarts | Pods/Alamofire/Source/Request.swift:569-601 | after any clearing no serializer appended before it is started again, so one not started by then never runs |
| SerializerPipeline.SerialPassesRunOnce | Pods/Alamofire/Source/Request.swift:533-610 | when late appends and finishes keep to moments without a processing call, no serializer ever starts twice and in every quiet moment all but those dropped by the first clearing have run and been completed and called exactly once, in order |
| SerializerPipeline.LostBetweenLookupAndClear | Pods/Alamofire/Source/Request.swift:554-601 | a run that shows the condition of FirstPassRunsOnce failing: appended between the two sections, dropped |
| SerializerPipeline.LateAppendsRunTwice | Pods/Alamofire/Source/Request.swift:541-543 | a run that shows the condition of StartsAgainIff holding: a late serializer, appended while no processing call was alive, started twice because of the next one |
| SerializerPipeline.CancelledIsFinal | Pods/Alamofire/Source/Request.swift:50-63 | no step leaves the cancelled state |
| SerializerPipeline.AllowedTransitions | Pods/Alamofire/Source/Request.swift:50-63 | the eleven allowed transitions of a request's state, and no others |
| SerializerPipeline.QuietIsSettled | Pods/Alamofire/Source/Request.swift:533-598 | in every run, when no processing call is left after the first pass, the request is finished or cancelled and can finish again; an append then revives and processes it unless it was cancelled |
| SerializerPipeline.Request.Finish | Pods/Alamofire/Source/Request.swift:513-526 | only the first finish of a pass starts processing |
| TaskJoin.EveryRun | Pods/Alamofire/Source/Session.swift:1229-1250 | in every run no fatalError is reached, the maps are mutual inverses with events on the same keys, waiting completions are exactly those of completed entries without metrics, and each completion was called once if both events arrived and not before |
| TaskJoin.StepFires | Pods/Alamofire/Source/Session.swift:1229-1250 | a completion is called exactly when the second of its two events arrives, in either order |
| TaskJoin.InvIsValid | Pods/Alamofire/Source/Session.swift:1229-1250 | in every reachable state the session invariant its methods require holds |
| TaskJoin.AssociateKeepsInverse | Pods/Alamofire/Source/RequestTaskMap.swift:47-87 | the setter keeps the maps inverse if and only if neither side is mapped elsewhere |
| TaskJoin.DisassociateKeepsInverse | Pods/Alamofire/Source/RequestTaskMap.swift:47-87 | removing by either key takes out the same pair and keeps the maps inverse |
| TaskJoin.Session.SetTask | Pods/Alamofire/Source/RequestTaskMap.swift:47-66 | a new pair keeps the map consistent if and only if neither side is mapped elsewhere; removal always does, and is fatal exactly when the request is unmapped |
| TaskJoin.Session.SetRequest | Pods/Alamofire/Source/RequestTaskMap.swift:68-87 | the same by URL session task |
| TaskJoin.Session.DisassociateIfNecessaryAfterGatheringMetrics | Pods/Alamofire/Source/RequestTaskMap.swift:115-125 | keeps the map consistent, is fatal exactly for an unmapped entry or a duplicate, and takes the pair out exactly when it had completed |
| TaskJoin.Session.DisassociateIfNecessaryAfterCompleting | Pods/Alamofire/Source/RequestTaskMap.swift:127-147 | the same with the two events exchanged |
| TaskJoin.Session.DidGatherMetrics | Pods/Alamofire/Source/Session.swift:1229-1238 | keeps the session invariant (consistent map, waiting completions exactly those of completed entries) and calls a completion exactly when one was waiting |
| TaskJoin.Session.DidComplete | Pods/Alamofire/Source/Session.swift:1240-1250 | keeps the session invariant; the completion is called at once exactly when metrics came first, and else waits |
| StreamCounter.CounterIsOutstanding | Pods/Alamofire/Source/Request.swift:1316-1330 | in every run numberOfExecutingStreams is the number of outstanding parser runs, and completions are enqueued only while it is positive |
| StreamCounter.ReleasedAfterDelivery | Pods/Alamofire/Source/ResponseSerialization.swift:1251-1261 | when a section lets completions go, every piece of data received so far has been delivered, as often as there were streams for it |
| StreamCounter.DispatchedAfterDelivery | Pods/Alamofire/Source/Request.swift:1393-1422 | in every run in which no data with a stream to parse it arrives after a release, each completion is dispatched at a moment when all data received so far has been delivered |
| StreamCounter.DispatchCompleteIff | Pods/Alamofire/Source/ResponseSerialization.swift:1251-1261 | in every run, when released completions reach their dispatch, all data received before they were handed over has been delivered, and all data received so far has been if and only if every piece received since has |
| StreamCounter.DispatchedOnce | Pods/Alamofire/Source/Request.swift:1393-1412 | no completion is released or dispatched twice; each that arrived has been released as soon as nothing is outstanding, and dispatched once the underlying queue has carried it across |
| StreamCounter.ReleasedInOrder | Pods/Alamofire/Source/Request.swift:1393-1412 | in every run completions are released in the order in which they arrived |
| StreamCounter.LateDataOvertaken | Pods/Alamofire/Source/ResponseSerialization.swift:1251-1261 | a run that shows the condition of DispatchCompleteIff failing |
| StreamCounter.DataStreamRequest.DidReceive | Pods/Alamofire/Source/Request.swift:1316-1330 | the block holds this piece of data once for each registered stream, and the counter grows by exactly the runs it will start |
| StreamCounter.DataStreamRequest.CompletionSection | Pods/Alamofire/Source/Request.swift:1393-1412 | the completion waits or is dispatched, not both, and dispatched only when no run is outstanding; completions wait only while the counter is positive |
| StreamCounter.DataStreamRequest.UpdateAndCompleteIfPossible | Pods/Alamofire/Source/ResponseSerialization.swift:1251-1261 | the last run lets go all waiting completions in order, any other none; none is lost, doubled or left without a run to release it |
| Multipart.StreamingAgrees | Pods/Alamofire/Source/MultipartFormData.swift:322-371 | whenever encode succeeds the streaming writer emits the same bytes, for every split of reads and short writes, both a multipart body of section 5.1.1 of RFC 2046, exactly as long as the space suffices |
| Multipart.EmitsLayout | Pods/Alamofire/Source/MultipartFormData.swift:64-77 | the boundaries by flag add up to the delimiter layout of section 5.1.1 of RFC 2046 |
| Multipart.BodyDeterminesSections | Pods/Alamofire/Source/MultipartFormData.swift:375-392 | when the delimiter occurs in no section, the body determines the sections |
| MultipartHeaders.HeadersReadBack | Pods/Alamofire/Source/MultipartFormData.swift:394-400 | a header reader of its own recovers exactly the names, the values and the content from a part, for names without colons and values without line breaks |
| MultipartHeaders.EncodedFormDetermines | Pods/Alamofire/Source/MultipartFormData.swift:322-400 | two forms that encode to the same bytes have the same headers and contents, part by part |
| MultipartHeaders.BodyBytes | Pods/Alamofire/Source/MultipartFormData.swift:64-77 | the delimiter lines in their bytes |
| Multipart.FirstOccurrence | Pods/Alamofire/Source/MultipartFormData.swift:64-77 | the first delimiter in the body is the one that ends the first section |
| Multipart.EncodersCompared | Pods/Alamofire/Source/MultipartFormData.swift:402-509 | for every form and stream: with enough space the writer succeeds exactly when all parts can be read, encode exactly when the lengths hold besides; bytes are missing without an error exactly when the stream only reports that no space is left and its limit is below the length |
| Multipart.EncodeBothWays | Pods/Alamofire/Source/MultipartFormData.swift:322-371 | the two methods on two equal forms: whenever the in-memory one succeeds so does the streaming one, with identical bytes, whatever sizes reads and writes have |
| Multipart.WriteBuffer | Pods/Alamofire/Source/MultipartFormData.swift:493-509 | any sequence of short writes puts out the whole buffer, or as much as the stream accepts, with an error exactly when writing reports one |
| Multipart.EncodeBodyStream | Pods/Alamofire/Source/MultipartFormData.swift:402-431 | any split of reads yields the content, and succeeds exactly when reading does not fail and the length is as announced |
| Multipart.WriteBodyStream | Pods/Alamofire/Source/MultipartFormData.swift:452-476 | any split of reads and short writes copies the content; no length is compared |
| Multipart.EncodePart | Pods/Alamofire/Source/MultipartFormData.swift:375-392 | one part between its boundaries, in memory |
| Multipart.WritePart | Pods/Alamofire/Source/MultipartFormData.swift:435-484 | the same bytes through a stream, in four writes, exact also when the stream runs full in between |
| Multipart.MultipartFormData.Append | Pods/Alamofire/Source/MultipartFormData.swift:307-310 | appends a part without flags |
| Multipart.MultipartFormData.Encode | Pods/Alamofire/Source/MultipartFormData.swift:322-339 | succeeds exactly when all parts can be read with the announced length, returns their bytes, and leaves the first and last part flagged |
| Multipart.MultipartFormData.WriteEncodedData | Pods/Alamofire/Source/MultipartFormData.swift:347-371 | the stream receives those bytes, or its limit's worth of them, and the call fails exactly when reading or writing does |

## Left out

- Callback fields, extension fields and custom stream callbacks of nanopb: arbitrary user code. The search for
  an extension field is modelled; in a well-formed descriptor it finds none.
- Pointer allocation (`PB_ENABLE_MALLOC`) and the variants `PB_WITHOUT_64BIT`, `PB_OLD_CALLBACK_STYLE`,
  `PB_BUFFER_ONLY` and `PB_ENCODE_ARRAYS_UNPACKED`. The modelled configuration is static allocation with a
  32-bit `pb_size_t`, as the generated telemetry messages demand.
- Memory layout of messages: the message is a value that decoding takes and returns, so aliasing of the
  destination, the raw bytes left behind in a union and the old bytes of array elements beyond the count are not
  captured. A fixed-count array that was never received is shown as zeros. The offsets the iterator computes are
  proved separately, as prefix sums.
- A value whose shape does not match its field's type, which the C type system rules out, has no encoding.
- Error message texts, and what a failed decode leaves in the destination: the methods of `Decoder` promise nothing
  about the message then.
- The count of a sizing stream is unbounded, so its wrap-around at 2^64 bytes is not modelled.
- OutputStreams.VarintBytes: its ten-byte buffer is a sequence; an assertion in the loop shows that a 64-bit value
  stays within ten bytes.
- Theorems.MessageRoundTrip: needs each length-delimited part shorter than 2^32 bytes, because its length is read
  back by the 32-bit varint decoder; the message as a whole may be longer.
- DefaultMessages.DefaultsAt: shows fixed-count arrays as zeros, where the code leaves all but a count-sized word
  at the front as it was. A decode that receives the array overwrites all of it.
- Varint.DecodersAgree: for varints of at most ten bytes, because the bit position of the 32-bit decoder wraps
  on longer ones.
- Descriptor macros, struct padding and alignment of pb.h; `pb_decode_nullterminated`, `pb_decode_noinit` variants
  and `pb_encode_nullterminated`, which add only easy members.
- Alamofire's `reset` and retry of a request in the serializer pipeline: the runs of `SerializerPipeline` have
  none.
- The `URLRequest`, session and response values that pass through adapt and retry: the decisions taken on them
  are free choices of the events.
- StreamCounter.DispatchedAfterDelivery: assumes that no data arrives after a release; what holds when it does is
  `StreamCounter.DispatchCompleteIff`.
- SerializerPipeline.SerialPassesRunOnce: assumes that late appends and finishes keep to quiet moments; what
  happens otherwise is `SerializerPipeline.StartsAgainIff`.
- Packing.PackedAndUnpackedAgree: an empty list of records and a list of empty packed ones are not compared for a
  fixed-count array that has not begun, because only the latter begins it.
- CredentialRefresh.EveryRunConserves: assumes that the authenticator answers each refresh once.
- TaskJoin.EveryRun: assumes pairs associated only when both sides are unmapped and each event arriving once;
  session invalidation and the branches for platforms without metrics are not modelled.
- Multipart.StreamingAgrees: for forms not encoded before. Encoding consumes the input streams and leaves the
  boundary flags set.
- In the multipart model strings are byte strings, without the conversion to UTF-8; MIME types, content headers, file checks,
  and streams that transfer nothing without reporting an error are not modelled; neither is the random choice of
  a boundary.
- Reference counting, weak references and deinitialisation; event monitors; Combine and async adapters; trust
  evaluation, reachability and networking.
- The application itself: views, Core Data, package tracking service and masks, which have little logic of
  their own.
