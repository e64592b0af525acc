# protobuf_trial: UUID codec and envelope validation, in Dafny

This project models the logic in the `protobuf_trial` test helpers that can
actually go wrong:

- **The UUID codec** (`UtilsForProtobufUuid`). A `java.util.UUID` is two
  signed 64-bit halves. It has two protobuf forms:
  - the pair form, message `UuidSimple`, with the fields `high` and `low`;
  - the 16-byte array form, message `Uuid`, with the field `data`. The
    array form is built byte by byte by `writeLongBigEndianly` and read back
    by `readLongBigEndianly`.

  The codec also has the nil test and the hex dump `bytesToString`.
- **The `CommonData` record.** Its constructor checks its arguments, and
  `toProtobufCommonStuff` maps it into the `CommonStuff` sub-message. The
  packages `common` and `name.pomelo.protobuf_trial.test.common` each have a
  copy of this class. The two copies' constructors and
  `toProtobufCommonStuff` run the same steps, and the module `Common`
  models both. The copies differ in the classes they call: `common` uses
  `common.UtilsForProtobufUuid` and the `heavycarbon` `CommonStuff`, while
  `pomelo` uses its own package's `UtilsForProtobufUuid` and the `pomelo`
  `CommonStuff`. The `pomelo` copy also has a random generator, which is
  left out.
- **The two envelope validators** (`verifyClientToServerMessage` and
  `verifyServerToClientMessage`), the `deserialize` wrappers around them,
  and the thirteen `build*` helpers.

Modules:

- `Wrappers`: `Option`, `Result` and `Outcome`.
- `JavaArith`: Java `int`, `long` and `byte`, and the long operators
  `&`, `|`, `<<` and `>>`.
- `ByteStreams`: `ByteArrayInputStream` and `ByteArrayOutputStream`, as
  classes.
- `Protos`: the generated message classes, as datatypes.
- `ProtobufUuid`: the codec.
- `Common`: the record.
- `Envelope`: what the two validators share.
- `ClientToServerMsgs` and `ServerToClientMsgs`: one module per envelope.

Modelling choices:

- **Longs.** A Java `long` is the integer it denotes, in -2^63 .. 2^63-1.
  `Unsigned` gives its 64-bit two's complement pattern. The operators follow
  chapter 15 of the Java Language Specification:
  - `>>` is floor division by a power of two (section 15.19);
  - `<<` multiplies and wraps to 64 bits (section 15.19);
  - `&` and `|` work bit by bit on the patterns (section 15.22.1).
- **Bytes.** A byte is held as the unsigned value of its eight bits, 0..255.
  That is what `InputStream.read()` returns and what `%02x` prints.
- **Byte order.** The method names and the comment at
  `common/UtilsForProtobufUuid.java:85-86` say "big endian". The loops do the
  opposite:
  - within each 8-byte half, the least significant byte comes first;
  - the least significant half fills bytes 0..7 and the most significant
    half fills bytes 8..15.

  The model follows the loops. `ArrayFormLayout` states the resulting
  layout.
- **Short input.** Decoding a short `data` field is not an error. `read()`
  returns -1 at the end of the stream, and the loop then returns what it has
  read so far. So missing bytes count as zero, and bytes after the 16th are
  never read.
- **Sub-messages.** A sub-message field has wire presence, so it is an
  `Option`: `hasX()` is `x.Some?`. Its getter yields the default instance
  when the field is unset. An unset exchange UUID therefore reads as the
  nil UUID (0, 0).
- **Payload types.** Each `PayloadType` enum has the constants its
  validator's `switch` names. It also has `OtherValue(n)`, which stands for
  any constant the switch does not name and so reaches the `default:`
  branch.
- **Validator verdicts.** A validator's verdict is an `Outcome`: `Pass`, or
  `Fail` with the kind of the first exception thrown. `Violated(m, e)`
  states each rule on its own. `Verify` is proved to pass exactly when no
  rule is broken, and otherwise to fail with a broken rule that no earlier
  check (by `Rank`) also catches.
- **Builders.** Every builder is a function of its inputs, so equal inputs
  give equal envelopes.

## Model

| member | source | states |
|---|---|---|
| JavaArith.AndLowByte | src/test/java/common/UtilsForProtobufUuid.java:80 | `x & 0xFF` is the low byte of the long's pattern, x mod 256, for either sign of x |
| JavaArith.ShiftRightByte | src/test/java/common/UtilsForProtobufUuid.java:81 | `x >> 8` is floor(x / 256) and keeps the sign |
| ByteStreams.ByteInput.constructor | src/test/java/common/UtilsForProtobufUuid.java:65 | a stream over `data` has all of `data` still to deliver |
| ByteStreams.ByteInput.Read | src/test/java/common/UtilsForProtobufUuid.java:40-41 | `read()` delivers the next byte (0..255) and moves past it; at the end it returns -1 and does not move |
| ByteStreams.ByteOutput.constructor | src/test/java/common/UtilsForProtobufUuid.java:89 | a new output stream holds no bytes |
| ByteStreams.ByteOutput.Write | src/test/java/common/UtilsForProtobufUuid.java:80 | `write(int)` appends exactly the low eight bits of its argument |
| ByteStreams.ByteOutput.ToByteArray | src/test/java/common/UtilsForProtobufUuid.java:92 | `toByteArray()` is a fresh array holding every byte written, in order |
| Protos.JavaIntOfUnsigned | src/test/java/name/heavycarbon/protobuf_trial/test/common/UtilsForProtobufClientToServerMsgs.java:20-24 | an unsigned 32-bit wire value read into an `int` is negative exactly when it is 2^31 or more, and is congruent to it mod 2^32 |
| ProtobufUuid.JavaUuidToProtobufUuidSimple | src/test/java/common/UtilsForProtobufUuid.java:51-56 | `high` is the most and `low` the least significant half; the pair is nil iff the UUID is |
| ProtobufUuid.ProtobufUuidSimpleToJavaUuid | src/test/java/common/UtilsForProtobufUuid.java:71-75 | the UUID's halves are `high` and `low`; the UUID is nil iff the pair is |
| ProtobufUuid.PairFormRoundTrip | src/test/java/protos/TestProtobufUuidSimple.java:22-40 | the pair form loses nothing: both compositions of the two conversions are the identity |
| ProtobufUuid.NilOverloadsAgree | src/test/java/common/UtilsForProtobufUuid.java:29-35 | the two `isNilUuid` overloads agree through the pair form; nil means both halves 0; the default `UuidSimple` reads back as nil |
| ProtobufUuid.ReadStep | src/test/java/common/UtilsForProtobufUuid.java:45 | or-ing `(long) n << 8i` into the accumulator after i bytes puts byte n at bit 8i: the accumulator becomes the long of the i + 1 bytes read |
| ProtobufUuid.WrittenByteAt | src/test/java/common/UtilsForProtobufUuid.java:79-82 | the k-th byte written is the low byte of the value after k shifts |
| ProtobufUuid.ShiftedIsShiftRight | src/test/java/common/UtilsForProtobufUuid.java:81 | k rounds of `>>= 8` shift arithmetically by 8k bits |
| ProtobufUuid.WrittenBytesValue | src/test/java/common/UtilsForProtobufUuid.java:77-83 | the bytes written so far, read least significant first, plus the still-unshifted rest above them, give back the value |
| ProtobufUuid.LongBytesPattern | src/test/java/common/UtilsForProtobufUuid.java:77-83 | the eight bytes written for a long are its two's complement pattern, least significant byte first |
| ProtobufUuid.LongRoundTrip | src/test/java/common/UtilsForProtobufUuid.java:37-49 | reading back the eight bytes written for any long gives the long, negative ones included |
| ProtobufUuid.BytesRoundTrip | src/test/java/common/UtilsForProtobufUuid.java:37-49 | writing out the long read from any eight bytes gives those bytes back |
| ProtobufUuid.ZeroPadding | src/test/java/common/UtilsForProtobufUuid.java:41-43 | stopping early at the end of the data reads as if the missing bytes were zeros |
| ProtobufUuid.ArrayForm | src/test/java/common/UtilsForProtobufUuid.java:88-93 | the array form has exactly 16 bytes |
| ProtobufUuid.ArrayFormLayout | src/test/java/common/UtilsForProtobufUuid.java:88-93 | byte k is `(lsb >> 8k) & 0xFF` and byte 8 + k is `(msb >> 8k) & 0xFF`, for k in 0..7, whatever the signs |
| ProtobufUuid.ArrayFormRoundTrip | src/test/java/common/UtilsForProtobufUuid.java:58-69 | decoding the array form gives back every one of the 2^128 UUIDs, as the pair form does |
| ProtobufUuid.DecodeReadsPadded16 | src/test/java/common/UtilsForProtobufUuid.java:64-69 | decoding reads the data cut or zero-padded to 16 bytes, and re-encoding the result gives exactly those 16 bytes; empty data decodes to the nil UUID |
| ProtobufUuid.OnlySixteenBytesRead | src/test/java/common/UtilsForProtobufUuid.java:64-69 | bytes after the 16th do not change the decoded UUID |
| ProtobufUuid.WriteLongBigEndianly | src/test/java/common/UtilsForProtobufUuid.java:77-83 | the loop appends exactly the eight bytes of the value, least significant first |
| ProtobufUuid.ReadLongBigEndianly | src/test/java/common/UtilsForProtobufUuid.java:37-49 | the loop returns the long of the next (at most eight) bytes and consumes exactly those bytes |
| ProtobufUuid.UuidToBigEndianArray | src/test/java/common/UtilsForProtobufUuid.java:88-93 | the array holds the least significant half's bytes, then the most significant half's |
| ProtobufUuid.JavaUuidToProtobufUuid | src/test/java/common/UtilsForProtobufUuid.java:58-62 | `data` is the array form, and decoding it gives back the UUID |
| ProtobufUuid.ProtobufUuidToJavaUuid | src/test/java/common/UtilsForProtobufUuid.java:64-69 | two reads from one stream decode `data` as the array-form decoder does: low half first, then high half |
| ProtobufUuid.HexByte | src/test/java/common/UtilsForProtobufUuid.java:104 | `%02x` gives exactly two characters |
| ProtobufUuid.HexByteInverse | src/test/java/common/UtilsForProtobufUuid.java:104 | both characters are hex digits, and together they give back the byte |
| ProtobufUuid.HexJoinLayout | src/test/java/common/UtilsForProtobufUuid.java:100-105 | a dump of n bytes has 3n - 1 characters: byte k at 3k and 3k + 1, and a "." at 3k - 1 between bytes |
| ProtobufUuid.HexDumpInjective | src/test/java/common/UtilsForProtobufUuid.java:95-108 | different byte arrays give different dumps, "[empty]" included |
| ProtobufUuid.BytesToString | src/test/java/common/UtilsForProtobufUuid.java:95-108 | the loop yields "[empty]" for an empty array, and otherwise the bytes in hex joined by "." |
| Common.NewCommonData | src/test/java/common/CommonData.java:24-37 | construction succeeds iff seqNum > 0 and each non-null UUID is non-nil; a success stores the arguments unchanged; a failure names a broken check, and seqNum is checked first, then the client UUID, then the server UUID (the constructor at name/pomelo/protobuf_trial/test/common/CommonData.java:23-36 runs the same checks, through its own package's `isNilUuid`) |
| Common.NullUuidsAccepted | src/test/java/common/CommonData.java:28-33 | null UUIDs are accepted; a present nil client UUID is rejected |
| Common.CommonStuffOf | src/test/java/common/CommonData.java:39-53 | seqNum is copied; each UUID field is set iff the record's UUID is non-null, and converts back to it; an unset field reads as nil |
| Common.ToProtobufCommonStuff | src/test/java/common/CommonData.java:39-53 | the step-by-step builder yields that `CommonStuff` (the method at name/pomelo/protobuf_trial/test/common/CommonData.java:38-52 runs the same steps, through its own package's `UtilsForProtobufUuid` and `CommonStuff`) |
| Common.CommonStuffOfValid | src/test/java/common/CommonData.java:44-51 | for a valid record, seqNum is positive and a UUID field reads as nil iff the record's UUID is null |
| Envelope.Rank | src/test/java/name/heavycarbon/protobuf_trial/test/common/UtilsForProtobufClientToServerMsgs.java:19-77 | the checks run in this order: seqNum, then payload, then client UUID, then server UUID |
| Envelope.AndThen | src/test/java/name/heavycarbon/protobuf_trial/test/common/UtilsForProtobufClientToServerMsgs.java:19-77 | a later check runs only when the earlier one passes: a failure of the first is the verdict, and after a pass the verdict is the next check's |
| Envelope.CheckSeqNum | src/test/java/name/heavycarbon/protobuf_trial/test/common/UtilsForProtobufServerToClientMsgs.java:17-22 | passes iff seqNum > 0 |
| Envelope.CheckExchangeUuids | src/test/java/name/heavycarbon/protobuf_trial/test/common/UtilsForProtobufServerToClientMsgs.java:102-107 | passes iff neither exchange UUID is nil; the client UUID is reported first |
| Envelope.UnsetExchangeUuidRejected | src/test/java/name/heavycarbon/protobuf_trial/test/common/UtilsForProtobufClientToServerMsgs.java:69-76 | an unset exchange UUID is rejected like a nil one |
| ClientToServerMsgs.CheckPayload | src/test/java/name/heavycarbon/protobuf_trial/test/common/UtilsForProtobufClientToServerMsgs.java:32-68 | passes iff the type is LOGIN_REQUEST or LOGIN_FINISH, or LOGIN_CHALLENGE_SOLVED with its sub-message, or LOGIN_FOLLOWUP with its sub-message and a non-empty username; a failure is a broken payload rule |
| ClientToServerMsgs.Verify | src/test/java/name/heavycarbon/protobuf_trial/test/common/UtilsForProtobufClientToServerMsgs.java:19-77 | passes iff no rule is broken; otherwise it reports a broken rule such that every earlier check holds |
| ClientToServerMsgs.Deserialize | src/test/java/name/heavycarbon/protobuf_trial/test/common/UtilsForProtobufClientToServerMsgs.java:83-87 | returns the parsed message unchanged iff it parsed and verifies; otherwise it reports the parse failure, or exactly the validator's error, which is a broken rule with every earlier check holding |
| ClientToServerMsgs.WrappedSeqNumRejected | src/test/java/name/heavycarbon/protobuf_trial/test/common/UtilsForProtobufClientToServerMsgs.java:20-25 | a wire seqNum of 2^31 or more is rejected, before anything else |
| ClientToServerMsgs.SubMessageContentsIgnored | src/test/java/name/heavycarbon/protobuf_trial/test/common/UtilsForProtobufClientToServerMsgs.java:39-65 | `a` and `b` do not affect the verdict, and LOGIN_REQUEST and LOGIN_FINISH ignore both sub-message slots |
| ClientToServerMsgs.BuilderFor | src/test/java/name/heavycarbon/protobuf_trial/test/common/UtilsForProtobufClientToServerMsgs.java:79-81 | a builder has its `commonStuff` slot set to the record's `CommonStuff`, and nothing else |
| ClientToServerMsgs.BuildLoginFollowup | src/test/java/name/heavycarbon/protobuf_trial/test/common/UtilsForProtobufClientToServerMsgs.java:89-96 | tag LOGIN_FOLLOWUP with the username's sub-message and no other slot; from a valid record it verifies iff the username is non-empty and both UUIDs are present, and an empty username is reported as such |
| ClientToServerMsgs.BuildLoginRequest | src/test/java/name/heavycarbon/protobuf_trial/test/common/UtilsForProtobufClientToServerMsgs.java:98-103 | tag LOGIN_REQUEST and no sub-message slot set; from a valid record it verifies iff both UUIDs are present, and a null client UUID is reported as a nil one |
| ClientToServerMsgs.BuildLoginFinish | src/test/java/name/heavycarbon/protobuf_trial/test/common/UtilsForProtobufClientToServerMsgs.java:105-110 | tag LOGIN_FINISH and no sub-message slot set; from a valid record it verifies iff both UUIDs are present |
| ClientToServerMsgs.BuildLoginChallengeSolved | src/test/java/name/heavycarbon/protobuf_trial/test/common/UtilsForProtobufClientToServerMsgs.java:112-119 | tag LOGIN_CHALLENGE_SOLVED with (a, b) and no other slot; from a valid record it verifies iff both UUIDs are present, whatever a and b are |
| ServerToClientMsgs.CheckPayload | src/test/java/name/heavycarbon/protobuf_trial/test/common/UtilsForProtobufServerToClientMsgs.java:30-99 | passes iff the type is one of the four payload-less types, or one of the five others with its own sub-message present; a failure is a broken payload rule |
| ServerToClientMsgs.Verify | src/test/java/name/heavycarbon/protobuf_trial/test/common/UtilsForProtobufServerToClientMsgs.java:16-108 | passes iff no rule is broken; otherwise it reports a broken rule such that every earlier check holds |
| ServerToClientMsgs.Deserialize | src/test/java/name/heavycarbon/protobuf_trial/test/common/UtilsForProtobufServerToClientMsgs.java:110-114 | returns the parsed message unchanged iff it parsed and verifies; otherwise it reports the parse failure, or exactly the validator's error, which is a broken rule with every earlier check holding |
| ServerToClientMsgs.WrappedSeqNumRejected | src/test/java/name/heavycarbon/protobuf_trial/test/common/UtilsForProtobufServerToClientMsgs.java:17-22 | a wire seqNum of 2^31 or more is rejected, before anything else |
| ServerToClientMsgs.SubMessageContentsIgnored | src/test/java/name/heavycarbon/protobuf_trial/test/common/UtilsForProtobufServerToClientMsgs.java:37-84 | the verdict depends only on `CommonStuff`, the tag and which slots are set: an empty message, any product, a nil player UUID or an invalid cause are all accepted |
| ServerToClientMsgs.BuilderFor | src/test/java/name/heavycarbon/protobuf_trial/test/common/UtilsForProtobufServerToClientMsgs.java:12-14 | a builder has its `commonStuff` slot set to the record's `CommonStuff`, and no sub-message |
| ServerToClientMsgs.BuildGenericFailure | src/test/java/name/heavycarbon/protobuf_trial/test/common/UtilsForProtobufServerToClientMsgs.java:118-125 | tag GENERIC_FAILURE with (msg, cause) and no other slot; from a valid record it verifies iff both UUIDs are present |
| ServerToClientMsgs.BuildLoginGenericFailure | src/test/java/name/heavycarbon/protobuf_trial/test/common/UtilsForProtobufServerToClientMsgs.java:131-138 | tag LOGIN_GENERIC_FAILURE with (msg, cause) and no other slot; from a valid record it verifies iff both UUIDs are present |
| ServerToClientMsgs.BuildLoginChallenge | src/test/java/name/heavycarbon/protobuf_trial/test/common/UtilsForProtobufServerToClientMsgs.java:140-147 | tag LOGIN_CHALLENGE with the product and no other slot; from a valid record it verifies iff both UUIDs are present |
| ServerToClientMsgs.BuildLoginRequestAnswerOk | src/test/java/name/heavycarbon/protobuf_trial/test/common/UtilsForProtobufServerToClientMsgs.java:149-154 | tag LOGIN_REQUEST_ANSWER_OK and no sub-message slot set; from a valid record it verifies iff both UUIDs are present, and a null client UUID is reported as a nil one |
| ServerToClientMsgs.BuildLoginRequestAnswerFailure | src/test/java/name/heavycarbon/protobuf_trial/test/common/UtilsForProtobufServerToClientMsgs.java:156-163 | tag LOGIN_REQUEST_ANSWER_FAILURE with the message and no other slot; from a valid record it verifies iff both UUIDs are present |
| ServerToClientMsgs.BuildLoginFollowupAnswerOk | src/test/java/name/heavycarbon/protobuf_trial/test/common/UtilsForProtobufServerToClientMsgs.java:165-173 | tag LOGIN_FOLLOWUP_ANSWER_OK with the player's name and the player's UUID in pair form, the UUID field always set and converting back to that UUID, and no other slot; from a valid record it verifies iff both UUIDs are present |
| ServerToClientMsgs.BuildLoginFollowupAnswerFailure | src/test/java/name/heavycarbon/protobuf_trial/test/common/UtilsForProtobufServerToClientMsgs.java:175-180 | tag LOGIN_FOLLOWUP_ANSWER_FAILURE and no sub-message slot set; from a valid record it verifies iff both UUIDs are present |
| ServerToClientMsgs.BuildLoginChallengeSolvedAnswerOk | src/test/java/name/heavycarbon/protobuf_trial/test/common/UtilsForProtobufServerToClientMsgs.java:182-187 | tag LOGIN_CHALLENGE_SOLVED_ANSWER_OK and no sub-message slot set; from a valid record it verifies iff both UUIDs are present |
| ServerToClientMsgs.BuildLoginChallengeSolvedAnswerFailure | src/test/java/name/heavycarbon/protobuf_trial/test/common/UtilsForProtobufServerToClientMsgs.java:189-194 | tag LOGIN_CHALLENGE_SOLVED_ANSWER_FAILURE and no sub-message slot set; from a valid record it verifies iff both UUIDs are present |

## Left out

- Protobuf wire encoding and decoding (`toByteArray`, `parseFrom`,
  `ByteString`). This is generated library code and is not part of this
  model. The envelopes are datatypes, and `Deserialize` takes the parser's
  result as a parameter: `None` when `parseFrom` throws.
- The `.proto` schema is not part of this model. Each payload enum lists
  the constants its validator names, plus `OtherValue` for any other
  constant.
- `printAsJson`, the message printed to standard error when the input runs
  short (`UtilsForProtobufUuid.java:42`), and the exception texts. These
  are console output; the model keeps only the return value and the kind of
  rejection.
- The validators and builders live in package
  `name.heavycarbon.protobuf_trial.test.common` and use that package's own
  `CommonData` and `UtilsForProtobufUuid`. Those two classes are not part of
  this model. The model takes `common/CommonData.java` and the nil test at
  `common/UtilsForProtobufUuid.java:29-31` as their meaning.
- The `pomelo` copy of `CommonData` calls the `UtilsForProtobufUuid` of
  package `name.pomelo.protobuf_trial.test.common` and builds the `pomelo`
  `CommonStuff`. Neither class is part of this model. The model takes the
  nil test and the pair-form conversion at
  `common/UtilsForProtobufUuid.java:29-35` and
  `common/UtilsForProtobufUuid.java:51-56`, and the `heavycarbon`
  `CommonStuff`, as their meaning.
- Random fixtures (`generateRandomCommonData`, `UUID.randomUUID`). They
  depend on a random source. The "messages are different" tests depend on
  them and hold only with high probability.
- The JUnit test classes. They are used only as sources of properties.
- The Java `assert ... != null` lines in both validators. Generated getters
  never return null, so these asserts can never fire.
- Builder objects. A protobuf builder is updated in place; the model
  updates a datatype value instead. No builder is shared, so aliasing plays
  no part.
- `ByteString.copyFrom` and `getData().toByteArray()` copy the bytes. They
  are modelled as the same sequence of bytes.
