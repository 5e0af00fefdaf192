# Dokkimi observers and assertion engine, verified

Dafny models of two layers of Dokkimi, with proofs of what they promise.

**The wire observers.** Dokkimi's sidecars forward bytes unchanged and rebuild a log of logical
operations from them. Each decoder is set against an encoder written from the protocol's grammar, and
proved to invert it on every input the grammar allows and whatever follows on the stream, or exactly on
those the decoder reads right; each streaming state machine is proved to agree with the grammar of
whole sessions:

- MySQL: packets, column definitions, text and binary rows, dates and times, and the packet machine over
  serial sessions, and what its log says of the commands and answers written (`MySqlWire`, `MySqlRows`,
  `MySqlTemporal`, `MySqlSession`, `MySqlLog`, `MySqlMeaning`).
- AMQP 0-9-1: frames, and messages reassembled from frames interleaved over any number of channels,
  and what becomes of each message begun when they overlap or break off (`AmqpWire`, `AmqpDemux`,
  `AmqpContents`, `AmqpRuns`; sections 4.2.3 and 4.2.6 of the specification).
- Kafka: varints, tagged fields, the two string and array encodings, v2 record batches, Produce
  requests and Fetch responses (`KafkaVarint`, `KafkaReader`, `KafkaRecords`, `KafkaProduce`, `KafkaFetch`).
- Redis: the recursive RESP2/RESP3 reader, its grammar with attributes, the two relay loops as
  interleaved steps over the queue of pending commands, the pairing against what client and server mean,
  and what the log says of both (`RespReader`, `RespGrammar`, `RespAttributes`, `RedisPairing`,
  `RedisReplies`, `RedisLog`).
- Mongo: the BSON scanner, the removal of "compression" from a hello response, the outcome fields of
  a response, the accumulation of cursor batches, and the requests waiting for their responses,
  and what the log says (`Bson`, `MongoHello`, `MongoCursors`, `MongoExchanges`, `MongoLog`).

**The assertion engine and the `$ref` resolver.** Match, loop, assertion and extract blocks over a
mutable document (`Matching`, `BlockValidator`), what each of them reports and when all of it passes
(`BlockVerdicts`), what extraction leaves and reports (`Extractions`), the variable context, the
generation-keyed block cache and the retry loop (`Variables`, `BlockCache`, `StepRetry`), what an attempt at
a step reports and when it passes (`StepReports`), `for` ranges at run time against the validator
(`ForRange`), the merged timeline and its back-pointers (`Timeline`), the deduplicating log buffer
(`LogBuffer`), the document assembled from it as logs arrive (`StepDocument`), why giving up on a failed
count is right (`RetrySoundness`, and at any depth of blocks and loops `NestedCounts`), document paths
(`DocPath`), and `$ref` resolution over a possibly cyclic file graph (`RefGraph`, `RefItems`, `RefSpreads`,
`RefTrees`, `RefActions`, `RefSteps`).

`Bytes`, `Strconv` and `Options` hold the shared vocabulary.

## How the model is laid out

Where the source changes things step by step, so does the model: `MySqlSession.ProxyConnection`,
`AmqpDemux.Connection`, `KafkaReader.Reader`, `RedisPairing.Relay`, `MongoCursors.Proxy`,
`BlockValidator.Validator`, `StepRetry.StepValidator`, `LogBuffer.StepLogBuffer` and the parsers are
classes and methods with the source's fields and loops. Each method's `ensures` ties its result and
the new state to a function of the inputs and the old state, and the theorems are lemmas about those
functions, over every input or every run. `hide` statements only keep function bodies out of a proof
that does not need them.

Some promises do not hold on every input. For these the model keeps the code's behaviour, a lemma
says exactly when the promise holds, and another exhibits an input on which it fails. (The conditions of
the rows that say "where" are sufficient; the others are necessary too.)

| promise | holds exactly when | fails on |
|---|---|---|
| a Redis reply is read as its value | `RespAttributes.ReplyRoundTrip`: no attribute stands inside it | `RespAttributes.AttributeTakesAPlace` |
| replies are paired in order with what the server means | `RedisReplies.RepliesAreMeantIff`: the same, of every value sent | `RedisReplies.LaterRepliesShift` |
| a reply is paired with the command it answers | `RedisReplies.PlacesAgreeIff`: no nameless value stands before a named command | `RedisReplies.NamelessCommandTakesAReply` |
| a verbatim string is read as its content | `RespGrammar.VerbatimKeepsContentIff`: the content is not empty | `RespGrammar.EmptyVerbatimKeepsPrefix` |
| a binary row is read as its values | `MySqlRows.BinaryRowRoundTrip`: no year, no date or time, and no unsigned integer with the top bit set | `MySqlRows.YearIsLost`, `MySqlRows.DateIsRaw`, `MySqlRows.UnsignedIsNegative` |
| a successful PREPARE is not logged | `MySqlSession.PrepareOkIsSilentIff`: its statement id is not 0 | `MySqlSession.StatementZeroIsLogged` |
| the answer to a command that is not logged leaves the machine idle | `MySqlSession.LoneAnswerKeepsIdleIff`: it does not look like a result set | `MySqlSession.StatisticsOpenAResultSet` |
| every message begun is logged, in order and under its own names | `AmqpRuns.EveryBegunIsLoggedIff`: no publish or deliver method and no malformed header meets a busy channel, and none is busy at the end | `AmqpContents.OverlapIsMislogged` |
| a logged message has its own body | `AmqpContents.InterleavingIsDemultiplexed` where contents, tracked or not, do not overlap on a channel; `AmqpRuns.LoggedIsWhatFollowed` says what it has in any run | `AmqpContents.ReturnIsMislogged` |
| the cursor map is exactly the open finds | `MongoCursors.MapIsServersIff`: no find still being collected was killed | `MongoCursors.KilledFindStays` |
| every answer of the server is taken | `MongoExchanges.EveryAnswerIsTakenIff`: none of a logged command comes in a stream | `MongoExchanges.StreamedFindStays` |
| the stripped document's length field is right | `MongoHello.StrippedLengthIsRightIff`: nothing follows the document | `MongoHello.ChecksumIsCountedIn` |
| an accepted `for` range yields its terms | `ForRange.RunTimeAgreesWithValidatorIff`: the counter does not wrap past the last term, or the cap ends the loop | `ForRange.WrappingRange` |
| a timeline index points at its own event | `Timeline.RequestIndexIsOwnIff`, `Timeline.ResponseIndexIsOwnIff`: no other log's metadata claims the index | `Timeline.ForgedMarkIsFollowed` |
| a count given up on would never pass | `RetrySoundness.GivenUpForGood`, `NestedCounts.NestedGivenUpForGood` where conditions ignore places in the timeline | `StepDocument.PlaceConditionsRecover` |

Where code and comments disagree the model follows the code: `stripCompressionFromHello` appends four
zero bytes "for the checksum", but the original checksum is still inside the copied document and is
counted into its length (services/db-proxy/mongo/protocol.go:958-984).

## Model

| member | source | states |
|---|---|---|
| MySqlWire.PacketRoundTrip | services/db-proxy/mysql/protocol.go:40-57 | Reading an encoded packet in front of any stream gives the packet and leaves exactly the stream |
| MySqlWire.ForwardedBytesAreConsumedBytes | services/db-proxy/mysql/protocol.go:60-68 | What is written to the peer for a packet is byte for byte what was consumed to read it |
| MySqlWire.LenEncIntRoundTrip | services/db-proxy/mysql/protocol.go:122-147 | Every 64-bit number is read back from its length-encoded form, with the size of that form |
| MySqlWire.LenEncStringRoundTrip | services/db-proxy/mysql/protocol.go:151-163 | Every length-encoded string is read back, with its size, whatever follows |
| MySqlWire.ReadLenEncString | services/db-proxy/mysql/protocol.go:151-163 | The size consumed never exceeds the data, and a string that was read consumed something |
| MySqlWire.ParseColumnDef | services/db-proxy/mysql/protocol.go:172-205 | The loop over the leading strings and the tail compute the definition's name and type, or the empty definition when malformed |
| MySqlWire.ColumnRoundTrip | services/db-proxy/mysql/protocol.go:172-205 | From any ColumnDefinition41 packet exactly the alias and the type are recovered |
| MySqlRows.ParseTextRowValues | services/db-proxy/mysql/protocol.go:209-226 | The loop computes the text row: one value a column, NULL markers as NULL, cut at the first malformed string |
| MySqlRows.TextRowRoundTrip | services/db-proxy/mysql/protocol.go:209-226 | Decoding an encoded text row returns its values in order, NULLs and empty strings included |
| MySqlRows.CoercionShows | services/db-proxy/mysql/protocol.go:305-318 | Text in an integer column is shown as the number it spells, a number in a float column as such, other text as it is |
| MySqlRows.ParseBinaryRowValues | services/db-proxy/mysql/protocol.go:230-302 | The loop computes the binary row, never reads the null bitmap out of range, and leaves NULLs after a truncated cell |
| MySqlRows.BitmapMarksNulls | services/db-proxy/mysql/protocol.go:230-250 | For every number of columns, bit i + 2 of the null bitmap is in range and set exactly when column i is NULL |
| MySqlRows.CellRoundTrip | services/db-proxy/mysql/protocol.go:250-300 | A cell is read back with its size if and only if it is neither a year, nor a date or time, nor an unsigned integer with the top bit set; otherwise another value is read, or none |
| MySqlRows.BinaryRowRoundTrip | services/db-proxy/mysql/protocol.go:230-302 | Decoding an encoded binary row returns every NULL, sign and string in column order, if and only if no cell holds a year, a date or time, or an unsigned integer with the top bit set |
| MySqlRows.YearIsLost | services/db-proxy/mysql/protocol.go:288-298 | The year 2024 and the TINY after it are both decoded as NULL |
| MySqlRows.MomentIsRaw | services/db-proxy/mysql/protocol.go:288-298 | Every DATE, DATETIME, TIMESTAMP and TIME is logged as the bytes of its packed fields, and the cells after it are found |
| MySqlRows.DateIsRaw | services/db-proxy/mysql/protocol.go:288-298 | The day 2024-05-01 is logged as four raw bytes, the TINY after it as 5 |
| MySqlTemporal.PackingRoundTrip | services/db-proxy/mysql/protocol.go:288-298 | The bytes the server packs a date or time into tell it: unpacking them as a client does gives it back |
| MySqlTemporal.PackedIsNotText | services/db-proxy/mysql/protocol.go:288-298 | For no date or time are the packed bytes, which the source logs, its text |
| MySqlRows.UnsignedIsNegative | services/db-proxy/mysql/protocol.go:251-256 | The unsigned TINY 200 is decoded as -56 |
| MySqlRows.ParseRow | services/db-proxy/mysql/connection.go:253-280 | The loop builds the row the log shows, from the text or the binary parser |
| MySqlRows.NamedRowLookup | services/db-proxy/mysql/connection.go:253-280 | With distinct column names each name maps to its own column's value |
| MySqlRows.NamedRowIsInjective | services/db-proxy/mysql/connection.go:253-280 | With distinct column names the named row determines every value |
| MySqlSession.ProxyConnection.ProcessClientPacket | services/db-proxy/mysql/connection.go:88-118 | The whole state after a client packet: queue and last command, nothing else |
| MySqlSession.ProxyConnection.ProcessServerPacket | services/db-proxy/mysql/connection.go:155-219 | The whole state after a server packet: skip counter, cache, queue, result set, log |
| MySqlSession.ProxyConnection.ProcessResultSetPacket | services/db-proxy/mysql/connection.go:222-281 | The whole state after a packet inside a result set; columns read and columns kept stay equal in number |
| MySqlSession.ProxyConnection.CompleteQuery | services/db-proxy/mysql/connection.go:284-316 | The oldest pending query is popped and logged once; without a logger nothing is popped |
| MySqlSession.ExchangeIsLogged | services/db-proxy/mysql/connection.go:155-316 | Any command answered as the grammar allows returns the machine to idle, updates the statement cache and logs exactly its one entry or none |
| MySqlSession.SessionIsLogged | services/db-proxy/mysql/connection.go:155-316 | For every serial session the machine ends idle with exactly the log and the cache the grammar prescribes: each COM_QUERY and each EXECUTE of a cached statement once, in order, under the right SQL, a successful PREPARE never |
| MySqlSession.CommandsAreRead | services/db-proxy/mysql/protocol.go:320-341 | COM_QUERY and PREPARE carry their SQL, EXECUTE the cached SQL of its id, every other command none |
| MySqlSession.PrepareOkIsRead | services/db-proxy/mysql/protocol.go:344-353 | A PREPARE_OK yields its statement id and the exact number of packets that follow it |
| MySqlSession.OutcomesAreRead | services/db-proxy/mysql/protocol.go:95-118 | The affected rows of an OK packet and the message of an ERR packet, with and without the SQL state |
| MySqlSession.PrepareOkIsSilentIff | services/db-proxy/mysql/connection.go:173-193 | A successful PREPARE is cached and not logged if and only if its statement id is not 0 |
| MySqlSession.StatementZeroIsLogged | services/db-proxy/mysql/connection.go:173-200 | A PREPARE_OK for statement 0 is logged as an OK and not cached |
| MySqlSession.LoneAnswerKeepsIdleIff | services/db-proxy/mysql/connection.go:155-219 | The first packet that answers a command outside the three leaves an idle machine idle if and only if it does not look like a result-set header |
| MySqlSession.StatisticsOpenAResultSet | services/db-proxy/mysql/connection.go:202-219 | The answer to COM_STATISTICS opens a result set of 85 columns, and the next query's answer is taken for a column |
| MySqlSession.RowsAreNotTerminators | services/db-proxy/mysql/protocol.go:71-92 | No encoded row is mistaken for the EOF or ERR that ends the rows |
| MySqlLog.ExchangeIsTold | services/db-proxy/mysql/connection.go:155-316 | After any valid exchange on an idle machine the one new entry has the SQL as query, success exactly for an OK or a result set closed by EOF, the ERR's message as error, the OK's count or the number of rows when above 0, and as data the rows sent; a successful PREPARE and a command without SQL add none |
| MySqlLog.SessionIsTold | services/db-proxy/mysql/connection.go:155-316 | For every serial session the new entries are, in order, one for each such exchange, each with these fields |
| MySqlMeaning.WrittenIsValid | services/db-proxy/mysql/protocol.go:71-118 | Commands, OK, ERR, EOF, PREPARE_OK, column and row packets as clients and servers write them are told apart by the tests of the source |
| MySqlMeaning.TurnIsLogged | services/db-proxy/mysql/connection.go:155-316 | The bytes of a command and its answer add exactly the entry they mean: query, outcome, affected rows, message, and every row with the values sent |
| MySqlMeaning.SessionMeansItsLog | services/db-proxy/mysql/connection.go:88-316 | From the bytes of any serial session the log gains, in order, one entry for each turn that is worth one, and each says what its command and answer mean |
| MySqlMeaning.EncodedBinaryRowsAreLogged | services/db-proxy/mysql/connection.go:253-316 | A row sent in the binary protocol is in its place in the log with the values the server holds, if and only if no cell of it holds a year, a date or time, or an unsigned integer with the top bit set |
| MySqlMeaning.EncodedTextRowsAreLogged | services/db-proxy/mysql/connection.go:253-316 | A row sent in the text protocol is in its place in the log with the values sent |
| AmqpWire.FrameRoundTrip | services/broker-proxy/amqp/protocol.go:34-70 | Every frame is read back from its encoding in front of any stream |
| AmqpWire.StreamRoundTrip | services/broker-proxy/amqp/protocol.go:34-70 | A stream of encoded frames is cut back into exactly those frames |
| AmqpWire.MethodRoundTrip | services/broker-proxy/amqp/protocol.go:73-80 | Class, method and arguments are read back from a method payload |
| AmqpWire.PublishRoundTrip | services/broker-proxy/amqp/protocol.go:84-102 | basic.publish arguments yield the exchange and the routing key |
| AmqpWire.DeliverRoundTrip | services/broker-proxy/amqp/protocol.go:106-137 | basic.deliver arguments yield the exchange and the routing key |
| AmqpWire.HeaderRoundTrip | services/broker-proxy/amqp/protocol.go:143-160 | A content header yields the body size, and the content type exactly when its flag is set |
| AmqpWire.ShortStrRoundTrip | services/broker-proxy/amqp/protocol.go:162-173 | A short string is read back and the position lands after it |
| AmqpDemux.Connection.InspectFrame | services/broker-proxy/amqp/connection.go:109-124 | The whole channel map and log after one frame |
| AmqpDemux.Connection.HandleMethod | services/broker-proxy/amqp/connection.go:126-166 | A publish from the client or a deliver from the broker replaces its channel's state; nothing else changes |
| AmqpDemux.Connection.HandleContentHeader | services/broker-proxy/amqp/connection.go:168-193 | The announced size and content type are stored and the body reset, or the message completed when empty, or the channel dropped when malformed |
| AmqpDemux.Connection.HandleContentBody | services/broker-proxy/amqp/connection.go:195-210 | The body grows by the frame and the message completes once it is full |
| AmqpDemux.Connection.CompleteMessage | services/broker-proxy/amqp/connection.go:212-245 | The channel's message is logged once and the channel forgotten |
| AmqpDemux.InspectAll | services/broker-proxy/amqp/connection.go:88-107 | Inspecting frame by frame is the run the theorems are about |
| AmqpDemux.ChannelsAreIndependent | services/broker-proxy/amqp/connection.go:109-245 | Projecting any run to one channel equals running that channel alone, in state and in log |
| AmqpContents.ContentIsLoggedWhenComplete | services/broker-proxy/amqp/connection.go:126-245 | After any number of a content's frames, whatever its channel held before: its message, with its own exchange, key, content type and concatenated body, is logged once the body is complete and not before; empty frames, trailing ones too, change nothing |
| AmqpContents.ContentIsLogged | services/broker-proxy/amqp/connection.go:126-245 | A whole content logs exactly its one message and leaves the channel idle |
| AmqpContents.UntrackedIsSilent | services/broker-proxy/amqp/connection.go:168-210 | The header and bodies of a basic.get-ok or basic.return log nothing on an idle channel and leave it idle |
| AmqpContents.ContentsAreLoggedInOrder | services/broker-proxy/amqp/connection.go:126-245 | A sequence of contents on a channel, tracked or not, logs the tracked messages in order and leaves nothing behind |
| AmqpDemux.IgnorableFramesChangeNothing | services/broker-proxy/amqp/connection.go:109-166 | Heartbeats and every other method leave state and log as they would be without them |
| AmqpContents.InterleavingIsDemultiplexed | services/broker-proxy/amqp/connection.go:109-245 | For every interleaving over any number of channels, with untracked contents and ignorable frames in between, each channel logs exactly its own tracked messages in order, and no assembly is left over |
| AmqpContents.OverlapIsMislogged | services/broker-proxy/amqp/connection.go:126-166 | A delivery begun between a publish and its header takes the publish over: its body is logged as delivered under the delivery's names, and the delivery is lost |
| AmqpContents.ReturnIsMislogged | services/broker-proxy/amqp/connection.go:168-210 | The header and body of a returned message that meet a channel where a publish has begun are logged as the published message, and the published body is lost |
| AmqpRuns.BegunAreConserved | services/broker-proxy/amqp/connection.go:109-245 | In every run of a channel, overlaps and malformed frames included, the messages logged, lost and left open are those begun and those open before; without a loss the names are kept, in order |
| AmqpRuns.ChannelLogsAllIff | services/broker-proxy/amqp/connection.go:109-245 | An idle channel logs exactly the messages begun on it, under their own names, if and only if it loses none and ends idle |
| AmqpRuns.EveryBegunIsLoggedIff | services/broker-proxy/amqp/connection.go:109-245 | In every run of a connection each channel logs exactly the messages begun on it, in order and under their own names, if and only if no publish or deliver method and no malformed header meets a busy channel and none is busy at the end |
| AmqpRuns.LoggedIsWhatFollowed | services/broker-proxy/amqp/connection.go:126-245 | In every run the k-th message logged has the names of the last method begun before it, and the content type and body of whatever frames followed that method |
| KafkaVarint.ReadUvarint | services/broker-proxy/kafka/protocol.go:686-702 | The shift loop reads the unbounded sum of the seven-bit groups, at most ten, kept to 64 bits; overlong and truncated numbers are errors |
| KafkaVarint.UvarintRoundTrip | services/broker-proxy/kafka/protocol.go:686-702 | Every 64-bit number is read back from its encoding, which ends where reading stops |
| KafkaVarint.ZigzagBits | services/broker-proxy/kafka/protocol.go:705-712 | The bits of (u >> 1) ^ -(u & 1), read as a signed 64-bit number, are the number the reader takes, for every 64-bit u |
| KafkaVarint.ReadZigzagVarint | services/broker-proxy/kafka/protocol.go:705-712 | The reader decodes to a signed 64-bit number |
| KafkaVarint.ZigzagRoundTrip | services/broker-proxy/kafka/protocol.go:705-712 | Every signed 64-bit number survives zigzag encoding |
| KafkaVarint.SkipTaggedFields | services/broker-proxy/kafka/protocol.go:716-739 | The loop skips the counted fields or reports the one that does not fit |
| KafkaVarint.TaggedFieldsRoundTrip | services/broker-proxy/kafka/protocol.go:716-739 | Skipping any tagged-field section lands exactly at its end |
| KafkaReader.Reader.ReadInt32 | services/broker-proxy/kafka/protocol.go:500-507 | A big-endian signed 32-bit integer, or an error past the end |
| KafkaReader.Reader.Skip | services/broker-proxy/kafka/protocol.go:509-515 | The position moves by n exactly when n bytes remain |
| KafkaReader.Reader.ReadString | services/broker-proxy/kafka/protocol.go:518-578 | A string of either encoding and the position after it |
| KafkaReader.Reader.ReadNullableString | services/broker-proxy/kafka/protocol.go:525-595 | A nullable string of either encoding and the position after it |
| KafkaReader.Reader.ReadArrayLen | services/broker-proxy/kafka/protocol.go:598-608 | An array length of either encoding |
| KafkaReader.Reader.ReadRawBytes | services/broker-proxy/kafka/protocol.go:611-635 | Length-prefixed bytes of either encoding, absent when the length is negative |
| KafkaReader.Reader.ReadNullableRawBytes | services/broker-proxy/kafka/protocol.go:638-665 | Nullable bytes of either encoding |
| KafkaReader.Reader.SkipTaggedFieldsHere | services/broker-proxy/kafka/protocol.go:676-681 | The reader moves past a well-formed tagged section and stays before a malformed one |
| KafkaReader.StringRoundTrip | services/broker-proxy/kafka/protocol.go:518-595 | A legacy or compact string is read back by both string readers |
| KafkaReader.NullableStringRoundTrip | services/broker-proxy/kafka/protocol.go:525-595 | A legacy or compact nullable string is read back, null included |
| KafkaReader.ArrayLenRoundTrip | services/broker-proxy/kafka/protocol.go:598-608 | A legacy or compact array length is read back |
| KafkaReader.NullableBytesRoundTrip | services/broker-proxy/kafka/protocol.go:611-665 | Legacy or compact nullable bytes are read back by both byte readers |
| KafkaRecords.ParseRecord | services/broker-proxy/kafka/protocol.go:401-465 | One record, its headers skipped by jumping to its announced end |
| KafkaRecords.RecordRoundTrip | services/broker-proxy/kafka/protocol.go:401-465 | A record is read back with key, value and offset delta, nulls apart from empty, and reading ends at the record's end |
| KafkaRecords.ParseBatch | services/broker-proxy/kafka/protocol.go:308-392 | The record loop of both batch parsers: up to the announced count, as far as records can be read |
| KafkaRecords.BatchRoundTrip | services/broker-proxy/kafka/protocol.go:308-392 | Every record of an uncompressed v2 batch is read back in order with the batch's base offset, whatever follows |
| KafkaProduce.RequestHeaderRoundTrip | services/broker-proxy/kafka/protocol.go:75-111 | A request header is read back, a null client id as an empty one, tagged fields skipped, and the body starts where it ends |
| KafkaProduce.ParseProduceRequest | services/broker-proxy/kafka/protocol.go:115-173 | The nested loops give the records and whether an error stopped them; records before an error are kept |
| KafkaProduce.ProduceRoundTrip | services/broker-proxy/kafka/protocol.go:115-173 | Parsing an encoded Produce request, version 3 to 12, returns exactly its records, topic by topic, partition by partition, and ends in front of the tagged fields that close a flexible request |
| KafkaFetch.SkipAborted | services/broker-proxy/kafka/protocol.go:264-272 | The loop over aborted transactions lands after the last |
| KafkaFetch.SkipPartitionHead | services/broker-proxy/kafka/protocol.go:234-280 | Everything between a partition's index and its records is skipped, as its version lays it out |
| KafkaFetch.ParseFetchResponse | services/broker-proxy/kafka/protocol.go:177-304 | The nested loops give the records and how the parse ended: complete, cut short with the records kept, or failed |
| KafkaFetch.PartitionHeadLands | services/broker-proxy/kafka/protocol.go:234-280 | For every version, with null, empty or full aborted lists, the head's end is found |
| KafkaFetch.FetchRoundTrip | services/broker-proxy/kafka/protocol.go:177-304 | Parsing an encoded Fetch response, version 4 to 12, returns exactly its records in order, each at base offset plus delta, and ends in front of the tagged fields that close a flexible response |
| RespReader.Stream.ReadLine | services/db-proxy/redis/protocol.go:56-75 | The bytes up to and including the first LF are taken |
| RespReader.ReadRespInner | services/db-proxy/redis/protocol.go:56-190 | The recursion over stream and raw buffer computes the value, and the raw buffer grows by exactly the bytes consumed |
| RespReader.ReadResp | services/db-proxy/redis/protocol.go:46-54 | rawBytes is exactly the consumed bytes |
| RespReader.ReadValue | services/db-proxy/redis/protocol.go:56-190 | A value that was read consumed input, and what is left is a suffix of the stream |
| RespGrammar.BareRoundTrip | services/db-proxy/redis/protocol.go:56-190 | Every nested RESP2 or RESP3 value without attributes, followed by anything, is read back up to the coded normalisations, and exactly the rest is left |
| RespAttributes.ValueIsReadAsItems | services/db-proxy/redis/protocol.go:99-131 | Any value at all is read without an error as one value more than it has attributes, of which the first is taken and the others stay on the stream in front of what follows |
| RespAttributes.RespRoundTrip | services/db-proxy/redis/protocol.go:56-190 | One read returns the value and leaves exactly the rest if and only if the value has no attribute |
| RespAttributes.CleanIffOneReply | services/db-proxy/redis/protocol.go:99-131 | Exactly one of the values read is a reply, none for a push, if and only if no attribute stands inside the value |
| RespAttributes.ReplyRoundTrip | services/db-proxy/redis/connection.go:131-151 | Reading past pushes and attributes returns the value the server sent and leaves exactly the rest, if and only if no attribute stands inside the value or inside an attribute before it |
| RespAttributes.AttributeTakesAPlace | services/db-proxy/redis/protocol.go:99-131 | In the array 1, 2, 3 with an attribute before the 3, the attribute is taken for the third element and the 3 stays on the stream |
| RespGrammar.VerbatimKeepsContentIff | services/db-proxy/redis/protocol.go:169-183 | A verbatim string is read as its content if and only if the content is not empty |
| RespGrammar.EmptyVerbatimKeepsPrefix | services/db-proxy/redis/protocol.go:169-183 | The empty verbatim string is read as the text "txt:" |
| RedisPairing.Relay.RelayCommand | services/db-proxy/redis/connection.go:77-120 | One turn of the client loop: bytes forwarded, command queued when the queue has room, queue closed at the end |
| RedisPairing.Relay.TakePending | services/db-proxy/redis/connection.go:124-136 | The server loop takes the oldest pending command, or stops once the queue is closed and empty |
| RedisPairing.Relay.RelayReply | services/db-proxy/redis/connection.go:136-159 | One turn of the reply loop: bytes forwarded, pushes and attributes passed over, an ordinary reply logged with its command |
| RedisPairing.RepliesArePaired | services/db-proxy/redis/connection.go:77-159 | In every interleaving, with failing writes and any pushes in between, the k-th pair logged is the k-th named command with the k-th ordinary reply, and the client receives a prefix of what the server sent |
| RedisPairing.RunConserves | services/db-proxy/redis/connection.go:77-159 | From every state, over every run: pairs so far and commands or replies still waiting are what was waiting before, and the log is the pairs' |
| RedisPairing.DrainedRunPairsEveryCommand | services/db-proxy/redis/connection.go:77-159 | Once the queue is drained, with no failed write to the server, every command of the client stream has been paired |
| RedisPairing.OnlyInternalCommandsAreSilent | services/db-proxy/redis/protocol.go:200-226 | Every named command takes one place in the queue and is left out of the log exactly when it is AUTH, HELLO or CLIENT |
| RedisReplies.RepliesAreMeantIff | services/db-proxy/redis/connection.go:124-159 | The relay reads exactly the replies the server means, if and only if no attribute stands inside a value it sends |
| RedisReplies.LaterRepliesShift | services/db-proxy/redis/connection.go:124-159 | One value with an attribute inside puts every later reply at least one place too late, so that it is paired with a later command |
| RedisReplies.PlacesAgreeIff | services/db-proxy/redis/connection.go:92-107 | Every command has its own value's place in the queue, if and only if no nameless value stands before a named one |
| RedisReplies.RepliesAnswerTheirCommands | services/db-proxy/redis/connection.go:77-159 | In every interleaving against a server that answers each value once, with no attribute inside a value, the k-th pair joins the k-th queued command with the k-th reply the server means, which is the command's own answer under the condition above |
| RedisReplies.NamelessCommandTakesAReply | services/db-proxy/redis/connection.go:92-107 | After a command with an empty name, PING is queued first but is the second value to be answered |
| RedisLog.RequestIsRead | services/db-proxy/redis/protocol.go:200-226 | The name of an encoded array is its first word in capitals, its text the words joined by single spaces; an inline command is its own text |
| RedisLog.RepliesAreLogged | services/db-proxy/redis/connection.go:77-195 | In every interleaving the log holds, in order, one entry for each pair that is not internal; that of the k-th pair has the name and words of the client's k-th named request, succeeds if and only if the server's k-th reply is neither a simple nor a bulk error, and holds its error text and its meaning |
| Bson.ReadCString | services/db-proxy/mongo/protocol.go:479-488 | The scan gives the string before the first NUL and the position after it |
| Bson.CStringRoundTrip | services/db-proxy/mongo/protocol.go:479-488 | Every NUL-free string is read back from its terminated form |
| Bson.SkipLands | services/db-proxy/mongo/protocol.go:505-574 | Skipping a value of any BSON type lands exactly after it |
| Bson.ElementIsRead | services/db-proxy/mongo/protocol.go:479-574 | Type, name and extent of any element are read from its encoding |
| MongoHello.StripCompressionFromHello | services/db-proxy/mongo/protocol.go:922-996 | The scan and the rebuild compute the message to forward, unchanged wherever the source gives up |
| MongoHello.TargetIsFirst | services/db-proxy/mongo/protocol.go:946-962 | The element removed is the first named "compression", unless an element with an empty name stops the scan before it |
| MongoHello.StripRemovesTheElement | services/db-proxy/mongo/protocol.go:922-996 | For every well-formed message: the target is gone, every other element keeps its bytes and its place, the message length is right; without a target the message is unchanged |
| MongoHello.StripPreservesTheRest | services/db-proxy/mongo/protocol.go:922-996 | On a message its document fills, the result is exactly the encoding of the same message without the element, both lengths right |
| MongoHello.StrippedLengthIsRightIff | services/db-proxy/mongo/protocol.go:962-996 | The document-length field of a stripped message is right if and only if nothing follows the document |
| MongoHello.ChecksumIsCountedIn | services/db-proxy/mongo/protocol.go:962-996 | With a checksum the empty stripped document announces a wrong length |
| MongoHello.ExtractResponseFields | services/db-proxy/mongo/protocol.go:404-476 | The scan computes ok, n and errmsg, as far as the elements can be skipped |
| MongoHello.ResponseFieldsAreRead | services/db-proxy/mongo/protocol.go:404-476 | The outcome fields of any well-formed document are the ones its elements tell, later over earlier |
| MongoCursors.Proxy.Request | services/db-proxy/mongo/connection.go:88-98 | A request worth logging is remembered under its id, over any older one |
| MongoCursors.Proxy.Response | services/db-proxy/mongo/connection.go:128-140 | A response to a pending request forgets the request and is logged; any other changes nothing |
| MongoCursors.Proxy.LogQuery | services/db-proxy/mongo/connection.go:168-264 | The whole cursor map and log after an answered command: opened, extended, renamed, closed or logged at once |
| MongoCursors.AnswerKeepsOpenFinds | services/db-proxy/mongo/connection.go:168-264 | One legal answer keeps the accumulator map equal to the open finds and logs exactly what is due |
| MongoCursors.FindsAreCollected | services/db-proxy/mongo/connection.go:168-264 | For every legal interleaving the map holds exactly the open finds with their batches in order, and an exhausted find is logged with its whole result under its own query |
| MongoCursors.ClosedStaysClosed | services/db-proxy/mongo/connection.go:168-264 | A find is exhausted, and so logged, at most once |
| MongoLog.AnswersAreTold | services/db-proxy/mongo/connection.go:168-264 | After any legal run the log has, in order, one entry for each answer but those that open or continue a find; it has the command's query, outcome, count, message and documents, and a closed find all its batches under its own query |
| MongoCursors.ServerHasTheOthers | services/db-proxy/mongo/connection.go:168-264 | After any legal run with killCursors in it, the server has open exactly the finds being collected that were not killed |
| MongoCursors.MapIsServersIff | services/db-proxy/mongo/connection.go:168-264 | The map is exactly the finds the server has open, if and only if none still being collected was killed |
| MongoCursors.KilledFindStays | services/db-proxy/mongo/connection.go:168-264 | After a find and a killCursors the accumulator stays and the find is never logged |
| MongoExchanges.RelayMessages | services/db-proxy/mongo/connection.go:79-165 | The relay loops over a connection's messages: requests remembered, responses matched, streamed messages only forwarded |
| MongoExchanges.PendingIsWaiting | services/db-proxy/mongo/connection.go:88-140 | In every run the requests remembered are exactly those still waiting for a response, each the last asked under its id |
| MongoExchanges.ResponseMeetsItsRequest | services/db-proxy/mongo/connection.go:128-165 | In every run a response outside a stream is logged with the one request that waits for it, and every other server message changes nothing that is kept |
| MongoExchanges.ConnectionIsCollected | services/db-proxy/mongo/connection.go:79-264 | Over any run of messages whose answers are legal, the map holds exactly the open finds and the log is what is due |
| MongoExchanges.EveryAnswerIsTakenIff | services/db-proxy/mongo/connection.go:146-163 | The relay takes every answer the server gives, if and only if none of a logged command comes in a stream |
| MongoExchanges.StreamedFindStays | services/db-proxy/mongo/connection.go:146-163 | A find whose last batch is streamed stays in the map and is never logged |
| ForRange.ForRangeValues | services/test-agent/loop_executor.go:102-131 | Both loops give the values from `from` on while in bounds and under the cap, with int64 wrap-around |
| ForRange.RunTimeAgreesWithValidatorIff | shared/definition-validator/validate-loops.ts:284-343 | For every accepted range the run time yields exactly the validator's count of terms from, from + step, and so on, if and only if the counter does not wrap |
| ForRange.AcceptedTermsFillTheRange | shared/definition-validator/validate-loops.ts:284-343 | The k-th term is in bounds exactly when k is below the validator's floor-division count |
| ForRange.WrappingRange | services/test-agent/loop_executor.go:121-129 | An accepted range of one term for which the loop yields more |
| Matching.EvaluateWhere | services/test-agent/block_validators.go:62-98 | not, or, and: the loops with early exit decide the nested condition |
| Matching.EvaluateWhereEntries | services/test-agent/block_validators.go:52-59 | True exactly when every entry holds |
| Matching.ExecuteMatch | services/test-agent/block_validators.go:17-49 | The matches are the entries kept, in order; none at all when the path is missing or not an array |
| Matching.KeptAreThosePassing | services/test-agent/block_validators.go:17-60 | The elements kept are, in order, the objects that meet every entry, or all elements when there is none |
| Matching.OrMeans | services/test-agent/block_validators.go:62-97 | An `or` holds exactly when one of its entries does |
| Matching.AndMeans | services/test-agent/block_validators.go:62-97 | An `and` holds exactly when each of its entries does |
| Matching.CountOperators | services/test-agent/assertion_operators.go:123-139 | `eq` is equality and is `gte` with `lte`, `gt` and `lt` are their negations, more entries never hurt `gte`, fewer never `lte` |
| Matching.RetriedIffALargerCountPasses | services/test-agent/step_validator.go:120-134 | A failed count is retried if and only if some larger count would pass |
| Matching.SameEntryHolds | services/test-agent/block_validators.go:62-98 | A condition that ignores places in the timeline cannot tell two copies of an entry apart that differ in them |
| Matching.KeptGrows | services/test-agent/block_validators.go:17-49 | An array that holds the entries of another in order, up to places in the timeline, has at least as many matches |
| Matching.GivenUpCountsNeverRecover | services/test-agent/step_validator.go:97-134 | A count that fails and is not retried fails on every later array that holds the entries of this one in order, wherever new ones land and however places shift |
| Matching.RetriedCountsCanRecover | services/test-agent/assertion_operators.go:123-139 | A retried count passes once the missing matches have arrived, wherever they land |
| BlockValidator.Validator.PushMatch | services/test-agent/block_validators.go:112-123 | The three match keys are saved as found, absent ones as absent, and set |
| BlockValidator.Validator.PopMatch | services/test-agent/block_validators.go:126-141 | The three match keys are put back as saved |
| BlockValidator.Validator.ValidateBlock | services/test-agent/step_validator.go:218-309 | Results and the whole state after a block |
| BlockValidator.Validator.SetVariable | services/test-agent/step_validator.go:231-237 | The variable is set in the context and, when the document has the copy, in the copy |
| BlockValidator.Validator.ReportUnmatched | services/test-agent/step_validator.go:266-288 | Exactly the enabled assertions that read the match are reported as unmatched, in order |
| BlockValidator.Validator.CheckAssertions | services/test-agent/step_validator.go:291-299 | The enabled assertions not yet reported are checked, in order |
| BlockValidator.Validator.ResolveItems | services/test-agent/step_validator.go:355-400 | The items of each kind of loop: resolved, the range, or the indices below the count |
| BlockValidator.Validator.RunAllIterations | services/test-agent/step_validator.go:361-406 | Results and the whole state after the iterations, up to the one that meets `until` |
| BlockValidator.Validator.ExecuteBlockLoop | services/test-agent/step_validator.go:355-415 | Results and the whole state after a loop, for all three kinds |
| BlockValidator.Validator.RunIterationBody | services/test-agent/step_validator.go:331-352 | The body is resolved under the iteration's variables and run |
| BlockValidator.Validator.ExecuteExtract | services/test-agent/step_validator.go:418-444 | Rules are run in key order, each seeing the variables set before it |
| BlockValidator.BlockPreserves | services/test-agent/step_validator.go:218-309 | Every block leaves the match stack and the document outside `variables` as found, whatever is nested in it |
| BlockValidator.PopRestores | services/test-agent/block_validators.go:112-141 | Popping restores what pushing saved, whatever happened in between outside the match keys |
| BlockValidator.BlocksLeaveNoTrace | services/test-agent/step_validator.go:218-444 | For every tree of blocks: match stack and every document key but `variables` end as found, absent ones absent, and `$.variables` equals the variable context |
| BlockValidator.BoundariesAreInSync | services/test-agent/step_validator.go:218-415 | `$.variables` equals the variable context at the start of every block of a tree, at every depth and in every iteration, and at the end |
| BlockValidator.EveryEnabledAssertionIsReportedOnce | services/test-agent/step_validator.go:262-299 | With or without matches every enabled assertion is reported exactly once and no disabled one is |
| BlockVerdicts.ResultsAreSaid | services/test-agent/step_validator.go:218-444 | In every run a result is reported if and only if some block that started, at any depth and in any iteration, says it: an assertion passes exactly when it holds of the document after the block's loop, one that reads an empty match fails, a count, a missing source, missing items and each extraction as they are |
| BlockVerdicts.AllPassedIff | services/test-agent/step_validator.go:218-444 | A run passes if and only if for every block that starts in it the match is found and its count passes, the loop has items, every enabled assertion holds and reads no empty match, and every rule finds a value |
| BlockVerdicts.ReadsMatchIff | services/test-agent/step_validator.go:278-279 | An assertion reads the match exactly when its path, after a `$.` or not, goes into match or lastMatch |
| BlockVerdicts.BlocksAreResolved | services/test-agent/variable_context.go:215-265 | Resolving blocks replaces the templates of every match and assertion, at every depth of nested blocks, and nothing else |
| BlockVerdicts.MatchIsSeen | services/test-agent/block_validators.go:112-123 | Inside a block the document has the kept entries, the first and the last of them, and the match's name holds them |
| BlockVerdicts.ItemIsSeen | services/test-agent/step_validator.go:355-415 | Each iteration starts with its item under the loop's variable and its number, and for a forEach the items, under the loop's name |
| BlockVerdicts.LoopItems | services/test-agent/step_validator.go:355-385 | A repeat runs over as many numbers as its count, from 0, a for over the values of its range, a forEach over its items |
| BlockVerdicts.LoopRunsUntil | services/test-agent/step_validator.go:355-415 | A loop ends after the first iteration that meets `until`, or the last; then its variables are gone and the others are as that iteration left them |
| Extractions.BlockExtracts | services/test-agent/step_validator.go:418-444 | A block's rules report, one by one, whether a value is found in the document that holds the values found before, and leave them in the variables and in the document |
| Extractions.FoundIsHeld | services/test-agent/step_validator.go:418-444 | A value found is what its variable holds for the rules after it |
| BlockValidator.SameGenerationSameVariables | services/test-agent/variable_context.go:29-59 | Over any run of blocks the generation grows, and equal generations mean equal variables |
| Variables.VariableContext.Set | services/test-agent/variable_context.go:37-42 | One variable is set and the updates, of which the generation keeps the residue modulo 2^64, grow by one |
| Variables.VariableContext.Delete | services/test-agent/variable_context.go:45-50 | One variable is deleted and the updates, of which the generation keeps the residue modulo 2^64, grow by one |
| Variables.VariableContext.Reset | services/test-agent/variable_context.go:29-34 | All variables are deleted and the updates, of which the generation keeps the residue modulo 2^64, grow by one |
| BlockCache.StepBlocks.ResolvedBlocks | services/test-agent/step_validator.go:193-200 | The cached blocks are served exactly when the generations agree; otherwise they are resolved and cached |
| BlockCache.CacheIsCoherent | services/test-agent/step_validator.go:193-200 | Over any sequence of attempts and variable updates every attempt is served the blocks a fresh resolution would give |
| StepRetry.StepValidator.ValidateStep | services/test-agent/step_validator.go:138-215 | Report, variables, generation and cache after one attempt |
| StepRetry.StepValidator.ExtractInto | services/test-agent/step_validator.go:160-186 | The step's own rules are run in key order, each seeing the variables set before it |
| StepRetry.StepValidator.ValidateStepWithRetry | services/test-agent/step_validator.go:60-94 | The report is that of the first attempt that passes or is not worth a retry, else of the last before the deadline |
| StepRetry.EveryRetryHadAReason | services/test-agent/step_validator.go:60-115 | Every report before the last was worth a retry, and the last ends the loop or the deadline does |
| StepReports.AttemptIsReport | services/test-agent/step_validator.go:137-215 | Every evaluated report is one result per rule of the step, in key order, passed exactly when the rule finds a value in the document that holds the values found before, and then the results of the blocks, which start with those values in the variables and in `$.variables` |
| StepReports.AttemptPassesIff | services/test-agent/step_validator.go:137-215 | An attempt passes if and only if every rule finds a value and every block that starts, at any depth, holds |
| StepReports.FailedRuleFails | services/test-agent/step_validator.go:97-215 | An attempt with a failed rule never passes, and is retried when the value is not there yet |
| StepRetry.SettledFailuresAreFinal | services/test-agent/step_validator.go:97-134 | When an attempt ends the loop with a failure, no failed count anywhere in its tree of blocks would pass with more matches, and no extraction failed for want of a value |
| StepDocument.DeliveriesExtend | services/test-agent/step_log_buffer.go:90-140 | Between attempts the buffer, kind by kind, only gains logs at its end |
| StepDocument.SortKeepsSub | services/test-agent/document_assembler_lists.go:240-255 | Merging more events leaves the old ones in their order |
| StepDocument.OnlyPlacesDiffer | services/test-agent/document_assembler_lists.go:262-300 | A traffic entry annotated from two timelines differs in nothing but its two indices |
| StepDocument.ListsGrow | services/test-agent/document_assembler.go:279-293 | When logs have arrived, each of the document's five log lists holds the entries of the earlier one in order: traffic up to its indices, the merged timeline with new events in between, the others as a prefix |
| StepDocument.ListIsFound | services/test-agent/doc_path.go:31-99 | The path of a log list leads to the list |
| StepDocument.ListsByPath | services/test-agent/document_assembler.go:279-293 | `$.traffic`, `$.timeline`, `$.consoleLogs`, `$.dbLogs` and `$.messageLogs` lead each to the list of its own kind, traffic with the fields of its logs |
| StepDocument.EventsAreRendered | services/test-agent/document_assembler_lists.go:25-111 | An event of traffic is rendered from its own log, with its number and its direction |
| StepDocument.WithinIs | services/test-agent/document_assembler_lists.go:113-195 | The logs listed are those of the window, both ends included |
| StepDocument.PlaceConditionsRecover | services/test-agent/step_validator.go:120-134 | A count with a condition on requestTimelineIndex fails, is not retried, and would pass once an earlier log arrives |
| RetrySoundness.RetryableCountIsRetried | services/test-agent/step_validator.go:97-134 | An attempt in which a count over a log list fails and could pass with more matches is never the last before the deadline |
| RetrySoundness.SettledCountStaysFailed | services/test-agent/step_validator.go:97-215 | A count over a log list whose failure an attempt settles on fails, and fails the attempt, on every buffer that has grown since |
| RetrySoundness.GivenUpForGood | services/test-agent/step_validator.go:60-215 | When the retry loop stops before the deadline with such a count failed, no attempt after it would have passed, whatever had arrived |
| NestedCounts.AllStartsAreReported | services/test-agent/step_validator.go:218-444 | Each block that starts, at any depth and in any iteration, finds the document unchanged outside the keys blocks write, and its results are among those of the whole |
| NestedCounts.NestedCountIsRetried | services/test-agent/step_validator.go:97-134 | A count at any depth of blocks and loops that fails and could pass with more matches is retried |
| NestedCounts.NestedCountStaysFailed | services/test-agent/step_validator.go:97-444 | A count at any depth whose failure an attempt settles on fails every attempt, on a buffer that has grown since, in which a block with that match starts |
| NestedCounts.NestedGivenUpForGood | services/test-agent/step_validator.go:60-215 | When the retry loop stops before the deadline with a count failed at any depth, no attempt after it in which a block with that match starts would have passed |
| StepRetry.CachedValidationIsFresh | services/test-agent/step_validator.go:60-215 | Validating a step with cache and retries gives, report by report, what resolving afresh at every attempt would give, and the same variables |
| Timeline.AssembleTrafficList | services/test-agent/document_assembler_lists.go:25-111 | Traffic is the logs of the window in order; each contributes a request event, and a response event exactly when it has a status |
| Timeline.WindowIs | services/test-agent/document_assembler_lists.go:25-60 | The traffic shown is the logs sent in the window, both ends included |
| Timeline.EventsAreOfTheLogs | services/test-agent/document_assembler_lists.go:60-111 | The events of traffic are exactly a request of each log at the time it was sent, and a response of each log with a status at the time it was received, if known, else sent |
| Timeline.MergeTimeline | services/test-agent/document_assembler_lists.go:240-255 | The merge is a stable sort by time of the concatenated slices |
| Timeline.StableSortIsTheSort | services/test-agent/document_assembler_lists.go:240-255 | Exactly one sequence is a stable sort of the entries |
| Timeline.StableSortIsAPermutation | services/test-agent/document_assembler_lists.go:240-255 | The merged timeline is a permutation of its inputs |
| Timeline.AnnotateTimelineIndices | services/test-agent/document_assembler_lists.go:262-300 | In the array of traffic entries each gets the last indices marked with its own number and direction, or none; nothing else changes |
| Timeline.RequestIndexIsOwnIff | services/test-agent/document_assembler_lists.go:262-300 | The request index exists and points at the entry's own request event if and only if no other log's metadata claims it at that time or later |
| Timeline.ResponseIndexIsOwnIff | services/test-agent/document_assembler_lists.go:262-300 | The same for the response event of an entry with a status |
| Timeline.ForgedMarkIsFollowed | services/test-agent/document_assembler_lists.go:196-238 | Metadata with a traffic index and a direction takes the index over |
| Timeline.NoStatusNoResponseIndex | services/test-agent/document_assembler_lists.go:262-300 | Without a status there is no response index |
| Timeline.RequestIndexIsSmaller | services/test-agent/document_assembler_lists.go:240-300 | Whenever the response is not earlier than the request, equal times included, the request index is the smaller |
| LogBuffer.StepLogBuffer.IsDuplicate | services/test-agent/step_log_buffer.go:90-99 | True exactly for a non-empty id seen before; the id is remembered |
| LogBuffer.StepLogBuffer.AddHttpLog | services/test-agent/step_log_buffer.go:102-110 | An HTTP log is appended unless its id was seen, and nothing else changes |
| LogBuffer.StepLogBuffer.AddDbLog | services/test-agent/step_log_buffer.go:113-121 | A database log is appended unless its id was seen, and nothing else changes |
| LogBuffer.StepLogBuffer.AddMessageLog | services/test-agent/step_log_buffer.go:124-132 | A message log is appended unless its id was seen, and nothing else changes |
| LogBuffer.StepLogBuffer.AddConsoleLog | services/test-agent/step_log_buffer.go:135-140 | A console log is always appended |
| LogBuffer.StepLogBuffer.Flush | services/test-agent/step_log_buffer.go:143-151 | The buffers are emptied and the seen ids kept |
| LogBuffer.StepLogBuffer.SnapshotAndFlush | services/test-agent/step_log_buffer.go:169-182 | The window handed out is what was buffered; the buffers are emptied and the seen ids kept |
| LogBuffer.DeliveredExactlyOnce | services/test-agent/step_log_buffer.go:90-182 | For any deliveries, redeliveries and window ends, the windows of a kind plus the buffer are the deliveries of that kind with repeated ids removed, across flushes |
| DocPath.ParsePathSegments | services/test-agent/doc_path.go:103-132 | The builder loop gives the segments, or none on an unclosed bracket |
| DocPath.EvaluateDocPath | services/test-agent/doc_path.go:31-99 | The walk gives the value, scoped and rooted paths included, or nothing |
| DocPath.PrefixesChooseTheStart | services/test-agent/doc_path.go:31-58 | A path after `$.` is read in the document, after `$$.` in the scoped element, and leads nowhere without one |
| DocPath.NamesSelect | services/test-agent/doc_path.go:80-97 | A name selects the field of that name, else the one that differs in case alone |
| DocPath.ParsedSegmentsAreValid | services/test-agent/doc_path.go:103-132 | Every segment parsed is a dot-free name or one bracket |
| DocPath.PrintParses | services/test-agent/doc_path.go:103-132 | Printing any valid segments and parsing them gives them back |
| DocPath.PathsHaveCanonicalSpelling | services/test-agent/doc_path.go:103-132 | Every parsable path has a canonical spelling with the same segments |
| DocPath.JoinedPathsCompose | services/test-agent/doc_path.go:31-99 | Evaluating a joined path is evaluating its parts one after the other |
| DocPath.IndicesSelect | services/test-agent/doc_path.go:66-78 | [k] selects element k and [-k] element n - k of an array of length n, and either fails exactly when out of range |
| RefItems.ResolveRefs | shared/definition-validator/validate-refs.ts:54-162 | Items and errors of the mutually recursive loops, in order, on every file graph |
| RefItems.MergeAll | shared/definition-validator/validate-refs.ts:81-138 | The loop over the references merges them left to right, remembers the last file and whether any failed, and records the errors in order |
| RefItems.LoadInto | shared/definition-validator/validate-refs.ts:86-137 | One reference loads its content, through the references of the file it names, or records why not |
| RefItems.ExpandRefSpreads | shared/definition-validator/validate-refs.ts:33-48 | Markers are replaced in place by the arrays they name, other elements kept |
| RefItems.MergeOverrides | shared/definition-validator/validate-refs.ts:144-153 | Inline keys win over the references', with the spreads of array overrides expanded |
| RefSpreads.PathIsRead | shared/definition-validator/validate-refs.ts:20-31 | Reading by a dotted path gives the value that going down key by key leads to, and nothing when it leads nowhere |
| RefSpreads.KeyLeads | shared/definition-validator/validate-refs.ts:20-31 | A path of one key leads to that key's value |
| RefSpreads.StagesLead | shared/definition-validator/validate-refs.ts:20-31 | A path in two stages leads where the second does from where the first does |
| RefSpreads.SpreadsAreExpanded | shared/definition-validator/validate-refs.ts:33-48 | An array of an override expands to itself with every marker replaced, in place, by the array its path leads to, or by nothing |
| RefSpreads.MarkerIsReplaced | shared/definition-validator/validate-refs.ts:33-48 | Between elements that are none, a marker's place is taken by the array its path leads to; by nothing if and only if the path is empty, or leads to no array or to an empty one |
| RefSpreads.ExpansionsConcat | shared/definition-validator/validate-refs.ts:33-48 | Arrays with any number of markers, one after the other, expand one after the other |
| RefItems.Resolve | shared/definition-validator/validate-refs.ts:54-162 | No error is recorded if and only if the chain is not too deep and no item is dropped |
| RefTrees.NoErrorIffAdmissibleTrees | shared/definition-validator/validate-refs.ts:54-162 | No error is recorded if and only if the items unfold, over the files alone, into trees with no repeated file on a chain and within the depth limit |
| RefTrees.ResolutionIsTheMeaning | shared/definition-validator/validate-refs.ts:54-162 | Then each item is resolved, in order, to the meaning of its tree and the file it ends in |
| RefTrees.ValueOfKey | shared/definition-validator/validate-refs.ts:81-153 | In that meaning a key has the item's own value, an array with each marker replaced by the array its path leads to in the references' content, else its value in the right-most subtree that defines it, else none |
| RefTrees.RevisitAnywhereIsAnError | shared/definition-validator/validate-refs.ts:91-127 | A chain of references of any length that comes back to a file on it is an error |
| RefItems.RevisitedFileDropsItem | shared/definition-validator/validate-refs.ts:91-99 | An item that itself refers to a file on its chain is dropped, and the circular reference recorded by name |
| RefItems.NoReferenceIsLeft | shared/definition-validator/validate-refs.ts:54-162 | No resolved item has a `$ref` |
| RefItems.SecondResolutionIsIdentity | shared/definition-validator/validate-refs.ts:54-162 | Resolving resolved items changes none and records nothing |
| RefActions.ResolveActionRef | shared/definition-validator/validate-refs.ts:246-335 | The action with its references merged, or none and the one error recorded |
| RefActions.ChainResolves | shared/definition-validator/validate-refs.ts:246-335 | Along a chain of fragments every key has its value nearest the step |
| RefActions.ResolvesIffChain | shared/definition-validator/validate-refs.ts:246-335 | An action resolves if and only if its references form a finite chain without a repeated file and within the depth limit |
| RefSteps.ExpandSubStepRefs | shared/definition-validator/validate-refs.ts:337-440 | Steps and errors of the recursive loop, in order, on every file graph, cyclic ones included |
| RefSteps.NoErrorIffAdmissibleTree | shared/definition-validator/validate-refs.ts:337-440 | No error is recorded if and only if the steps unfold into a tree with no repeated file on a chain and within the depth limit |
| RefSteps.ExpansionIsTheLeaves | shared/definition-validator/validate-refs.ts:337-440 | Then the result is the leaves of the tree, left to right |
| RefSteps.RevisitIsAnError | shared/definition-validator/validate-refs.ts:337-440 | A reference to a file on its own chain always records an error |
| RefSteps.NoRefIsLeft | shared/definition-validator/validate-refs.ts:337-440 | No `$ref` is left in the result, errors or not |
| RefSteps.SecondExpansionIsIdentity | shared/definition-validator/validate-refs.ts:337-440 | Expanding an expanded list changes nothing and records nothing |
| Strconv.ParseIntRoundTrip | services/db-proxy/redis/protocol.go:77-91 | Every 64-bit integer survives being written in decimal and parsed |

## Left out

Admitted limits of members above:

- MySqlSession.SessionIsLogged: takes a logger to be present, commands one at a time, and one result a command, because without a logger the source returns before popping the queue (services/db-proxy/mysql/connection.go:285) and pairs by position; `CompleteQuery` models the missing logger.
- MySqlMeaning.SessionMeansItsLog: the same, with statement ids from 1 and column names told apart for the half that a row shown right is readable.
- MySqlSession.ExchangeIsLogged: takes statement ids from 1 up; id 0 is `PrepareOkIsSilentIff`.
- MySqlWire.PacketRoundTrip: packets of 2^24 - 1 bytes or more, which MySQL splits, are not rejoined by the source either.
- MySqlWire.ReadLenEncString: an announced length of 2^63 or more, on which Go's slice panics after the conversion to a negative int, is treated as too long.
- AmqpContents.InterleavingIsDemultiplexed: contents do not overlap on one channel number, because both directions, and contents that are not tracked, share the channel map (services/broker-proxy/amqp/connection.go:33); `OverlapIsMislogged` and `ReturnIsMislogged` show why, and `AmqpRuns` covers every run. The JSON decoding of a body is left out; the log holds its bytes.
- KafkaVarint.ReadUvarint: the source's `|=` is written as an addition, which the loop invariant justifies, since the result stays below the weight of the next group.
- KafkaVarint.SkipTaggedFields: lengths of 2^63 or more, which wrap to a negative position in Go, are treated as errors.
- KafkaReader.Reader.ReadNullableString: a compact length of 2^63 or more, on which Go's slice panics, is an error.
- KafkaReader.Reader.ReadNullableRawBytes: the same.
- KafkaRecords.ParseRecord: key and value lengths whose sum with the position overflows, on which Go's slice panics, are errors.
- KafkaReader.Reader.ReadString: a compact length of 2^63 or more, on which Go's slice panics, is an error; the position after a failed read is not stated; every caller gives up.
- KafkaRecords.ParseBatch: the loops of parseRecordBatch and parseFetchRecordBatch are one method, since they differ only in the record they append; compressed batches and batches after the first are skipped by the source and here.
- RespReader.ReadRespInner: a negative length other than -1, on which Go's make panics, is the outcome `NegativeLength`; a count too large to allocate is not modelled.
- RedisPairing.DrainedRunPairsEveryCommand: takes no failed write to the server, since the command of a failed write is lost with the connection.
- MongoHello.StripCompressionFromHello: an element end beyond the message, where Go's slicing panics, is the outcome `OutOfRange`.
- MongoHello.StripPreservesTheRest: takes a document that fills the message and no checksum; `StrippedLengthIsRightIff` is the general case.
- MongoHello.ResponseFieldsAreRead: takes non-empty element names, since an empty one ends the scan.
- MongoCursors.FindsAreCollected: takes a server that gives a cursor id still being collected, killed or not, to no second find.
- ForRange.RunTimeAgreesWithValidatorIff: the validator's JavaScript numbers are taken as exact integers, which they are up to 2^53 and at the powers of two of `WrappingRange`.
- Matching.GivenUpCountsNeverRecover: takes `where` conditions that depend on the element alone, and not on its two timeline indices, because `value.from` and those indices shift as logs arrive; `PlaceConditionsRecover` shows why.
- RetrySoundness.GivenUpForGood: the same, for the counts of top-level blocks over the five log lists whose match holds no template; the others are `NestedCounts`.
- NestedCounts.NestedGivenUpForGood: the same, and speaks of later attempts in which the block starts, since the items of a forEach, or a match around it, may no longer lead to it.
- RedisReplies.RepliesAnswerTheirCommands: takes a server that answers every value once; a multibulk of no elements, which Redis skips, is a nameless value here.
- RedisLog.RepliesAreLogged: takes a server whose values hold no attribute inside (`RepliesAreMeantIff` is the general case) and capitals of nothing to be nothing; normalizeResponse is left out, so the entry holds the reply itself.
- StepRetry.CachedValidationIsFresh: takes fewer than 2^64 variable updates within a step, since the generation counter wraps.
- BlockCache.CacheIsCoherent: takes fewer than 2^64 variable updates within a step.
- RefItems.NoReferenceIsLeft: takes `$ref` to be a string or an array wherever it occurs; with any other type the source leaves the key in place.
- RefItems.SecondResolutionIsIdentity: the same.
- DocPath.JoinedPathsCompose: the second part is a relative path and the first is not a bare "$" or "$$", which joining turns into a prefix.
- Timeline.MergeTimeline: times are ordered values; the sort is the one sequence that meets sort.SliceStable's contract.

Function parameters, of which nothing is assumed unless a lemma says so: float parsing, Go's ToUpper and
Fields, path.resolve, spreading an array or a string into an object, the choice among
keys that differ in case, template resolution, the assertion operators, extraction and its error text,
forEach items, `until`, and the rendering of log entries and of the step's action in the document.

Not part of the model:

- Sockets, TLS, sleeps and deadlines: streams are byte sequences, files a map, the deadline the number of attempts that fit.
- Timestamps, durations and last-log times of log entries.
- Redis normalizeResponse, Mongo reconstructQuery and the unmarshalling of cursor batches: shaping of log entries.
- The Postgres proxy: its pairing repeats the MySQL theme.
- runLoop and setLoopResult, the loops around whole steps and UI sub-steps.
- Snapshot, LogCount and the mutexes of the log buffer.
- resolveActionRefs, the walk over tests and steps that calls resolveActionRef, and the warnings for extra keys.
- The lower-case key cache of document paths.
- Aliasing of maps: documents and variables are values, and the snapshot the source copies is a copy here.
- Kafka metadata responses and the other request types, which the source only forwards.
