# Presence service: its protocols, verified

The service keeps track of which devices of a user are online. It files devices under keys of
user and minute in Redis, and sends every change as a protocol-buffer message through a Kafka
producer; gRPC reaches it over HTTP/2. Its own code is thin, and what it relies on is the
protocol code that it carries along. This project models that code and proves what it is for:

* `Producer*`: the retry protocol of the asynchronous Kafka producer. Retry levels, per-level
  buffers and chasers keep a partition's messages in the order of submission through leader
  changes and failures, and each message ends as the outcomes of its requests say.
* `Snappy*`: the block codec, a hash-table encoder and a decoder with overlapping copies: round
  trip, size bound, and exactly what the decoder accepts.
* `Huffman*`, `Hpack*`: header compression (RFC 7541): the two dynamic tables in lock step,
  Huffman decoding over a trie with the program's own code, header blocks that arrive in any
  pieces, and what the encoder chooses and the decoder refuses.
* `Frames*`: header blocks over HEADERS and CONTINUATION frames (RFC 7540), end to end.
* `Send*`, `WindowRoutines`, `Inbound*`, `Priority*`: the HTTP/2 send scheduler, its windows and
  what changes them, inbound flow control with body buffers, and the priority tree.
* `Kafka*`: the two-pass wire encoder with patched fields, compressed messages over both passes,
  and message sets that the broker may cut short.
* `Proto*`: protocol buffers over a typed schema, with lengths written after the fact.
* `Metadata`: the client's metadata refresh, and why it ends.
* `Presence`: the service's own keys and time window.

Files named `...Routines` hold the code in its own form, objects and loops, tied to functions on
values (the message object stands with the passes over it, in `KafkaPasses`); the other files
hold those functions and what is proved about them. `Base128`, `BigEndian` and `Wrappers` are
shared. `dafny verify dfyconfig.toml` checks everything.

Eight properties that one might expect turn out to need a condition, and are stated with it: the
HPACK tables differ after the limit is lowered and raised again within one pending update
(`HpackLockStep.CarelessTablesDiffer`, `HpackLockStep.SetMaxSafe`); flow-control windows add up
only while they are not negative (`SendRoutines.AddIsExact`), and one that a setting has made
negative refuses every increment (`WindowRoutines.ServerWindows.ProcessWindowUpdate`); the
presence window is off in the first five minutes after the epoch (`Presence.WindowIsExact`); it
skips a minute when the clock turns between two readings (`Presence.ClockMustNotTurn`); both
passes of the Kafka encoder see the same compressed payload exactly if every compressed message
object stands once in its set and comes without a cache (`KafkaPasses.PassesAgree`); a Snappy
block decodes alike into every buffer exactly if none of its copies has offset zero
(`SnappyFormat.BufferShows`); Huffman decoding meets a nil node exactly if what it has left is on
no codeword's way, as after the end-of-string code (`HuffmanRoundTrip.DecodesAny`,
`HuffmanTable.EosFails`); and the connection's inbound window comes back in full exactly if no
DATA was ever taken for a closed body (`Inbound.ConnectionRestored`).

## Model

| member | source | states |
|---|---|---|
| ProducerOrder.AcknowledgedInSubmissionOrder | Godeps/_workspace/src/github.com/Shopify/sarama/async_producer.go:304-418 | over every run of the producer for one partition (any failures, leaders, batch sizes and retry limit), acknowledged messages were submitted in that order, none is acknowledged twice, and no chaser ever is |
| ProducerOrder.RunKeeps | Godeps/_workspace/src/github.com/Shopify/sarama/async_producer.go:304-637 | the order invariant holds in every reachable state of the step system |
| ProducerBrokers.SubmitKeeps | Godeps/_workspace/src/github.com/Shopify/sarama/async_producer.go:265-300 | a submission keeps the order invariant |
| ProducerBrokers.GivesUpKeeps | Godeps/_workspace/src/github.com/Shopify/sarama/async_producer.go:767-779 | a flusher handing its oldest message back, one level up or to the error channel, keeps the order invariant |
| ProducerBrokers.ForwardKeeps | Godeps/_workspace/src/github.com/Shopify/sarama/async_producer.go:597-637 | the retry handler keeps the order invariant |
| ProducerLeader.RaisedKeeps | Godeps/_workspace/src/github.com/Shopify/sarama/async_producer.go:333-356 | seeing a new, higher retry level (chaser sent after the old messages, output dropped) keeps the order invariant |
| ProducerLeader.FlushKeeps | Godeps/_workspace/src/github.com/Shopify/sarama/async_producer.go:366-407 | flushing the buffered levels, down to one that still awaits its chaser, keeps the order invariant |
| ProducerLeader.LeadKeeps | Godeps/_workspace/src/github.com/Shopify/sarama/async_producer.go:333-412 | one whole turn of the leader dispatcher keeps the order invariant |
| ProducerAccount.EverythingAccountedFor | Godeps/_workspace/src/github.com/Shopify/sarama/async_producer.go:304-637 | in every run each submitted message is in exactly one place (waiting, in flight, buffered, acknowledged, returned), and a level awaits its chaser exactly when one chaser of that level is in flight |
| ProducerAccount.DispatchAccounts | Godeps/_workspace/src/github.com/Shopify/sarama/async_producer.go:333-412 | each message handled by the dispatcher is forwarded once, returned as an error, or kept in one buffer, and nothing else leaves a buffer |
| ProducerAccount.LeaderNeverFaults | Godeps/_workspace/src/github.com/Shopify/sarama/async_producer.go:333-412 | no index out of range and no send on the nil channel, in any reachable state and whatever the metadata refresh answers |
| ProducerAccount.LeaderLevels | Godeps/_workspace/src/github.com/Shopify/sarama/async_producer.go:304-412 | buffers at or above the high watermark are empty, a positive watermark awaits its chaser, no higher level does, and each buffer holds messages of its level only |
| ProducerOutcome.DrainTells | Godeps/_workspace/src/github.com/Shopify/sarama/async_producer.go:525-590 | in every run a flusher settles its oldest claimed message by the outcome of its latest request alone, read off the events: delivered, it joins the successes; after a fatal error the errors; after a retriable error or a broken connection it goes back one level up, or joins the errors if it has no retry left |
| ProducerOutcome.ScanTells | Godeps/_workspace/src/github.com/Shopify/sarama/async_producer.go:497-524 | in every run the next message of a batch is handed back exactly if the connection has broken or a retriable error was not followed by a chaser yet, and claimed for the request otherwise |
| ProducerOutcome.LeadTells | Godeps/_workspace/src/github.com/Shopify/sarama/async_producer.go:341-415 | a message at or above the watermark goes to the broker producer in use, or to the one that the refresh for its level names when there is none or the level is new, and is an error if that names none |
| ProducerOutcome.SuccessWasDelivered | Godeps/_workspace/src/github.com/Shopify/sarama/async_producer.go:553-574 | over every run a message is acknowledged only if it was among the claimed ones of a flusher when a request of that flusher was delivered |
| ProducerOutcome.OutcomeReachesAll | Godeps/_workspace/src/github.com/Shopify/sarama/async_producer.go:553-586 | whatever happens in between, all that a flusher has claimed when its request is delivered is acknowledged, and after a fatal error returned, once it has taken that many turns |
| ProducerOutcome.ErrorHasCause | Godeps/_workspace/src/github.com/Shopify/sarama/async_producer.go:739-779 | over every run a message is returned as an error only because it was refused at once, because its leader dispatcher found no broker for its level, because its request got a fatal error, or because it was handed back with no retry left |
| ProducerRoutines.LeaderDispatcher.Flush | Godeps/_workspace/src/github.com/Shopify/sarama/async_producer.go:366-407 | the flush loop ends, stays within the levels, and does what the flush of the step system does |
| ProducerRoutines.LeaderDispatcher.Handle | Godeps/_workspace/src/github.com/Shopify/sarama/async_producer.go:333-412 | the loop body on the dispatcher object does exactly the step system's dispatch |
| ProducerRoutines.FlusherRoutine.ScanMessage | Godeps/_workspace/src/github.com/Shopify/sarama/async_producer.go:497-524 | one message of a batch is claimed, or handed back because its partition is failing, or is the chaser that ends the failing |
| ProducerRoutines.FlusherRoutine.RetryMessages | Godeps/_workspace/src/github.com/Shopify/sarama/async_producer.go:767-779 | each message of a batch goes one level up on the retry channel, or is an error when its retries are used up |
| ProducerRoutines.FlusherRoutine.Process | Godeps/_workspace/src/github.com/Shopify/sarama/async_producer.go:497-590 | a whole batch: the messages up to the chaser that ends the failing, or all when the connection is gone, are handed back; the others are acknowledged on delivery, returned on a fatal error, and otherwise handed back too; handing back is one level up, or an error without a retry left; and the same is the batch of the model |
| ProducerRoutines.BatchTells | Godeps/_workspace/src/github.com/Shopify/sarama/async_producer.go:497-590 | the batch of the model comes to exactly that, for every outcome |
| ProducerRoutines.BatchIsRun | Godeps/_workspace/src/github.com/Shopify/sarama/async_producer.go:497-590 | handling a batch in one go is a run of the step system |
| SnappyRoutines.EncodeBlock | Godeps/_workspace/src/code.google.com/p/snappy-go/snappy/encode.go:82-149 | for every input of fewer than 2^32 bytes, every hash table content within range and any previous buffer, the encoder stays in bounds, writes at most n + n/60 + 6 bytes, and 7 + 3 for every 64 when all bytes are the same, and the decoder returns exactly the input |
| SnappyRoutines.EncodeBody | Godeps/_workspace/src/code.google.com/p/snappy-go/snappy/encode.go:99-146 | the search loop over the hash table: what is written decodes to the part of the input passed so far, and each match saves enough for the size bound |
| SnappyRoutines.EmitLiteral | Godeps/_workspace/src/code.google.com/p/snappy-go/snappy/encode.go:16-51 | writes one literal chunk at the position given and nothing before it changes |
| SnappyRoutines.EmitCopy | Godeps/_workspace/src/code.google.com/p/snappy-go/snappy/encode.go:54-76 | a copy is written in chunks of at most 64 bytes |
| SnappyRoutines.TableSize | Godeps/_workspace/src/code.google.com/p/snappy-go/snappy/encode.go:93-98 | the table is a power of two up to 2^14 and the shift matches it, so that every slot is in range |
| SnappyRoutines.Extend | Godeps/_workspace/src/code.google.com/p/snappy-go/snappy/encode.go:121-126 | a match is extended exactly as long as the bytes agree |
| SnappyRoutines.Probe | Godeps/_workspace/src/code.google.com/p/snappy-go/snappy/encode.go:112-130 | the table entry for four bytes is taken if and only if it is near enough and the bytes there are the same, and the slot holds the new position afterwards |
| SnappyRoutines.UniformSize | Godeps/_workspace/src/code.google.com/p/snappy-go/snappy/encode.go:93-149 | a repeated byte, which the scan finds to be one literal and one match, takes three bytes for every 64 and at most seven more |
| SnappyRoutines.DecodeBlock | Godeps/_workspace/src/code.google.com/p/snappy-go/snappy/decode.go:43-129 | the decoder's loop is the decoding function, for every input, malformed ones included |
| SnappyRoutines.DecodeChunk | Godeps/_workspace/src/code.google.com/p/snappy-go/snappy/decode.go:60-124 | one chunk: literal or overlapping copy, or the error that its bounds call for |
| SnappyRoutines.CopyWithin | Godeps/_workspace/src/code.google.com/p/snappy-go/snappy/decode.go:119-123 | the byte-by-byte copy repeats the bytes that it has just written when it overlaps them |
| SnappyRoutines.ReadUvarint | Godeps/_workspace/src/code.google.com/p/snappy-go/snappy/decode.go:28-37 | the header length as encoding/binary reads it, with its two failures |
| SnappyRoundTrip.AddLiteral | Godeps/_workspace/src/code.google.com/p/snappy-go/snappy/decode.go:64-96 | a literal chunk behind chunks that decode decodes to their text and the literal |
| SnappyRoundTrip.AddCopy | Godeps/_workspace/src/code.google.com/p/snappy-go/snappy/decode.go:98-123 | copy chunks decode to the match that they stand for, self-overlapping ones included |
| SnappyRoundTrip.BlockDecodes | Godeps/_workspace/src/code.google.com/p/snappy-go/snappy/decode.go:43-129 | a header and chunks that decode to src make a block that decodes to src in any buffer |
| SnappyRoundTrip.CopySize | Godeps/_workspace/src/code.google.com/p/snappy-go/snappy/encode.go:54-76 | the chunks of a copy are bounded by its length, the saving behind the size bound |
| SnappyFormat.DecodesExactly | Godeps/_workspace/src/code.google.com/p/snappy-go/snappy/decode.go:43-129 | for every input, malformed or not, and every buffer: decoding succeeds with an output if and only if the input is a length in any spelling of at most ten bytes and then elements, each spelled as the format says, that make up the output |
| SnappyFormat.BufferShows | Godeps/_workspace/src/code.google.com/p/snappy-go/snappy/decode.go:47-50 | what an input decodes to is the same for every destination buffer if and only if none of its copies has an offset of zero; such copies, which the encoder never writes, are not refused and keep what the buffer held |
| SnappyFormat.DecodesAnywhere | Godeps/_workspace/src/code.google.com/p/snappy-go/snappy/decode.go:43-129 | whether an input decodes, and to how many bytes, never depends on the buffer |
| SnappyFormat.ZeroOffsetExample | Godeps/_workspace/src/code.google.com/p/snappy-go/snappy/decode.go:113-123 | an input of three bytes that decodes differently into two buffers |
| SnappyFormat.CopyLength | Godeps/_workspace/src/code.google.com/p/snappy-go/snappy/encode.go:54-76 | the exact number of bytes that the chunks of a copy take |
| HuffmanRoutines.RoundTrip | Godeps/_workspace/src/github.com/bradfitz/http2/hpack/huffman.go:21-52 | decoding the encoding of any string gives the string, for every code table with the properties of Appendix B of RFC 7541 |
| HuffmanRoundTrip.DecodeEncoded | Godeps/_workspace/src/github.com/bradfitz/http2/hpack/huffman.go:21-52 | the byte-at-a-time walk over the trie decodes every correctly padded encoding |
| HuffmanRoundTrip.DecodesAny | Godeps/_workspace/src/github.com/bradfitz/http2/hpack/huffman.go:21-52 | on any bytes decoding gives the symbols of the codewords at the front of the bits, up to where no codeword follows, and runs into a nil node if and only if what is left there, filled up with zeros, is on no codeword's way |
| HuffmanRoundTrip.TrieAgreesWithSerial | Godeps/_workspace/src/github.com/bradfitz/http2/hpack/huffman.go:21-52 | on any bytes at all the trie decoder and a bit-by-bit decoder find the same symbols, and the former fails exactly if what the latter leaves over leads to no node |
| HuffmanTable.TableIsGood | Godeps/_workspace/src/github.com/bradfitz/http2/hpack/tables.go:75-353 | the 256 codewords of the program are prefix-free, are never completed by padding, and cover every padding, so that all theorems about good code tables hold of them |
| HuffmanTable.EosFails | Godeps/_workspace/src/github.com/bradfitz/http2/hpack/huffman.go:33-50 | with the program's table, the nil node is met wherever thirty ones, the codeword of the end of a string, follow the last symbol |
| HuffmanRoutines.AppendByte | Godeps/_workspace/src/github.com/bradfitz/http2/hpack/huffman.go:133-159 | one codeword is appended to the last, partly filled byte |
| HuffmanRoutines.AppendHuffmanString | Godeps/_workspace/src/github.com/bradfitz/http2/hpack/huffman.go:97-117 | the string's codewords follow what was in dst, the last byte filled with ones |
| HuffmanRoutines.HuffmanEncodeLength | Godeps/_workspace/src/github.com/bradfitz/http2/hpack/huffman.go:121-127 | the length is that of the encoding |
| HuffmanRoutines.HuffmanDecode | Godeps/_workspace/src/github.com/bradfitz/http2/hpack/huffman.go:21-52 | the decoder's loops are the decoding function, nil nodes included |
| HuffmanRoutines.AddDecoderNode | Godeps/_workspace/src/github.com/bradfitz/http2/hpack/huffman.go:78-93 | a symbol enters the trie without disturbing the others |
| HuffmanRoutines.BuildTrie | Godeps/_workspace/src/github.com/bradfitz/http2/hpack/huffman.go:66-76 | the trie built from a prefix-free table is the trie for that table |
| HpackLockStep.EvictEvict | Godeps/_workspace/src/github.com/bradfitz/http2/hpack/hpack.go:130-142 | evicting to one size and then to another is evicting to the smaller |
| HpackLockStep.IntegerParses | Godeps/_workspace/src/github.com/bradfitz/http2/hpack/hpack.go:390-421 | printed integers below 2^63 parse back, for every prefix and flag |
| HpackLockStep.StringParses | Godeps/_workspace/src/github.com/bradfitz/http2/hpack/hpack.go:423-445 | printed strings parse back, Huffman coded or not |
| HpackLockStep.FieldEmits | Godeps/_workspace/src/github.com/bradfitz/http2/hpack/encode.go:50-82 | the bytes of one WriteField make the decoder emit exactly that field, Sensitive included, and go on with the rest |
| HpackLockStep.FieldKeeps | Godeps/_workspace/src/github.com/bradfitz/http2/hpack/encode.go:50-82 | after WriteField the decoder's table still follows the encoder's, and equal tables are equal again |
| HpackChoices.FieldChoice | Godeps/_workspace/src/github.com/bradfitz/http2/hpack/encode.go:62-75 | a field that is known and not sensitive is written as its first index; any other as a literal, never indexed if sensitive, entered into the table if and only if it fits, with the first index of its name where there is one |
| HpackChoices.StringChoice | Godeps/_workspace/src/github.com/bradfitz/http2/hpack/encode.go:225-237 | the same of every string, from the lengths of the code table |
| HpackLockStep.EmitsWhatWasWritten | Godeps/_workspace/src/github.com/bradfitz/http2/hpack/encode.go:50-144 | over any sequence of WriteField and both size setters the decoder emits exactly the written fields and stays in step |
| HpackLockStep.TablesStayEqual | Godeps/_workspace/src/github.com/bradfitz/http2/hpack/encode.go:50-129 | when every size change is harmless in the sense of SetMaxSafe, both dynamic tables are equal after each WriteField |
| HpackLockStep.SizesAloneAreCareful | Godeps/_workspace/src/github.com/bradfitz/http2/hpack/encode.go:120-129 | WriteField and SetMaxDynamicTableSize alone are always harmless |
| HpackLockStep.SetMaxEqual | Godeps/_workspace/src/github.com/bradfitz/http2/hpack/encode.go:120-129 | tables bound to be equal stay so after a size change if and only if the size is not raised, or what the announced minimum leaves fits the size evicted to |
| HpackLockStep.SetMaxSafe | Godeps/_workspace/src/github.com/bradfitz/http2/hpack/encode.go:120-129 | a size change keeps the encoder's table equal to that of every decoder in step with it if and only if the size is not raised, no update is pending, the pending minimum is met by the current size, or no entry fits between what the encoder holds and what it will announce |
| HpackLockStep.SetLimitKeeps | Godeps/_workspace/src/github.com/bradfitz/http2/hpack/encode.go:138-144 | lowering the limit keeps both relations between the tables |
| HpackLockStep.CarelessTablesDiffer | Godeps/_workspace/src/github.com/bradfitz/http2/hpack/encode.go:138-144 | lowering the limit and raising it and the size again before the next field leaves an entry in the decoder that the encoder has evicted |
| HpackFragments.PiecesDoNotMatter | Godeps/_workspace/src/github.com/bradfitz/http2/hpack/hpack.go:231-260 | a block cut anywhere gives the same fields, table, remainder and first error as in one piece |
| HpackFragments.PiecesOfWhatWasWritten | Godeps/_workspace/src/github.com/bradfitz/http2/hpack/hpack.go:231-260 | encoder output cut anywhere decodes to the written fields with nothing left over |
| HpackFragments.OneLonger | Godeps/_workspace/src/github.com/bradfitz/http2/hpack/hpack.go:282-378 | more bytes never change what one representation parsed to, nor its error |
| HpackDecoder.TableStaysBounded | Godeps/_workspace/src/github.com/bradfitz/http2/hpack/hpack.go:231-260 | whatever bytes are written to a decoder, in whatever pieces, errors included, its table never takes more than the size allowed to it |
| HpackDecoder.SizeUpdateTells | Godeps/_workspace/src/github.com/bradfitz/http2/hpack/hpack.go:366-377 | a size update is refused exactly if it asks for more than is allowed; otherwise it sets the size and evicts |
| HpackDecoder.IndexTells | Godeps/_workspace/src/github.com/bradfitz/http2/hpack/hpack.go:316-329 | an indexed field is refused exactly if its index means nothing, and otherwise emits that entry, static ones first and then the newest |
| HpackDecoder.LiteralTells | Godeps/_workspace/src/github.com/bradfitz/http2/hpack/hpack.go:332-363 | the first byte of a literal says whether it enters the table and whether it is sensitive, and a name by index must mean something |
| HpackDecoder.StringTells | Godeps/_workspace/src/github.com/bradfitz/http2/hpack/hpack.go:423-445 | a string literal of any origin is its bytes, or the symbols of the codewords at their front, or fails where Huffman decoding meets a nil node |
| HpackDecoder.IntegerExamples | Godeps/_workspace/src/github.com/bradfitz/http2/hpack/hpack.go:390-421 | the integer examples of appendix C.1 of RFC 7541 |
| HpackRoutines.DynamicTable.EvictOld | Godeps/_workspace/src/github.com/bradfitz/http2/hpack/hpack.go:130-142 | the eviction loop leaves the longest newer part that fits |
| HpackRoutines.DynamicTable.SearchNewest | Godeps/_workspace/src/github.com/bradfitz/http2/hpack/hpack.go:164-185 | the search from the newest entry finds the first exact match, else the first name match, in the index order |
| HpackRoutines.HeaderEncoder.SearchTable | Godeps/_workspace/src/github.com/bradfitz/http2/hpack/encode.go:91-115 | both tables are searched as one index space |
| HpackRoutines.HeaderEncoder.Write | Godeps/_workspace/src/github.com/bradfitz/http2/hpack/encode.go:50-82 | WriteField on the encoder object writes and becomes what the function says |
| HpackRoutines.HeaderEncoder.SetMaxDynamicTableSize | Godeps/_workspace/src/github.com/bradfitz/http2/hpack/encode.go:120-129 | the size setter on the encoder object |
| HpackRoutines.HeaderEncoder.SetMaxDynamicTableSizeLimit | Godeps/_workspace/src/github.com/bradfitz/http2/hpack/encode.go:138-144 | the limit setter on the encoder object |
| HpackRoutines.AppendVarInt | Godeps/_workspace/src/github.com/bradfitz/http2/hpack/encode.go:207-218 | the loop of the integer printer appends the integer's encoding |
| HpackRoutines.AppendHpackString | Godeps/_workspace/src/github.com/bradfitz/http2/hpack/encode.go:225-237 | the top bit of the first byte says Huffman coding, used if and only if the bits of the codewords rounded up to bytes are fewer than the bytes; then the shorter length and as many bytes; and no literal without Huffman coding is shorter |
| HpackRoutines.ReadVarIntBytes | Godeps/_workspace/src/github.com/bradfitz/http2/hpack/hpack.go:390-421 | the integer loop, with its overflow check, is the parsing function |
| HpackRoutines.HeaderDecoder.ParseFieldLiteral | Godeps/_workspace/src/github.com/bradfitz/http2/hpack/hpack.go:332-363 | a literal is parsed, added and emitted, or nothing changes |
| HpackRoutines.HeaderDecoder.WriteBytes | Godeps/_workspace/src/github.com/bradfitz/http2/hpack/hpack.go:231-260 | Write on the decoder object is the function that the theorems are about |
| FramesRoutines.HeaderListArrives | Godeps/_workspace/src/github.com/bradfitz/http2/write.go:141-178 | a header list encoded, split over frames, written, read, parsed and fed to the HPACK decoder fragment by fragment comes back exactly |
| Frames.BlockArrives | Godeps/_workspace/src/github.com/bradfitz/http2/write.go:141-178 | the frames read back make up the block: pieces of 1 to 16384 bytes, HEADERS first, CONTINUATION after, END_HEADERS on the last only |
| Frames.HeadersComeBack | Godeps/_workspace/src/github.com/bradfitz/http2/frame.go:734-841 | any HEADERS frame, padded or with priority, is read back as written; an empty fragment is a stream error for the reader |
| Frames.FrameComes | Godeps/_workspace/src/github.com/bradfitz/http2/frame.go:289-319 | frame headers of nine bytes are read back, payload and rest untouched |
| Frames.HeadersBytes | Godeps/_workspace/src/github.com/bradfitz/http2/frame.go:806-841 | the bytes of a HEADERS frame: length, type 1, flags 1, 4, 8 and 20 (hexadecimal), stream, pad length, dependency with its exclusive bit, weight, fragment, padding |
| Frames.ContinuationBytes | Godeps/_workspace/src/github.com/bradfitz/http2/frame.go:966-977 | the bytes of a CONTINUATION frame: type 9, flag 4 on the last |
| Frames.HeadersRead | Godeps/_workspace/src/github.com/bradfitz/http2/frame.go:734-776 | a HEADERS payload of any origin: refused on stream 0, when it ends inside its optional parts, and when nothing is left in front of the padding; otherwise its parts by their positions |
| Frames.HeaderRead | Godeps/_workspace/src/github.com/bradfitz/http2/frame.go:227-244 | the nine bytes of any frame header, the reserved bit ignored |
| FramesRoutines.Framer.WriteHeadersFrame | Godeps/_workspace/src/github.com/bradfitz/http2/frame.go:806-841 | WriteHeaders hands over exactly one frame, or none with its error, with illegal writes allowed or not |
| FramesRoutines.Framer.WriteContinuationFrame | Godeps/_workspace/src/github.com/bradfitz/http2/frame.go:966-977 | WriteContinuation hands over exactly one frame, or none with its error, with illegal writes allowed or not |
| FramesRoutines.Framer.EndWrite | Godeps/_workspace/src/github.com/bradfitz/http2/frame.go:303-319 | the length is filled in over the three bytes reserved for it |
| FramesRoutines.Framer.WriteHeaderBlock | Godeps/_workspace/src/github.com/bradfitz/http2/write.go:141-178 | the splitting loop writes the frames of the block |
| FramesRoutines.Framer.ReadNext | Godeps/_workspace/src/github.com/bradfitz/http2/frame.go:369-392 | one frame is taken off the input, or the error of the first thing wrong with it: a clean end, an end inside a frame, too large a frame, a malformed one |
| SendSchedule.StreamsConserved | Godeps/_workspace/src/github.com/bradfitz/http2/writesched.go:67-246 | over every run, for every stream, the frames taken and those still queued are the frames added, in order, DATA possibly cut into pieces; window and bytes sent add up to what was granted |
| SendSchedule.PayloadConserved | Godeps/_workspace/src/github.com/bradfitz/http2/writesched.go:67-246 | over every run, for every stream, the DATA bytes taken followed by those still queued are the DATA bytes added, and so with the frames that end the stream |
| SendSchedule.ConnectionConserved | Godeps/_workspace/src/github.com/bradfitz/http2/writesched.go:183-231 | the connection window and all bytes sent add up to what was granted |
| SendSchedule.SplitKeepsPayload | Godeps/_workspace/src/github.com/bradfitz/http2/writesched.go:201-221 | cutting keeps the DATA payload and the number of frames that end the stream |
| SendSchedule.EndComesLast | Godeps/_workspace/src/github.com/bradfitz/http2/writesched.go:201-221 | END_STREAM comes with the last piece only |
| SendSchedule.FrameFits | Godeps/_workspace/src/github.com/bradfitz/http2/writesched.go:183-223 | no DATA frame is larger than the frame size, the stream's window or the connection's, and the windows it pays from stay non-negative |
| SendSchedule.TakesWhatFits | Godeps/_workspace/src/github.com/bradfitz/http2/writesched.go:183-223 | a head that is no DATA, is empty, or fits both windows and the frame size is taken whole; otherwise exactly the least of the three is, and the rest stays first with its end; both windows pay, other queues stay, and DATA goes only while nothing free stands at any head |
| SendSchedule.NothingFits | Godeps/_workspace/src/github.com/bradfitz/http2/writesched.go:110-150 | when nothing is taken, no control frame waits and every waiting head is DATA with one of its windows used up |
| SendRoutines.WriteScheduler.AddFrame | Godeps/_workspace/src/github.com/bradfitz/http2/writesched.go:86-105 | add puts the frame at the end of its queue, taken from the pool of empty queues if the stream was idle; no queue serves two purposes |
| SendRoutines.WriteScheduler.TakeNext | Godeps/_workspace/src/github.com/bradfitz/http2/writesched.go:110-150 | take is a step of the scheduler: control frames first, free frames before DATA, DATA only into open windows, nothing only when nothing may go, and no panic even with negative windows |
| SendRoutines.WriteScheduler.TakeHead | Godeps/_workspace/src/github.com/bradfitz/http2/writesched.go:183-231 | the head is taken whole or cut to what is allowed, windows pay for it, and an emptied queue returns to the pool |
| SendRoutines.WriteScheduler.ForgetStream | Godeps/_workspace/src/github.com/bradfitz/http2/writesched.go:233-246 | the queue of a forgotten stream is emptied and pooled |
| SendRoutines.WriteScheduler.CollectSendable | Godeps/_workspace/src/github.com/bradfitz/http2/writesched.go:136-143 | exactly the queues that may send something are collected |
| SendRoutines.Flow.Take | Godeps/_workspace/src/github.com/bradfitz/http2/flow.go:32-40 | bytes are taken from the stream and the connection alike |
| SendRoutines.Flow.Add | Godeps/_workspace/src/github.com/bradfitz/http2/flow.go:44-51 | the 32-bit sum, or a refusal that changes nothing |
| SendRoutines.AddIsExact | Godeps/_workspace/src/github.com/bradfitz/http2/flow.go:44-51 | add refuses exactly what passes 2^31-1 if and only if the window is not negative |
| WindowRoutines.ServerWindows.ProcessWindowUpdate | Godeps/_workspace/src/github.com/bradfitz/http2/server.go:1004-1028 | an increment is added to the stream's or the connection's window, as a step of the scheduler's model, exactly if the window is not negative and the sum fits; otherwise the error of the stream or the connection and no change |
| WindowRoutines.ServerWindows.ProcessSettingInitialWindowSize | Godeps/_workspace/src/github.com/bradfitz/http2/server.go:1111-1137 | the windows of all open streams change by the difference, below zero if it must be; it fails exactly if one of them cannot, with some of the others changed |
| WindowRoutines.ShiftedIsPath | Godeps/_workspace/src/github.com/bradfitz/http2/server.go:1125-1135 | such a change is a path of steps of the scheduler's model, so that everything proved about its runs holds across it |
| Inbound.AlwaysSafe | Godeps/_workspace/src/github.com/bradfitz/http2/server.go:1139-1189 | in every interleaving of DATA, reads and updates on any number of streams, window plus unread plus unreported bytes stay within 65535 per stream and in all; no buffer overflows, no update is refused, and handlers read the admitted bytes in order |
| Inbound.WithinWindowsIsAccepted | Godeps/_workspace/src/github.com/bradfitz/http2/server.go:1164-1178 | on an open body data is accepted if and only if it fits both windows |
| Inbound.WindowRestored | Godeps/_workspace/src/github.com/bradfitz/http2/server.go:1139-1189 | over every run, while the peer may send on a stream, its window, the unread and the unreported bytes and those taken for a closed body make up exactly the initial window; the bytes admitted are those of the accepted frames, and never more than declared |
| Inbound.ConnectionRestored | Godeps/_workspace/src/github.com/bradfitz/http2/server.go:1479-1487 | the same equation for the connection over all streams; its window is full again if and only if nothing is owed and nothing was ever discarded, since discarded bytes are not given back |
| Inbound.FullAgain | Godeps/_workspace/src/github.com/bradfitz/http2/server.go:1479-1487 | a stream whose reads are all noted and whose body was never closed has its full window |
| Inbound.DataTells | Godeps/_workspace/src/github.com/bradfitz/http2/server.go:1139-1189 | the outcome of a DATA frame in every case, and what becomes of state, body and windows |
| Inbound.NothingAfterEnd | Godeps/_workspace/src/github.com/bradfitz/http2/server.go:1143-1150 | once a stream has ended, its handler has returned or it was closed, its DATA is refused for good |
| InboundRoutines.ServerStream.ProcessDataFrame | Godeps/_workspace/src/github.com/bradfitz/http2/server.go:1139-1189 | processData on the stream object is the model's step, every error branch included |
| InboundRoutines.ServerStream.NoteBodyRead | Godeps/_workspace/src/github.com/bradfitz/http2/server.go:1479-1487 | the connection's window grows by exactly what was read, the stream's too while the peer may send on it, and the panic is unreachable |
| InboundRoutines.ServerStream.HandlerRead | Godeps/_workspace/src/github.com/bradfitz/http2/server.go:1549-1562 | the handler gets the oldest unread bytes, and they count as unreported |
| InboundRoutines.ServerStream.CloseBody | Godeps/_workspace/src/github.com/bradfitz/http2/server.go:1541-1547 | the handler closes the body, and what it holds stays to be read |
| InboundRoutines.SendWindowUpdate | Godeps/_workspace/src/github.com/bradfitz/http2/server.go:1490-1531 | any increment is added in steps that fit 31 bits; it panics exactly if the window would pass 2^31-1 |
| InboundRoutines.BodyBuffer.Write | Godeps/_workspace/src/github.com/bradfitz/http2/buffer.go:44-65 | the sliding buffer takes as much as it has room for in all |
| InboundRoutines.BodyBuffer.Read | Godeps/_workspace/src/github.com/bradfitz/http2/buffer.go:28-37 | reading takes the oldest bytes and reports the end or an empty buffer |
| Priority.AdjustKeepsForest | Godeps/_workspace/src/github.com/bradfitz/http2/server.go:1295-1329 | every reprioritization keeps the parent graph free of cycles, exclusive or not, onto a dependent or not, with closed parents still referenced |
| Priority.AdjustMoves | Godeps/_workspace/src/github.com/bradfitz/http2/server.go:1310-1328 | the stream lands under its new parent, the dependent it is put under goes to the old parent, an exclusive dependency adopts exactly the other open dependents |
| Priority.After | Godeps/_workspace/src/github.com/bradfitz/http2/server.go:1212-1228 | every sequence of openings, closings and reprioritizations leaves a forest |
| PriorityRoutines.IsAncestor | Godeps/_workspace/src/github.com/bradfitz/http2/server.go:1314-1319 | the walk up the parents ends and decides whether the stream is among them |
| PriorityRoutines.AdjustStreamPriority | Godeps/_workspace/src/github.com/bradfitz/http2/server.go:1295-1329 | the function on stream objects does exactly the adjustment, and sets the weight |
| PriorityRoutines.AdoptOthers | Godeps/_workspace/src/github.com/bradfitz/http2/server.go:1321-1327 | the loop over the open streams adopts the same ones in any order |
| KafkaWire.TwoPasses | Godeps/_workspace/src/github.com/Shopify/sarama/encoder_decoder.go:12-36 | whatever order each pass visits maps in, what the sizing pass accepts the writing pass writes without leaving the buffer, ending exactly at its end with an empty stack |
| KafkaWire.RunFills | Godeps/_workspace/src/github.com/Shopify/sarama/real_encoder.go:13-100 | the writing pass over one item writes its bytes at the offset, length and CRC fields patched over their own span, and leaves the rest alone |
| KafkaWire.PrepSizes | Godeps/_workspace/src/github.com/Shopify/sarama/prep_encoder.go:15-96 | the sizing pass adds up the size and refuses exactly what is too long |
| KafkaWire.ReorderedSize | Godeps/_workspace/src/github.com/Shopify/sarama/produce_request.go:32-53 | size and refusal do not depend on the order of a map |
| KafkaRoutines.Encode | Godeps/_workspace/src/github.com/Shopify/sarama/encoder_decoder.go:12-36 | encode returns the rendering, or an error exactly for what is too long or larger than the maximum request |
| KafkaRoutines.RealEncoder.TakeAll | Godeps/_workspace/src/github.com/Shopify/sarama/real_encoder.go:13-100 | the encoder object carries out the calls as the model does |
| KafkaRoutines.RealEncoder.PopPatch | Godeps/_workspace/src/github.com/Shopify/sarama/real_encoder.go:94-100 | pop patches the field pushed last |
| KafkaRoutines.PrepEncoder.TakeAll | Godeps/_workspace/src/github.com/Shopify/sarama/prep_encoder.go:15-96 | the sizing object counts as the model does |
| KafkaPasses.Message.Encode | Godeps/_workspace/src/github.com/Shopify/sarama/message.go:35-85 | the message of one call and the cache that it leaves, for every codec and either encoder: an oversized key leaves the cache alone, an oversized payload does not |
| KafkaPassRoutines.EncodeMessageSet | Godeps/_workspace/src/github.com/Shopify/sarama/encoder_decoder.go:20-34 | encode of a set of message objects, repeated ones and cached ones included: it writes what the writing pass asks for, demands only that this is no larger than what the sizing pass found, and says which caches are left, also when the set is refused or too large |
| KafkaPassRoutines.EncodeSet | Godeps/_workspace/src/github.com/Shopify/sarama/message_set.go:17-61 | one pass over the message objects is the pass of the model, with the caches that it leaves, and stops at the first message that is refused |
| KafkaPasses.PassesAgree | Godeps/_workspace/src/github.com/Shopify/sarama/message.go:48-84 | for every set and all caches: both passes see the same payloads whatever the compressor gives on each, if and only if every compressed message object stands once in the set and has no cache at the start (and a cache of any other message is its own value), unless some message is refused in any case |
| KafkaPasses.SettledAgree | Godeps/_workspace/src/github.com/Shopify/sarama/message.go:48-84 | in such a set the payloads are those of the sizing pass, which leaves a cache with exactly the compressed messages, and the writing pass leaves none |
| KafkaPasses.TwiceOverflows | Godeps/_workspace/src/github.com/Shopify/sarama/message.go:50-82 | a compressed object that stands twice: the writing pass may need more bytes than the buffer has |
| KafkaPasses.StaleOverflows | Godeps/_workspace/src/github.com/Shopify/sarama/message.go:50-82 | so it may for an object that stands once but kept a cache from an earlier call |
| KafkaPasses.RepeatedAgree | Godeps/_workspace/src/github.com/Shopify/sarama/message.go:48-84 | with a compressor that gives the same bytes for the same message every time, the passes agree on every set, repeated and cached messages included |
| KafkaPassRoutines.WritesIfItFits | Godeps/_workspace/src/github.com/Shopify/sarama/real_encoder.go:40-100 | the writing pass over a set gets through if and only if the buffer is large enough: truncated copies are caught when the CRC is patched |
| KafkaPrefix.PrefixDecodes | Godeps/_workspace/src/github.com/Shopify/sarama/message_set.go:63-83 | decoding any prefix of an encoded set gives exactly the messages wholly inside, with the partial flag set if and only if the cut is inside one |
| KafkaPrefix.SetRoundTrip | Godeps/_workspace/src/github.com/Shopify/sarama/message_set.go:53-83 | the whole set comes back, nil and empty keys and values apart |
| KafkaPrefix.SetRenders | Godeps/_workspace/src/github.com/Shopify/sarama/message_set.go:17-61 | the bytes of the prefix theorem are those that the encoder writes |
| KafkaPrefix.BlockBytesAre | Godeps/_workspace/src/github.com/Shopify/sarama/message_set.go:17-25 | the bytes of a block: eight of offset, four of length, four of checksum, version, codec, key and value, these with their lengths or minus one |
| KafkaPrefix.NodeBytesAre | Godeps/_workspace/src/github.com/Shopify/sarama/real_encoder.go:13-100 | the bytes of every kind of item: numbers in two's complement, strings behind two bytes of length, byte slices and arrays behind four, nil as minus one, and four bytes of length or checksum in front of what they cover |
| KafkaStrict.BlockWas | Godeps/_workspace/src/github.com/Shopify/sarama/message_set.go:27-46 | a block of any origin is accepted only if it is laid out so, with the length and the checksum of what follows them; only the upper bits of the attribute byte are free |
| KafkaStrict.SetWas | Godeps/_workspace/src/github.com/Shopify/sarama/message_set.go:63-83 | of any bytes, the messages decoded are those at the front, one behind the other, and what is left over starts with no block: nothing if the set neither failed nor is partial |
| KafkaPrefix.BytesCut | Godeps/_workspace/src/github.com/Shopify/sarama/real_decoder.go:74-98 | a byte slice cut anywhere is insufficient data, never something shorter |
| KafkaMessage.SignedBack | Godeps/_workspace/src/github.com/Shopify/sarama/real_decoder.go:16-54 | signed numbers of every width come back |
| KafkaRoutines.RealDecoder.GetByteSlice | Godeps/_workspace/src/github.com/Shopify/sarama/real_decoder.go:74-98 | the getter moves behind what it takes, or to the end when there is too little |
| KafkaRoutines.RealDecoder.DecodeMessage | Godeps/_workspace/src/github.com/Shopify/sarama/message.go:87-150 | a message is decoded and its CRC checked, the stack restored |
| KafkaRoutines.RealDecoder.DecodeBlock | Godeps/_workspace/src/github.com/Shopify/sarama/message_set.go:27-46 | a block is decoded and its length checked, the stack restored |
| KafkaRoutines.MessageSet.Decode | Godeps/_workspace/src/github.com/Shopify/sarama/message_set.go:63-83 | the loop appends what decodes; the flag is only ever set |
| KafkaRoutines.DecodeAll | Godeps/_workspace/src/github.com/Shopify/sarama/encoder_decoder.go:46-62 | a decoded set always uses the buffer up |
| Proto.RoundTrip | Godeps/_workspace/src/github.com/golang/protobuf/proto/decode.go:344-437 | Unmarshal of Marshal is the identity for every schema of any nesting and every message, negative enums and present-but-empty messages included |
| Proto.SizeAgrees | Godeps/_workspace/src/github.com/golang/protobuf/proto/encode.go:1205-1220 | Size is the length of Marshal, for every schema and message |
| Proto.EventRoundTrip | devicepresence/devicepresence.pb.go:120-140 | every event with or without its device comes back |
| Proto.EventMessageInjective | devicepresence/devicepresence.pb.go:100-140 | different events are different messages |
| Proto.DeviceBytes | devicepresence/devicepresence.pb.go:100-105 | the bytes of a device: its id under key 0a with its length, its type under 10, the user's id under 1a with its length, its status under 20, what is empty or zero left out |
| Proto.EventBytes | devicepresence/devicepresence.pb.go:111-114 | the bytes of an event: its timestamp under key 08 and its device under 12 with its length |
| Proto.EventExample | devicepresence/devicepresence.pb.go:100-114 | an event with every field set, byte by byte |
| ProtoMerge.Concatenated | Godeps/_workspace/src/github.com/golang/protobuf/proto/decode.go:344-437 | decoding bytes that stand behind other bytes is decoding both in turn into the same message, for every schema and whatever wrote them |
| ProtoMerge.LaterWins | Godeps/_workspace/src/github.com/golang/protobuf/proto/decode.go:487-532 | a number or string that comes again replaces the earlier one, whatever that was |
| ProtoMerge.EmbeddedMerges | Godeps/_workspace/src/github.com/golang/protobuf/proto/decode.go:747-776 | an embedded message that comes again is merged into the one that is there |
| ProtoMerge.UnknownIgnored | Godeps/_workspace/src/github.com/golang/protobuf/proto/decode.go:246-283 | a field with a tag that the schema does not know, of any wire type but groups, changes nothing in front of whatever follows |
| Proto.VarintComes | Godeps/_workspace/src/github.com/golang/protobuf/proto/decode.go:81-104 | every 64-bit number comes back from its varint |
| Proto.SignComesBack | Godeps/_workspace/src/github.com/golang/protobuf/proto/encode.go:339-348 | sign extension to 64 bits is undone by the decoder's truncation |
| ProtoRoutines.Buffer.ShiftLength | Godeps/_workspace/src/github.com/golang/protobuf/proto/encode.go:1230-1255 | after the shift the buffer is the old prefix, the varint of the body's length and the body, for any length |
| ProtoRoutines.Buffer.PutLength | Godeps/_workspace/src/github.com/golang/protobuf/proto/encode.go:1250-1254 | the length is appended in place over the reserved bytes and never reaches the message behind |
| ProtoRoutines.Buffer.EncStruct | Godeps/_workspace/src/github.com/golang/protobuf/proto/encode.go:1173-1203 | fields are appended in tag order, zero values skipped, nested messages included |
| ProtoRoutines.Buffer.EncodeVarint | Godeps/_workspace/src/github.com/golang/protobuf/proto/encode.go:99-106 | the loop appends the varint, in place where there is room |
| ProtoRoutines.SizeOfVarintLoop | Godeps/_workspace/src/github.com/golang/protobuf/proto/encode.go:108-117 | the loop counts the bytes of the varint |
| ProtoRoutines.Decoder.DecodeVarint | Godeps/_workspace/src/github.com/golang/protobuf/proto/decode.go:81-104 | at most ten bytes, higher bits lost, with both errors |
| ProtoRoutines.Decoder.DecodeRawBytes | Godeps/_workspace/src/github.com/golang/protobuf/proto/decode.go:178-204 | a length and as many bytes, or the error of what is wrong |
| ProtoRoutines.Decoder.SkipField | Godeps/_workspace/src/github.com/golang/protobuf/proto/decode.go:246-283 | unknown fields are skipped by wire type, groups to their end |
| ProtoRoutines.Decoder.UnmarshalType | Godeps/_workspace/src/github.com/golang/protobuf/proto/decode.go:344-437 | the decoding loop, for fields in any order, repeated or unknown, with every error |
| ProtoRoutines.Decoder.DecField | Godeps/_workspace/src/github.com/golang/protobuf/proto/decode.go:747-776 | an embedded message is decoded in its own buffer, merged into what is there, and the outer buffer resumes |
| Metadata.Client.TryRefreshMetadata | Godeps/_workspace/src/github.com/Shopify/sarama/client.go:483-531 | ends whatever the brokers answer; the log of what it did leads from the client's old state to its new one; each response that calls for a retry and each revival of the dead costs one attempt and is followed by a call; it ends with a response that calls for no retry or has none left, and its error, with a request that cannot be encoded, or with no broker left; the first calls ask for the given topics and later ones for exactly those that the latest response calls for; it runs out only with no seed or broker left, and when all fail asks every known address once in each further attempt |
| Metadata.EndsAccounted | Godeps/_workspace/src/github.com/Shopify/sarama/client.go:483-531 | what each kind of event in a refresh is followed by, what it costs, and how it ends |
| Metadata.EndsAsks | Godeps/_workspace/src/github.com/Shopify/sarama/client.go:491-511 | which topics each call of a refresh asks for |
| Metadata.TopicLeft | Godeps/_workspace/src/github.com/Shopify/sarama/client.go:555-590 | after a refresh a topic is what the last response that names it said last |
| Metadata.BrokerLeft | Godeps/_workspace/src/github.com/Shopify/sarama/client.go:538-551 | after a refresh a broker is registered as the last response that lists it said, unless it failed since |
| Metadata.Client.DisconnectBroker | Godeps/_workspace/src/github.com/Shopify/sarama/client.go:325-346 | one seed or broker fewer, its address kept as dead, no known address lost |
| Metadata.Client.ResurrectDeadBrokers | Godeps/_workspace/src/github.com/Shopify/sarama/client.go:348-364 | every seed and dead address becomes a seed once, and there is a first one |
| Metadata.Client.UpdateMetadata | Godeps/_workspace/src/github.com/Shopify/sarama/client.go:534-599 | a listed broker is the one registered under its id; a topic that was answered maps every partition id to its last partition, or is absent if its error is other than a missing leader; all else is as before; the names to ask for again are those of unknown and leaderless topics, and the error is that of the last topic with one |
| Presence.WindowIsExact | util/bucket.go:31-56 | with one clock reading, a key written at t0 is read at t exactly for the same user and a minute in the six-minute window; this holds at every time except within the first five minutes after the epoch off a full minute |
| Presence.ClockMustNotTurn | util/bucket.go:50-56 | the clock is read once per bucket: no minute of the window is skipped if and only if all readings fall into one minute |
| Presence.KeysInjective | util/bucket.go:31-33 | keys are equal only for the same user and index, whatever colons the user id has |
| Presence.KeyExamples | util/bucket_test.go:28-78 | the keys that the repository's tests name |
| Presence.BucketRange | util/bucket.go:50-56 | the range holds one bucket per offset, in order |
| Presence.DeviceComesBack | devicepresence/manager.go:149-174 | a device key gives back id and type exactly for registered types, even when the id has colons |
| Presence.DeviceKeysInjective | devicepresence/manager.go:100-102 | keys of registered types tell devices apart |

## Left out

- The reduction from goroutines to the step system of the producer: each step of a dispatcher, flusher or retry handler is taken to be atomic, because all of them talk over FIFO channels only. Which broker producer a leader dispatcher gets is left to the environment, as are request outcomes and batch sizes.
- Producer shutdown, deadlock freedom, real time, message aggregation by size, resubmission of a message object that was returned, and the clearing of flags on returned messages.
- Messages whose key or value encoder fails: the producer returns them as errors but leaves an empty place for them in the request.
- A failed request is taken to append nothing at the broker. Duplicates from requests that succeeded with a lost response are outside the model.
- SnappyRoutines.EncodeBlock: destination and source are separate arrays, and `int` has 64 bits; the framing reader and writer are not modelled.
- SnappyRoutines.DecodeBlock: a header that overflows 64 bits makes the program slice out of range, which the model gives back as an error of its own.
- HuffmanRoutines.HuffmanDecode: the code table is a parameter that meets checkable conditions (TableIsGood says that the program's does), the 256-way nodes are a map from byte paths to nodes, and a nil node, where the program panics, is a failure.
- HpackRoutines.DynamicTable.EvictOld: sizes are counted without 32-bit wrap-around, for fields whose own size fits 32 bits; constant-time comparison is plain comparison.
- HpackLockStep.SetMaxEqual: the decoder is taken to allow the sizes that the encoder announces; its own setters for the maximum and allowed sizes are not part of the runs. The condition speaks of the decoder's table; SetMaxSafe has the one that a caller can see.
- HpackFragments.PiecesDoNotMatter: bytes written after an error are outside it, since a connection ends there; aliasing between the saved buffer and the caller's is not modelled.
- Frames.HeadersComeBack: the reader's buffer is reused by the program, so that a fragment is good until the next read only; here frames are values.
- FramesRoutines.Framer.ReadNext: the parsers of frame types other than HEADERS and CONTINUATION are not modelled; such frames are read as plain payloads.
- SendRoutines.WriteScheduler.TakeHead: DATA to write is part of the queued message instead of an object behind a pointer, and pointers to queues are numbers, so that sharing of one data object between messages is not captured; the queues, their pool and the windows are.
- SendRoutines.WriteScheduler.TakeNext: the slice of candidates that the program keeps between calls is a local variable.
- InboundRoutines.SendWindowUpdate: it is called on windows that are not negative, which AlwaysSafe says inbound windows never are.
- InboundRoutines.ServerStream.NoteBodyRead: the WINDOW_UPDATE frames themselves are not written, and the condition variable of the pipe is not modelled.
- WindowRoutines.ServerWindows.ProcessSettingInitialWindowSize: the other settings, and the removal of streams from the open ones, are not part of this class.
- Inbound.AlwaysSafe: connection setup, SETTINGS and the resetting of streams after an error are not part of the runs; a stream after an error simply stays in its state until it is closed.
- Priority.After: a HEADERS frame that carries a priority is an opening followed by a reprioritization.
- KafkaMessage.GetPair: compressed messages are rejected by the model's decoder; in the program they are decompressed and the set inside is decoded. The CRC and the compressors are opaque functions.
- KafkaPassRoutines.EncodeMessageSet: where the writing pass needs more bytes than the sizing pass found, the program runs off its buffer, which is excluded here; PassesAgree and WritesIfItFits say when that can happen. A message keeps its codec, key and value between the passes.
- KafkaRoutines.RealDecoder.DecodeMessage: a compressed message is answered as invalid, where the program decompresses it and decodes the set inside, which may nest without bound.
- KafkaRoutines.RealDecoder.DecodeBlock: the same for the block of a compressed message.
- KafkaRoutines.MessageSet.Decode: the same for a set that holds a compressed message.
- KafkaRoutines.DecodeAll: the same for a buffer that holds one.
- KafkaWire.TwoPasses: string and array getters that only other requests use are not modelled, nor are the request types beyond what a tree of fields expresses.
- Proto.RoundTrip: reflection, extensions, maps, groups as fields, repeated, required, fixed-width and floating-point fields are not part of the schemas; messages with their own Marshal method neither.
- ProtoRoutines.Buffer.Append: how much a slice grows is a choice of the model; the proofs do not depend on it.
- Metadata.Client.TryRefreshMetadata: runs alone, as the locks do not span it; brokers are values, and which registered broker is asked is arbitrary. Opening and closing connections and the partition caches are left out.
- Presence.WindowIsExact: Redis, the expiry of its keys and the 64-bit range of durations are left out.
- Sockets, TLS, logging, gRPC plumbing, HTTP handlers, the Redis pool, consumers and offset management.
