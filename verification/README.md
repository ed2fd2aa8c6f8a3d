# Verified models of franz-go

franz-go is a Kafka client in Go together with a fake cluster for tests, an
admin client and a generator of wire-format code. This project models, in Dafny,
the parts of it whose correctness is hardest to see from the code, and proves
what they promise for every input, every interleaving or every run.

`dafny verify dfyconfig.toml` verifies everything.

**The wire codec** (`generate/gen.go`, `pkg/kbin/primitives.go`). The generator walks a
schema tree and emits an encoder and a decoder for it: gated by version, compact
in flexible versions, nullable, tagged, nested. `Varints` and `Kbin` are the
primitives, `Reader` is the object that decoders consume, `Schema` the tree and
the Go values of its types, `Codec` the wire format and the meaning of decoders,
`Decoder` the emitted decoders as they run, and `Emitted` the emitted encoders as
they grow their slice. `RoundTrip` proves one theorem by induction over schemas:
a decoder whose schema may lack the newest tags, at any depth, reads what an
encoder with the full schema wrote. Round trips, forward compatibility and
unambiguity follow from it in `Messages`. `WireFormat` says in numbers what the bytes are
and which fields travel at a version, and `Malformed` what decoders make of bytes that
no encoder wrote; a message cut short anywhere is refused.

**The request pipeline** (`pkg/kgo/ring.go`, `pkg/kgo/broker.go`,
`pkg/kgo/atomic_maybe_work.go`). `Rings` is the eight-slot ring with its overflow,
`RingProtocol` a ring with the worker that drains it, `Pipeline` a ring of requests
chained to a ring of awaited responses per connection, `Correlation` what its runs do
with correlation IDs and deaths, and `WorkLoop` the compare-and-swap loop. Mutex sections and single atomic operations are the steps,
and steps of different goroutines interleave freely.

**The group coordinator** (`pkg/kfake/groups.go`). `Groups` says what every request and
timeout does to a group, `GroupInvariant` what they all keep, `GroupRuns` and
`GroupTheorems` what holds in every run, `GroupReplies` which answer each request gets in
each state and what is in it, `GroupWitnesses` has three runs that go wrong, and
`Coordinator` is the object with its fields. Each of its methods is proved to leave the fields, to send the replies and to
panic exactly as `Groups` says, for whatever order Go iterates over its maps in.

**The partition log** (`pkg/kfake/data.go`, `pkg/kfake/pid.go` and their handlers).
`PartitionLog` relates a log to everything ever appended to it, `PartData` is the
object with its binary searches, `Producers` the five-slot window of an idempotent
producer, `Produce` whole runs of a partition, `Fetch` the response under its byte
limits, and `ResponseWriter` the reordering of responses on a connection.

**Group lag** (`pkg/kadm/groups.go`). `Lag` is the calculation in three passes over
nested maps.

## Conventions

- Bytes and machine words are `int` subsets. Masks are remainders, shifts are
  quotients or products, an `|` of words without common bits is a sum, and every
  truncation is written out.
- A reader's value is a `Source`: the unread bytes and whether it was invalidated.
- Where Go iterates over a map, the object models pick an arbitrary key each time;
  the functions they are proved against take the order as an argument or do not
  depend on it.
- Requests, connections and producers are numbers; error values are datatypes.

## Where the code and its promises part

Each of these is a lemma with the exact condition, or a witness next to it.

- A flexible struct without fields is encoded with a tag section that its decoder
  does not read, so that it does not round-trip unless it is nil
  (`EmptyStructLeavesTags`). As an array element it is left behind with all others, so
  that the array round-trips if and only if it is empty (`BlankElements`); as a field its
  tag section is taken for that of the struct around it (`BlankField`). A whole message
  without fields is read back, and loses its unknown tags if it has any
  (`MessageRoundTrip`).
- `Default()` of a nullable struct is generated empty, so a field that does not travel
  decodes to its default if and only if that is the zero value
  (`AbsentField`, `NullableLosesDefault`).
- An array is decoded if and only if it has no more elements than bytes follow its
  length (`ArrayDecodes`).
- The documentation of `Reader` says that an invalidated reader returns defaults; but a
  compact array length is -1, and a nullable string that is not compact and compact
  bytes are empty and not nil (`InvalidatedReads`).
- However a rebalance comes to complete, the members that stay are all told that they
  lead if and only if there are two or more and the old leader is not among them
  (`RebalanceLeaders`, and in terms of the group before each operation `RemoveLeaders`,
  `UpdateLeaders`, `AddLeaders`, `TimerLeaders`). `TwoLeaders` is a run from the
  creation of a group in which it happens.
- A join is let in if it shares a protocol with any member or lists one that somebody
  once listed, which does not make a protocol common to all. A rebalance panics if and
  only if it completes and the members that stay have no protocol in common
  (`CompletePanics`, `RebalancePanics`, and in terms of the group before each operation
  `RemovePanics`, `UpdatePanics`, `AddPanics`, `TimerPanics`). `ProtocolPanics` is a run
  from the creation of a group to the panic.
- When the last member goes the group becomes empty if and only if the join count is
  not negative, which a member that leaves while it waits in sync can make it; otherwise
  an offset commit panics (`LastMemberLeaves`, `StrandedGroup`). `CommitPanics` is a run
  from the creation of a group to the panic.
- With a broker that answers in order, a response with the wrong correlation ID still
  comes. In every run it needs a failed read, after which the reader called `die` when
  somebody else had swapped the flag already and had not closed the connection yet
  (`MismatchNeedsLostSwap`); and whenever that is so and another response is awaited, it
  comes exactly when the stream does not continue with that response
  (`MismatchAfterLostSwap`). `MismatchIsReachable` is a run from the start.
- Asked about epoch 2147483647, the leader-epoch lookup wraps its search key
  (`EpochReplySplits`).
- With all batches trimmed, the high watermark is neither found nor at the end of the log
  (`IsSearch`, the contract of `SearchOffset`).
- A fresh batch is taken for a duplicate if and only if sequence numbers have come full
  circle within the window (`FreshIsLostIff`, `FreshCanBeLost`).
- A batch may claim any number of records. Below zero it moves the high watermark back,
  the records above it are no longer found, and the next batch shares offsets with
  retained ones; at zero it stays in a log that retains nothing, without holding the log
  start (`AppendEffects`, `StillFound`, `NextOverlaps`, `NegativeBatchPasses`).
- A partition that is only listed gets a lag although it has an error exactly when its
  start is known (`OnlyListed`, with `ErrorWithLag` as an input).

## Model

| member | source | states |
|---|---|---|
| `Varints.TableRoundsUp` | pkg/kbin/primitives.go:76-78 | the table holds, for each bit length, the number of seven-bit groups it needs, and one for zero |
| `Varints.UvarlongLen` | pkg/kbin/primitives.go:97-99 | the table's answer for a 64-bit number is the number n of groups with 128^(n-1) <= u < 128^n, or 1 |
| `Varints.UvarintLen` | pkg/kbin/primitives.go:86-89 | the same for 32-bit numbers, at most 5 |
| `Varints.Uvarint` | pkg/kbin/primitives.go:109-157 | the unrolled 32-bit decoder agrees on every byte string with finding the last group and adding the groups up: value, consumed length, truncation and overflow |
| `Varints.Uvarlong` | pkg/kbin/primitives.go:167-247 | the unrolled 64-bit decoder agrees with the same definition on every byte string |
| `Varints.UvarlongHigh` | pkg/kbin/primitives.go:203-247 | its second half, from the sixth byte on |
| `Varints.AppendUvarint` | pkg/kbin/primitives.go:254-283 | the unrolled encoder appends the recursive seven-bit-group encoding |
| `Varints.AppendUvarlong` | pkg/kbin/primitives.go:290-368 | the same for 64-bit numbers |
| `Varints.AppendLongUvarlong` | pkg/kbin/primitives.go:292-341 | its cases of six bytes and more |
| `Varints.LebRoundTrip32` | pkg/kbin/primitives.go:109-157 | decoding inverts encoding for every 32-bit number, whatever follows, and consumes exactly the encoding |
| `Varints.LebRoundTrip64` | pkg/kbin/primitives.go:167-247 | the same for 64-bit numbers |
| `Varints.ShortestEncoding` | pkg/kbin/primitives.go:80-99 | no byte string that decodes to a number is shorter than the length table says |
| `Varints.ZigZagBijection32` | pkg/kbin/primitives.go:101-107 | the zigzag maps of varints are inverse to each other and give small codes to numbers near zero |
| `Varints.ZigZagBijection64` | pkg/kbin/primitives.go:159-165 | the same for varlongs |
| `Kbin.BigEndianByte` | pkg/kbin/primitives.go:31-74 | byte k of a number in w bytes is the number divided by 256^(w-1-k), modulo 256: the most significant one comes first |
| `Kbin.ReadIntBack` | pkg/kbin/primitives.go:31-74 | every number of every width and kind reads back as itself and leaves what follows |
| `Kbin.ReadLenBack` | pkg/kbin/primitives.go:370-459 | every length prefix that fits its width, and the one for nil, reads back |
| `Kbin.ReadSizedBack` | pkg/kbin/primitives.go:655-773 | strings and bytes of all kinds read back, compact or not, nullable or not |
| `Kbin.ReadSpanBack` | pkg/kbin/primitives.go:640-650 | a span returns exactly its bytes |
| `Kbin.ReadArrayLenBack` | pkg/kbin/primitives.go:775-812 | an array length reads back if and only if at least as many bytes follow it; otherwise the reader is invalidated |
| `Kbin.InvalidatedReads` | pkg/kbin/primitives.go:494-833 | what every read of an invalidated reader returns, with the three exceptions to its documentation, and that it stays invalidated |
| `KbinReader.Reader.Bool` | pkg/kbin/primitives.go:504-514 | consumes in place: one byte, true unless zero; on failure drops the rest and invalidates the reader |
| `KbinReader.Reader.Int8` | pkg/kbin/primitives.go:516-526 | consumes in place: a signed byte; on failure drops the rest and invalidates the reader |
| `KbinReader.Reader.Int16` | pkg/kbin/primitives.go:528-538 | consumes in place: two bytes, signed; on failure drops the rest and invalidates the reader |
| `KbinReader.Reader.Uint16` | pkg/kbin/primitives.go:540-550 | consumes in place: two bytes; on failure drops the rest and invalidates the reader |
| `KbinReader.Reader.Int32` | pkg/kbin/primitives.go:552-562 | consumes in place: four bytes, signed; on failure drops the rest and invalidates the reader |
| `KbinReader.Reader.Uint32` | pkg/kbin/primitives.go:592-602 | consumes in place: four bytes; on failure drops the rest and invalidates the reader |
| `KbinReader.Reader.Int64` | pkg/kbin/primitives.go:564-590 | consumes in place: eight bytes, signed; on failure drops the rest and invalidates the reader |
| `KbinReader.Reader.Uvarint` | pkg/kbin/primitives.go:628-638 | consumes in place: an unsigned varint by the unrolled decoder; on failure drops the rest and invalidates the reader |
| `KbinReader.Reader.Varint` | pkg/kbin/primitives.go:604-614 | consumes in place: a zigzag varint; on failure drops the rest and invalidates the reader |
| `KbinReader.Reader.Varlong` | pkg/kbin/primitives.go:616-626 | consumes in place: a zigzag varlong; on failure drops the rest and invalidates the reader |
| `KbinReader.Reader.Span` | pkg/kbin/primitives.go:640-650 | consumes in place: as many bytes as asked, nil if there are not enough or the reader is invalidated; on failure drops the rest and invalidates the reader |
| `KbinReader.Reader.String` | pkg/kbin/primitives.go:660-678 | consumes in place: a string, never nil; on failure drops the rest and invalidates the reader |
| `KbinReader.Reader.NullableString` | pkg/kbin/primitives.go:692-723 | consumes in place: nil for a negative length, and not nil otherwise even on failure; on failure drops the rest and invalidates the reader |
| `KbinReader.Reader.Bytes` | pkg/kbin/primitives.go:725-751 | consumes in place: a length of -1 reads as empty; on failure drops the rest and invalidates the reader |
| `KbinReader.Reader.NullableBytes` | pkg/kbin/primitives.go:753-773 | consumes in place: nil for a negative length; on failure drops the rest and invalidates the reader |
| `KbinReader.Reader.ArrayLen` | pkg/kbin/primitives.go:775-812 | consumes in place: a length that does not exceed the bytes left; on failure drops the rest and invalidates the reader |
| `Schema.TagsAreBelowCount` | generate/gen.go:193-201 | tags without repetition that include 0 to n-1, where n is their number, are exactly those: the generator's check is enough |
| `Schema.OlderReflexive` | generate/gen.go:162-296 | every schema may read what it wrote itself |
| `RoundTrip.EntriesBack` | generate/gen.go:568-589 | the tag loop, run on an encoded tag section, puts each known tag's value in its field and each unknown tag's bytes among the unknown, and leaves what follows |
| `RoundTrip.DecodeBack` | generate/gen.go:436-590 | for every pair of schemas of which one may lack the newest tags at any depth, every version and every encodable value, decoding the encoding followed by anything gives the projected value and leaves exactly what follows, the reader still valid |
| `Messages.ExactRoundTrip` | generate/gen.go:162-296 | a value in the form decoders produce comes back identical, at every version, with any suffix |
| `Messages.Unambiguous` | generate/gen.go:162-296 | no encoding is the beginning of another: bytes determine the value and its end |
| `Messages.AbsentField` | generate/gen.go:592-627 | a field that does not travel at a version decodes to its default if and only if the struct is not nullable or the default is the zero value |
| `Messages.LeftOut` | generate/gen.go:205-235 | a tagged field is left out exactly when it equals its default, or for an array that cannot be nil when it is empty; a nullable struct never is |
| `Messages.NullableLosesDefault` | generate/gen.go:592-595 | the smallest schema and value for which a round trip loses a tagged number |
| `Messages.ForwardCompatible` | generate/gen.go:568-589 | a reader that lacks the newest tags gets every field it has as the full reader would, the exact bytes of every tag it lacks and of no other, and the tags nobody knows |
| `Messages.OccupiesAByte` | pkg/kbin/primitives.go:776-779 | at a version at which a type occupies a byte by its schema, every value of it does |
| `Messages.ElementsOccupy` | pkg/kbin/primitives.go:776-779 | then an array of it has at least as many bytes as elements, as the reader's check assumes |
| `Messages.ArrayDecodes` | generate/gen.go:436-496 | an array decodes to its projection if it has no more elements than bytes follow, and fails if it has more |
| `Messages.EmptyStructLeavesTags` | generate/gen.go:529-532 | a flexible struct without fields, nullable or not, round-trips if and only if it is nil |
| `Messages.EmptyLeaves` | generate/gen.go:529-532 | its decoder leaves exactly the tag section unread and returns no unknown tags |
| `Messages.BlankElements` | generate/gen.go:436-532 | an array of structs without fields round-trips if and only if it is empty; otherwise all its elements are left unread |
| `Messages.BlankField` | generate/gen.go:529-589 | a struct with such a field takes the tag section of the field for its own, unknown tags included, and leaves its own unread |
| `Messages.ReadsOwnVersion` | generate/gen.go:759-785 | a message that carries its version is decoded at that version, whatever version the receiver had |
| `Messages.MessageRoundTrip` | generate/gen.go:744-785 | ReadFrom returns what AppendTo appended, whatever trails it, except exactly the unknown tags of a flexible message without fields |
| `WireFormat.FieldTravels` | generate/gen.go:300-324 | a field with a version range decodes, from its least to its greatest version or without bound, to what its value decodes to by itself; outside and without a tag to its default, or zero in a nullable struct |
| `WireFormat.FieldBytes` | generate/gen.go:162-186 | a field adds its own encoding inside its version range and no byte outside |
| `WireFormat.StructSize` | generate/gen.go:162-186 | a struct without tag section is exactly as long as its fields in range, and one byte more if nullable |
| `WireFormat.OneNumber` | generate/gen.go:311-312 | one 32-bit number takes four bytes and comes back inside its range, and takes none and comes back as its default outside |
| `WireFormat.SizedFormat` | generate/gen.go:60-103 | the length before a string or slice: a uvarint of one more, two bytes, four bytes, or a varint, by type and version |
| `WireFormat.ArrayFormat` | generate/gen.go:109-160 | the number before the elements of an array |
| `WireFormat.NilFormat` | pkg/kbin/primitives.go:370-459 | the bytes of nil wherever it has a form of its own |
| `WireFormat.PresenceFormat` | generate/gen.go:164-170 | a nullable struct is the byte 255 if nil and begins with the byte 1 otherwise |
| `WireFormat.TagSection` | generate/gen.go:193-296 | the tag section is a count and that many entries in increasing order of tags; every tagged field that is written is among them with its own encoding, and every unknown tag with its bytes |
| `WireFormat.FlexibleFrom` | generate/gen.go:744-757 | a message has a tag section exactly from its first flexible version on |
| `WireFormat.NilString` | generate/gen.go:408-430 | a nil string comes back as nil from its first nullable version on and as empty before |
| `WireFormat.NilBytes` | generate/gen.go:400-406 | a nil slice comes back as nil, or as empty if its type is not nullable |
| `WireFormat.NoElements` | generate/gen.go:436-496 | when an array without elements comes back as nil and when as empty |
| `Malformed.DecodeSteady` | generate/gen.go:381-590 | for every schema and every input: decoding that leaves the reader valid gives the same value, and leaves what follows, if any bytes follow |
| `Malformed.PrefixFails` | generate/gen.go:436-590 | no proper beginning of an encoding decodes |
| `Malformed.Truncated` | generate/gen.go:759-785 | ReadFrom refuses every message that has been cut short, wherever the cut is |
| `Malformed.ReadsAtItsVersion` | generate/gen.go:759-785 | any input to a message that carries its version is decoded at the version it begins with, and refused if it has none |
| `Malformed.AnyByte` | pkg/kbin/primitives.go:504-526 | any byte but zero is true; a nullable struct is nil for 255 and follows any other byte |
| `Malformed.NegativeBytes` | pkg/kbin/primitives.go:655-773 | what every kind of string and slice makes of every negative length: nil, empty, or an invalidated reader |
| `Malformed.NegativeArray` | generate/gen.go:436-496 | an array of negative length is nil, or empty if nullable at a version that cannot say nil |
| `Malformed.AnyTag` | generate/gen.go:571-589 | a tag whose bytes do not make a value fails the message, bytes too many are ignored, an unknown tag is kept, and a later entry replaces an earlier one |
| `Emitted.AppendIsEncode` | generate/gen.go:109-296 | the emitted encoder appends exactly the wire format after the slice it was given, and changes nothing in it |
| `Emitted.FixedSizeIsRight` | generate/gen.go:259-280 | every size the generator writes as a constant, or from the length table, is the length of the body |
| `Emitted.SizedAppend` | generate/gen.go:281-290 | both the fixed sizes and the two passes put the length of the body in front of that same body |
| `Emitted.TagsAppend` | generate/gen.go:203-296 | the tag section: count, tags that differ from their defaults in order, then unknown tags by increasing key |
| `Emitted.AppendToReadFrom` | generate/gen.go:744-785 | appended after any slice, a message is read back from there under the same condition, and the slice is untouched |
| `Decoder.RunDecode` | generate/gen.go:381-434 | the emitted decoder of any type, run on a reader in place, does what decoding means, early returns included |
| `Decoder.RunBytes` | generate/gen.go:396-430 | strings and bytes, compact or not, nullable from a version on or always |
| `Decoder.RunArray` | generate/gen.go:436-496 | the array loop: length check with early return, nil and empty, elements in order |
| `Decoder.RunStruct` | generate/gen.go:529-566 | the untagged fields present at the version, in order, then the tags; nothing for a struct without fields |
| `Decoder.RunTags` | generate/gen.go:568-589 | the tag count and the loop over the tags |
| `Decoder.TagLoop` | generate/gen.go:568-589 | as many turns as the count says, also on an invalidated reader |
| `Decoder.RunTag` | generate/gen.go:571-589 | one tag: a known one by a reader of its own, an unknown one kept |
| `Rings.Ring.Push` | pkg/kgo/ring.go:68-89 | appends to the queue unless dead, which it reports, and says first exactly when the queue was empty and is not dead |
| `Rings.Ring.PushSlot` | pkg/kgo/ring.go:84-88 | the push into a free slot, around the end |
| `Rings.Ring.DropPeek` | pkg/kgo/ring.go:91-130 | drops the front of ring and overflow taken as one queue and returns the new front, or the zero value if there is none; dropped slots hold the zero value |
| `Rings.Ring.DropSlot` | pkg/kgo/ring.go:99-107 | the drop of the front slot |
| `Rings.Ring.Die` | pkg/kgo/ring.go:61-66 | the queue takes nothing any more and keeps what it has |
| `RingProtocol.PushInv` | pkg/kgo/broker.go:251-265 | a push starts a worker only when none runs, and puts the element last or, on a dead ring, nowhere |
| `RingProtocol.DieInv` | pkg/kgo/ring.go:61-66 | a death changes nothing that is outstanding |
| `RingProtocol.DisposeInv` | pkg/kgo/broker.go:281-288 | disposing of the front keeps the order of acceptance, live elements before failed ones, and at most one live after the death |
| `RingProtocol.DropInv` | pkg/kgo/broker.go:290-294 | a drop always finds the element it drops, and the worker ends exactly when nothing is left |
| `RingProtocol.DeadDrainsDead` | pkg/kgo/broker.go:281-294 | after the death nothing behind the element in hand is handled live |
| `Pipeline.StepInv` | pkg/kgo/broker.go:281-500 | every step of pushers, workers and deaths keeps every request in exactly one place and every connection's awaited responses in the order of the wire |
| `Pipeline.PromisesAtMostOnce` | pkg/kgo/broker.go:251-294 | in no interleaving is a promise called twice |
| `Pipeline.PromisesExactlyOnce` | pkg/kgo/broker.go:281-294 | whenever all rings are drained and all pushers have returned, every promise has been called exactly once |
| `Pipeline.RingsDrain` | pkg/kgo/broker.go:1515-1529 | in every run each ring has a worker exactly when it is not empty, disposes in order, and handles at most one element live after its death |
| `Pipeline.MismatchNeedsLostSwap` | pkg/kgo/broker.go:1326-1364 | in every run with a broker that answers in order, a response with the wrong correlation ID comes only after a failed read whose die found the flag swapped by somebody else, with the connection still open |
| `Pipeline.MismatchAfterLostSwap` | pkg/kgo/broker.go:1356-1364 | after such a read the next awaited response is a wrong one if and only if the connection is open, another is awaited and the stream does not continue with its own |
| `Pipeline.MismatchIsReachable` | pkg/kgo/broker.go:1356-1364 | a run from the start, of two requests and one failed read, reaches such a state |
| `Pipeline.AwaitInv` | pkg/kgo/broker.go:1366-1376 | handing a written request to its connection's ring moves it there and keeps the order of the wire |
| `Pipeline.WriteInv` | pkg/kgo/broker.go:1116-1121 | a write takes the next correlation ID and its response comes after all awaited ones |
| `Correlation.CorrelationIds` | pkg/kgo/broker.go:1116-1121 | in every run, a connection that starts with some correlation ID is k IDs further on after k successful writes, with 0 after the greatest int32 |
| `Correlation.DistinctIds` | pkg/kgo/broker.go:1116-1121 | two IDs fewer than 2^31 writes apart differ |
| `Correlation.WireStep` | pkg/kgo/broker.go:1069-1121 | a write that arrives, even a failed one, adds the response with its correlation ID at the end, and only reads take responses |
| `Correlation.WrittenAtMostOnce` | pkg/kgo/broker.go:296-500 | in no run is a request written twice, not even one whose write failed or whose connection turned it away |
| `Correlation.RunNoRevival` | pkg/kgo/broker.go:1366-1376 | in every run what is marked, closed or dead stays so |
| `Correlation.DeadTakesNothing` | pkg/kgo/broker.go:251-265 | after the death of the broker every request is refused at once, and after that of a connection every written request is turned away; neither ring takes anything more |
| `WorkLoop.StepInv` | pkg/kgo/atomic_maybe_work.go:14-66 | every load, swap and store keeps: a worker exists exactly while the word is not unstarted, and there is only one |
| `WorkLoop.OneWorker` | pkg/kgo/atomic_maybe_work.go:13-31 | in no interleaving are there two workers, and maybeBegin says to begin exactly to the caller that makes the first one, and only when there is none |
| `WorkLoop.WakeupServed` | pkg/kgo/atomic_maybe_work.go:33-62 | after any completed maybeBegin, without a hard finish, there is a worker, and it starts an iteration after at most three more of its own steps |
| `WorkLoop.AgainIsKept` | pkg/kgo/atomic_maybe_work.go:45-62 | in every run, a worker that calls maybeFinish(true) stays a worker until it starts its next iteration, which after two more of its own steps is the only step left to it |
| `WorkLoop.EndsOnlyWhenDone` | pkg/kgo/atomic_maybe_work.go:45-62 | a worker ends only after its own maybeFinish(false), and only if no maybeBegin has returned since its last iteration started |
| `WorkLoop.ContinueNeedsCall` | pkg/kgo/atomic_maybe_work.go:22-26 | the word says to continue only after a maybeBegin that returned since it was last demoted, and since the worker last looked unless it is about to demote: one wakeup does not make two iterations |
| `WorkLoop.IdleEnds` | pkg/kgo/atomic_maybe_work.go:51-54 | after maybeFinish(false) with nothing to continue, two of the worker's own steps later there is no worker, unless a maybeBegin returns meanwhile |
| `WorkLoop.FinishedIsNoOp` | pkg/kgo/atomic_maybe_work.go:42-46 | on a finished loop maybeFinish returns what it was asked and changes nothing |
| `WorkLoop.HardFinishForgets` | pkg/kgo/atomic_maybe_work.go:64-66 | a hard finish while a wakeup is owed leaves nobody to serve it, and still never two workers |
| `GroupInvariant.JoinCount` | pkg/kfake/groups.go:1106-1142 | nJoining never exceeds the number of parked joins, and is zero outside a preparing rebalance |
| `GroupInvariant.CountEvictsNobody` | pkg/kfake/groups.go:956-959 | a rebalance completed by count and not by timer evicts nobody |
| `GroupInvariant.CompleteInv` | pkg/kfake/groups.go:982-1037 | completing a rebalance ends empty, or awaiting the leader's assignment with a leader who is a member and a protocol every member lists, unless no protocol is common |
| `GroupInvariant.RebalanceInv` | pkg/kfake/groups.go:937-978 | a rebalance restores the invariant from whatever the operation before it left |
| `GroupInvariant.AnsweredInv` | pkg/kfake/groups.go:1028-1037 | after the joins are answered nobody is parked and the leader is a member |
| `GroupInvariant.UpdateInv` | pkg/kfake/groups.go:1106-1129 | a rejoin keeps the invariant: exact counters, right kind of parked requests, identities |
| `GroupInvariant.RemoveInv` | pkg/kfake/groups.go:1119-1129 | so does a leave or session timeout |
| `GroupInvariant.AddInv` | pkg/kfake/groups.go:1131-1142 | so does a new member |
| `GroupInvariant.JoinInv` | pkg/kfake/groups.go:642-715 | so does every join request, in every state; it panics only for lack of a common protocol |
| `GroupInvariant.SyncInv` | pkg/kfake/groups.go:718-765 | so does every sync, which never panics |
| `GroupInvariant.LeaveInv` | pkg/kfake/groups.go:820-840 | so does every member of a leave request |
| `GroupInvariant.TimerInv` | pkg/kfake/groups.go:967-976 | so does the rebalance timer |
| `GroupRuns.StepEffect` | pkg/kfake/groups.go:937-1062 | what one step can do to generation, state and assignments: only a leader's sync installs, and only in the state that a new generation opened |
| `GroupRuns.HistoryKept` | pkg/kfake/groups.go:718-765 | every step keeps: one install per generation, stable members hold the last one, and every sync reply repeats an install |
| `GroupRuns.StepAccounts` | pkg/kfake/groups.go:1214-1224 | every step replies only to the request itself or to parked requests, which it unparks, and to each once |
| `GroupRuns.RunIsGood` | pkg/kfake/groups.go:553-614 | all of this holds after every step of every run |
| `GroupTheorems.OneAssignmentPerGeneration` | pkg/kfake/groups.go:1039-1062 | until the generation wraps, each generation has at most one installed assignment, and every successful sync reply of it carries the last entry that names the member, or nothing if none does |
| `Groups.AssignedIsLast` | pkg/kfake/groups.go:1044-1050 | a member gets a blob if and only if some entry has it for the member and no later entry names the member, and nothing if and only if no entry does |
| `GroupReplies.SyncReply` | pkg/kfake/groups.go:718-764 | every refusal of a sync, each if and only if, and the answer of a stable group; none changes anything |
| `GroupReplies.SyncParks` | pkg/kfake/groups.go:753-762 | while the assignment is awaited a sync is parked; the leader's makes the group stable, gives every member its last entry, and answers every parked sync once with its own number, generation and assignment |
| `GroupReplies.SyncsAnswered` | pkg/kfake/groups.go:1051-1060 | every parked sync gets exactly one reply and nobody else gets one |
| `GroupReplies.InstallsOnlyFromLeader` | pkg/kfake/groups.go:753-757 | of all events an assignment takes effect exactly by a matching sync of the leader in a group that awaits it |
| `GroupReplies.HeartbeatReply` | pkg/kfake/groups.go:769-803 | every answer to a heartbeat, each if and only if; none changes anything |
| `GroupReplies.CommitReply` | pkg/kfake/groups.go:872-933 | every answer to an offset commit, and the panic, each if and only if |
| `GroupReplies.JoinReply` | pkg/kfake/groups.go:661-693 | a join that does not fit is refused and changes nothing; one that fits gives the group its type and is a new client, a pending member, a member or a stranger |
| `GroupReplies.RejoinReply` | pkg/kfake/groups.go:695-715 | when a member that joins again gets the answer of its generation and nothing changes, and that the group leaves its generation or prepares the next in every other case |
| `GroupReplies.JoinAnswer` | pkg/kfake/groups.go:1185-1212 | the leader is told, for every member, the metadata of its first protocol with the chosen name, and anybody else nothing; there is no answer only if a member lacks the protocol |
| `GroupReplies.RebalanceRefuses` | pkg/kfake/groups.go:938-952 | a rebalance that overtakes a generation refuses exactly its parked syncs, and any other refuses nobody |
| `GroupReplies.RebalanceKeeps` | pkg/kfake/groups.go:937-1037 | a rebalance lets nobody in, keeps joins and pending members, and takes every assignment back exactly if it overtakes a generation |
| `GroupReplies.Departs` | pkg/kfake/groups.go:820-840 | whoever leaves or times out is neither member nor pending, an instance ID does nothing, and nobody else stops being pending |
| `GroupReplies.QuitEnds` | pkg/kfake/groups.go:631-636 | nothing happens to a group that has quit |
| `GroupReplies.GenerationAfter` | pkg/kfake/groups.go:1006-1009 | in every run the number of completed rebalances determines the generation: 0, then 1 to the greatest int32, then 1 again |
| `GroupTheorems.RepliesAtMostOnce` | pkg/kfake/groups.go:1214-1224 | no request is answered twice in any run |
| `GroupTheorems.ReachableStates` | pkg/kfake/groups.go:553-614 | the invariant in every reachable state: parked joins only while preparing, parked syncs of the current generation only while completing, exact counters, leader a member |
| `GroupTheorems.OnlyTwoPanics` | pkg/kfake/groups.go:1196-1212 | in any run the sync type assertion and the roster never panic; only a missing common protocol or an offset commit can |
| `GroupTheorems.CompletePanics` | pkg/kfake/groups.go:1016-1026 | completing a rebalance panics if and only if somebody stays and no protocol is listed by all who do |
| `GroupTheorems.RebalancePanics` | pkg/kfake/groups.go:937-1026 | a rebalance panics if and only if it completes at once and its members have no protocol in common |
| `GroupTheorems.RemovePanics` | pkg/kfake/groups.go:1119-1129 | that condition in terms of the group before a member leaves |
| `GroupTheorems.UpdatePanics` | pkg/kfake/groups.go:1106-1129 | that condition in terms of the group before a member joins again |
| `GroupTheorems.AddPanics` | pkg/kfake/groups.go:1132-1142 | that condition in terms of the group before a member enters |
| `GroupTheorems.TimerPanics` | pkg/kfake/groups.go:967-976 | that condition when the timer completes the rebalance |
| `GroupWitnesses.ProtocolPanics` | pkg/kfake/groups.go:1146-1166 | a run from the creation of a group, with two members whose joins are all let in, to that panic |
| `GroupTheorems.CommonProtocolIsFound` | pkg/kfake/groups.go:1016-1026 | if all joins of a run list one protocol, no step but an offset commit panics |
| `GroupTheorems.LastMemberLeaves` | pkg/kfake/groups.go:886-897 | when the last member goes the group is empty, and a commit without member accepted, if and only if the join count stays non-negative |
| `GroupTheorems.StrandedGroup` | pkg/kfake/groups.go:1124-1126 | every group of two awaiting its leader's assignment can be driven to the panic of an offset commit |
| `GroupWitnesses.CommitPanics` | pkg/kfake/groups.go:886-897 | a run from the creation of a group, with a request number for each request, that ends in that panic |
| `GroupTheorems.LeadersTold` | pkg/kfake/groups.go:1028-1036 | every parked join is answered exactly once and nobody else is, naming the old leader if it stayed and its receiver otherwise |
| `GroupTheorems.RebalanceLeaders` | pkg/kfake/groups.go:937-1036 | for every rebalance, completed at once or not: at most one member is told that it leads if and only if it does not complete, the old leader stays or at most one member does |
| `GroupTheorems.CompletedLeaders` | pkg/kfake/groups.go:982-1036 | the same for the completion itself |
| `GroupTheorems.RemoveLeaders` | pkg/kfake/groups.go:1119-1129 | when a member leaves: two are told so exactly when the rebalance completes, the leader is not left and two are |
| `GroupTheorems.UpdateLeaders` | pkg/kfake/groups.go:1106-1129 | the same when a member joins again |
| `GroupTheorems.AddLeaders` | pkg/kfake/groups.go:1132-1142 | the same when a member enters |
| `GroupTheorems.TimerLeaders` | pkg/kfake/groups.go:967-976 | the same when the timer completes the rebalance |
| `GroupWitnesses.TwoLeaders` | pkg/kfake/groups.go:1028-1036 | a run from the creation of a group in which two members are told in one rebalance that they lead |
| `Coordinator.Coordinator.CountProtocols` | pkg/kfake/groups.go:1107-1114 | adds to the counter of each protocol of a join |
| `Coordinator.Coordinator.Evict` | pkg/kfake/groups.go:989-1004 | removes the members not waiting in join, with their counts, and says whether the leader stays |
| `Coordinator.Coordinator.FindProtocol` | pkg/kfake/groups.go:1016-1026 | finds a protocol that all members support if and only if there is one |
| `Coordinator.Coordinator.JoinResponseMetadata` | pkg/kfake/groups.go:1196-1212 | collects every member's metadata for the protocol, or fails if one lacks it |
| `Coordinator.Coordinator.FillJoinResp` | pkg/kfake/groups.go:1185-1194 | the answer to a join, with the roster for the leader |
| `Coordinator.Coordinator.AnswerParkedJoins` | pkg/kfake/groups.go:1028-1036 | answers every parked join, making each member the leader in turn if the old one is gone |
| `Coordinator.Coordinator.CompleteRebalance` | pkg/kfake/groups.go:982-1037 | evicts, starts the next generation, chooses a protocol and answers, or panics |
| `Coordinator.Coordinator.ClearParkedSyncs` | pkg/kfake/groups.go:938-952 | refuses every parked sync and forgets every assignment |
| `Coordinator.Coordinator.Rebalance` | pkg/kfake/groups.go:937-978 | clears, and completes at once or waits for the timer, for orders of iteration that meet every member |
| `Coordinator.Coordinator.Assign` | pkg/kfake/groups.go:1041-1050 | gives each member the last entry that names it, or nothing if none does, and changes nothing else |
| `Coordinator.Coordinator.AnswerParkedSyncs` | pkg/kfake/groups.go:1051-1060 | answers every parked sync with the member's assignment, or meets a parked join |
| `Coordinator.Coordinator.CompleteLeaderSync` | pkg/kfake/groups.go:1040-1062 | makes the group stable, records the assignment, gives each member the last entry that names it, and answers every parked sync exactly once with its own number, generation and assignment |
| `Coordinator.Coordinator.UpdateMemberAndRebalance` | pkg/kfake/groups.go:1106-1129 | replaces a member's join and parked request, counts it, and rebalances, for orders of iteration that meet every member |
| `Coordinator.Coordinator.RemoveMemberAndRebalance` | pkg/kfake/groups.go:1119-1129 | removes a member and rebalances, for orders of iteration that meet every member |
| `Coordinator.Coordinator.AddMemberAndRebalance` | pkg/kfake/groups.go:1132-1142 | turns a pending member into a member and rebalances, for orders of iteration that meet every member |
| `Coordinator.Coordinator.HandleJoin` | pkg/kfake/groups.go:642-715 | a join request, for orders of iteration that meet every member |
| `Coordinator.Coordinator.HandleRejoin` | pkg/kfake/groups.go:695-714 | a join request of a member, by state, for orders of iteration that meet every member |
| `Coordinator.Coordinator.HandleSync` | pkg/kfake/groups.go:718-765 | a sync request, for orders of iteration that meet every member |
| `Coordinator.Coordinator.ParkSync` | pkg/kfake/groups.go:753-758 | a sync that is parked, and answered with all others if it is the leader's, for orders of iteration that meet every member |
| `Coordinator.Coordinator.HandleLeave` | pkg/kfake/groups.go:805-843 | a leave request is one removal, its replies and one code per entry, each from the group that the entry before it left, and then its own reply; or it panics in an entry; keeps the invariant |
| `Coordinator.CallIsStep` | pkg/kfake/groups.go:642-765 | a call that behaves as an event for such an order is a step of a run |
| `Coordinator.AllHaveLeft` | pkg/kfake/groups.go:826-839 | whoever has left in a leave request is still gone when it ends, whatever its rebalances do |
| `Coordinator.Coordinator.LeaveOne` | pkg/kfake/groups.go:826-839 | one member of a leave request, and its error code, which is that of an unknown member exactly with an instance ID or if it is neither a member nor pending, for orders of iteration that meet every member |
| `PartitionLog.PushInv` | pkg/kfake/data.go:142-158 | an append keeps: history one chain from 0 to the high watermark, retained batches exactly those ending after the log start, exact byte count, epochs and timestamps in order |
| `PartitionLog.PushNeedsRecords` | pkg/kfake/00_produce.go:155-158 | among the batches the handler lets through, exactly those with a record keep every part of the log invariant |
| `PartitionLog.PushStores` | pkg/kfake/data.go:142-158 | for any batch: every field of the batch that is stored, and how every counter of the log moves |
| `PartData.AppendEffects` | pkg/kfake/data.go:142-186 | for every number of records: when the high watermark moves back, when every retained record is still found, when the first retained batch holds the log start, each if and only if |
| `PartData.StillFound` | pkg/kfake/data.go:160-186 | after appending any number of records, a retained record is found as before if and only if it is below the new high watermark |
| `PartData.NextOverlaps` | pkg/kfake/data.go:142-158 | the batch appended next shares an offset with a retained one exactly when fewer than zero records were appended and it reaches that far |
| `PartitionLog.DeleteInv` | pkg/kfake/21_delete_records.go:58-69 | a deletion in range keeps all of it and moves the log start to the requested offset |
| `PartitionLog.DeletesInRange` | pkg/kfake/21_delete_records.go:58-69 | a deletion succeeds if and only if its offset is -1 or between log start and high watermark, and moves the log start there and nothing else |
| `PartitionLog.LeaderInv` | pkg/kfake/cluster.go:963-964 | a leader change keeps all of it |
| `PartitionLog.RunInv` | pkg/kfake/data.go:142-198 | so does any sequence of appends, deletions and leader changes |
| `PartitionLog.Retained` | pkg/kfake/data.go:188-198 | what is retained is one chain up to the high watermark whose first batch holds the log start, and nothing is retained exactly when the log start is the high watermark |
| `PartitionLog.Covered` | pkg/kfake/data.go:160-186 | every offset in a chain lies in exactly one of its batches |
| `PartData.Find` | pkg/kfake/data.go:175-184 | the binary search returns the first index whose comparison is not positive |
| `PartData.PartData.PushBatch` | pkg/kfake/data.go:142-158 | for any batch, the stored batch gets the log's offset, epoch and running maximum timestamp and all counters move with it; with a record the log stays good |
| `PartData.PartData.TrimLeft` | pkg/kfake/data.go:188-198 | drops exactly the batches that end at or before the log start, with their bytes |
| `PartData.PartData.DeleteRecords` | pkg/kfake/21_delete_records.go:58-69 | refuses offsets out of range, otherwise moves the log start and retains nothing below it |
| `PartData.PartData.ChangeLeader` | pkg/kfake/cluster.go:1098-1099 | the epoch is one more |
| `PartData.PartData.SearchOffset` | pkg/kfake/data.go:160-186 | agrees with a linear scan wherever its comparison is monotone, and in every good log finds the one batch with the offset, and exactly when it finds nothing |
| `PartData.ScanFinds` | pkg/kfake/data.go:160-186 | in every good log the scan finds the one retained batch that holds the offset, for every retained offset |
| `PartData.PartData.OffsetForLeaderEpoch` | pkg/kfake/23_offset_for_leader_epoch.go:60-117 | the reply of a linear scan, fenced and unknown epochs included |
| `PartData.RetainedEpochs` | pkg/kfake/data.go:149-151 | epochs never decrease along the retained batches |
| `PartData.EpochReplySplits` | pkg/kfake/23_offset_for_leader_epoch.go:70-117 | whenever the reply has an end offset, records below it are of epochs up to the requested and records from it on of later ones, if and only if the request is not for the largest epoch of another epoch's non-empty log |
| `PartData.EpochReplyIs` | pkg/kfake/23_offset_for_leader_epoch.go:70-117 | for every good log and every request, the whole reply by the retained batches: -1 exactly if none is of a later epoch; the requested epoch and the log start if all are; otherwise the largest epoch up to the requested and the first offset of a later one |
| `PartData.WrappedReply` | pkg/kfake/23_offset_for_leader_epoch.go:89-112 | what every non-empty log answers about the largest epoch, and that it splits nothing |
| `Producers.PidSeqs.PushAndValidate` | pkg/kfake/pid.go:74-96 | duplicate if two neighbouring slots hold the batch's boundaries, out of order if it does not start at the latest, else remembered |
| `Producers.NextSeqWraps` | pkg/kfake/pid.go:79-84 | sequence numbers go from 2147483646 to 0 |
| `Producers.NextSeqTruncates` | pkg/kfake/pid.go:79-84 | for any numbers the next one is the remainder of a division that rounds toward zero |
| `Producers.AcceptedContinues` | pkg/kfake/pid.go:90-95 | an accepted batch starts exactly where everything accepted before it ends, and the window keeps representing the full history |
| `Producers.RecentIsDuplicate` | pkg/kfake/pid.go:85-89 | each of the last four accepted batches is recognised |
| `Producers.DuplicateIffRecent` | pkg/kfake/pid.go:85-89 | if five batches hold fewer than 2^31-1 records, a batch is called a duplicate exactly when it is one of the last four |
| `Producers.FreshIsAccepted` | pkg/kfake/pid.go:85-95 | then the next fresh batch is accepted and everything else is out of order or a recent duplicate |
| `Producers.FreshIsLostIff` | pkg/kfake/pid.go:85-89 | without that condition, a fresh batch is taken for a duplicate if and only if the numbers have come full circle within the window |
| `Producers.FreshCanBeLost` | pkg/kfake/pid.go:79-89 | the smallest instance: a first batch of 2^31-1 records |
| `Produce.ProducePartition` | pkg/kfake/00_produce.go:115-186 | one partition of a produce request, for any batch: each error if and only if its own check fails and none before it, the producer's epoch and window, the stored batch field by field, and every number of the reply with or without an append |
| `Produce.Verdicts` | pkg/kfake/00_produce.go:115-186 | every reply by what batch and broker are: corrupt, fenced and unknown epoch if and only if, appended if and only if; what is refused changes nothing; what is stored; no producer's epoch moves |
| `Produce.FencedForever` | pkg/kfake/00_produce.go:160-169 | in every run, once a producer has been given its next epoch, no batch that carries an earlier one is appended ever after |
| `Produce.CreateIs` | pkg/kfake/pid.go:47-72 | a new producer starts at epoch 0 and at sequence number 0, and does not accept a later one; a known one moves to the next epoch and keeps its window |
| `Produce.StepInv` | pkg/kfake/00_produce.go:160-186 | every produce, producer creation, deletion and leader change keeps the log good and every window equal to what its producer has in the log |
| `Produce.ExactlyOnce` | pkg/kfake/00_produce.go:160-186 | in every run of batches with records, what the log got from a known producer is one gapless chain of sequence numbers |
| `Produce.ChainedOnce` | pkg/kfake/00_produce.go:160-186 | in every run, with batches that claim any number of records, each batch of a known producer starts where the one before it ended; gapless where all have a record |
| `Producers.AcceptedFollows` | pkg/kfake/pid.go:74-96 | an accepted batch of any claimed size starts at the end of everything accepted, and the window knows the new end |
| `Produce.RetriesAndProgress` | pkg/kfake/00_produce.go:160-178 | in every run and for both epochs the handler accepts, a request succeeds without appending exactly for the last four batches, and appends exactly the next one |
| `Produce.NegativeBatchPasses` | pkg/kfake/00_produce.go:155-158 | a batch of -1 records passes every check and moves the high watermark back |
| `Fetch.Take` | pkg/kfake/01_fetch.go:185-195 | the batches of one partition until one more would exceed a limit, except that the first of all always fits; stops the whole response exactly if a batch was turned away with the request's limit exceeded |
| `Fetch.ServeFrom` | pkg/kfake/01_fetch.go:177-195 | a run of batches from the one that holds the offset, as long as the limits allow and no shorter |
| `Fetch.Serve` | pkg/kfake/01_fetch.go:157-195 | one partition: unknown, not served, out of range, at the end, or a run of batches from the offset that ends with the log or at a limit |
| `Fetch.BuildResponse` | pkg/kfake/01_fetch.go:152-199 | with two or more batches the response is within the request's limit; each partition is within its own unless it holds only the first batch; if any partition has data a batch is returned; runs are contiguous from the fetch offset and end with the log or where the next batch would exceed a limit; it ends before the last partition exactly at the first that has a batch turned away by the request's limit |
| `ResponseWriter.Write` | pkg/kfake/client_conn.go:112-151 | for any order of arrival, the numbers 0, 1, 2, ... go out without gap or repetition up to the first that has not arrived or failed |
| `ResponseWriter.Take` | pkg/kfake/client_conn.go:131-147 | waits for the response whose turn it is and holds the others |
| `Lag.CalculateGroupLag` | pkg/kadm/groups.go:1668-1929 | the three passes, in whatever order the maps are iterated, compute one function of the input |
| `Lag.PassMembers` | pkg/kadm/groups.go:1685-1797 | the pass over the members' assignments and join topics |
| `Lag.PassCommits` | pkg/kadm/groups.go:1803-1874 | the pass over the commits that nobody is assigned |
| `Lag.PassListed` | pkg/kadm/groups.go:1880-1926 | the pass over the listed partitions that are left |
| `Lag.ResultHolds` | pkg/kadm/groups.go:1684-1928 | the result has exactly the topics of interest and of each the assigned, committed and listed partitions, assigned before committed before listed |
| `Lag.AssignedOrCommitted` | pkg/kadm/groups.go:1722-1769 | the member is the last one assigned; commit, start, end and error are those of the input; lag -1 if and only if there is an error, which is exactly a missing or failed end or a failed commit; otherwise the end minus the commit, else the start, else zero, and never negative |
| `Lag.OnlyListed` | pkg/kadm/groups.go:1880-1926 | for a listed partition its start, end and error as listed, no member and no commit; its lag, end minus start floored at zero, else the end, else -1; exactly when it is -1; and that it has a lag besides an error exactly when its start is known |
| `Lag.AssigneeIsLast` | pkg/kadm/groups.go:1685-1797 | a partition's member is the last one that is assigned it, and there is none exactly if nobody is |
| `Lag.ErrorWithLag` | pkg/kadm/groups.go:1895-1913 | an input whose result has an error and a lag in one entry |
| `Lag.TotalOfTopic` | pkg/kadm/groups.go:1364-1368 | the sum of the lags that are not negative, in any order |
| `Lag.TotalByTopic` | pkg/kadm/groups.go:1358-1372 | that sum for every topic |
| `Lag.Total` | pkg/kadm/groups.go:1349-1355 | the sum over all topics, every partition once |

## Left out

- Sockets, dialing, TLS, SASL, timeouts, hooks, logging and metrics: the outcomes of reads and writes are nondeterministic.
- `generate/parse.go`: the model starts from the schema tree.
- `FieldLengthMinusBytes` and floating-point fields of schemas: the first depends on a sibling field, the second is a bit pattern.
- Enumerations, timeouts and throttles of schemas: they encode as the number they wrap.
- A `Reader` that is given a nil slice, whose spans of no bytes are nil before it is invalidated.
- Decoding into a value that is not fresh: fields that do not travel would keep what was there.
- Record batches, compression and checksums: the checksum comparison is a boolean input of the produce model.
- Version negotiation and request rewriting in `handleReq`: any request may fail before it is written.
- Reauthentication on a live connection, and the goroutine that discards replies to unacknowledged produce requests.
- Joins below version 4, and joins that name a protocol twice: the counters would count it twice.
- Static members: a request with an instance ID is refused before the group is looked at, which is the `Rejected` event.
- Timers that fire after they were stopped: a session timeout is a step of a current member, the rebalance timer a step while it is set.
- `HandleLeave`: a leave request's members may be interleaved with other events in runs, which allows more than the source does.
- The offsets stored by commits, and the describe, list, delete and offset-fetch handlers of groups: they only read or fill maps.
- The waiting of fetches for more bytes, and the topic grouping of responses.
- Offset lookup by timestamp: it searches a field that the log only keeps monotone as a running maximum.
- Producer epochs beyond 32767, partition epochs and offsets beyond their machine widths.
- Leader epochs and metadata of commits in lag results.
