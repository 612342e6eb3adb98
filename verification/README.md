# A Dafny model of psql

psql is a header-only PostgreSQL client over libpq and Asio. This project models the four parts of
its own logic that are hard to get right and proves what they promise:

* **the binary codec**: the type-directed encoder that appends to one shared, growing buffer, the
  size computation that must predict it, and the decoder that consumes a span (`Words`,
  `TimePoints`, `Types`, `Buffers`, `Serialization`, `Deserialization`, `Codec`, `CodecTheorems`,
  `TypeSafety`);
* **OID resolution**: how a connection collects unknown user-defined types and learns their OIDs,
  over its whole history, and that every OID passed is the one PostgreSQL's catalog has for the
  type's name (`OidResolution`, `PgTypes`);
* **the connection's coroutines** over a small libpq: single-result queries, the OID query in front
  of them, and pipelines (`Libpq`, `Connection`, `ConnectionTheorems`), and their interleavings
  with the notification receiver on the same socket (`SharedSocket`);
* **the connection pool**, a condition variable built from a timer that never fires (`Sums`,
  `PoolProtocol`, `PoolTheorems`, `ConnectionPool`); and **SQLSTATE in base 36** (`SqlState`).

Code that changes state is modelled by classes and methods with loops; each method is proved
against a function of the old state, and the theorems are about those functions.

## How to read the model

* A C++ type is a `Type`, a value a `Value`; a word is its object representation, so floats are 4-
  or 8-byte words. `Text` is `std::string`, or with `view` `std::string_view`. Member counts stay
  below 2^31. A user-defined class has initial values for its members: `T{}`, over which a field is
  decoded, runs its default member initializers.
* The decoder ends `Done`, `Thrown` or `Undefined`. `Undefined` is a broken `std::span`
  precondition, a read past the end or a signed overflow. A length word of -1 converts to
  `std::dynamic_extent`, which `subspan` takes as "the rest"; the model does the same.
* `std::string` doubles its capacity when it must grow, and counts the moves of its storage; a
  pointer is good for one count. Its address is taken with `&front()`, also when it is empty, where
  the standard only promises that for `operator[]`.
* In the pool, every coroutine segment between two yields runs under the mutex and is one step. The
  pool object is assumed to outlive its pending acquisitions, which hold a raw `this`.
* The classes of `Connection` run one operation at a time, over a `Link` that hands each waiting
  operation its reply. `SharedSocket` has every interleaving: what is on the socket, what any
  `PQconsumeInput` moves into libpq, who is parked, and whose handler is queued. Input wakes all
  who are parked on the socket.

## What turned out false

* README.md:193-195 says stored OIDs spare later queries. `new_udts_` is never cleared, so they do
  not: `OidResolution.LooksUpIffEverMentioned` says exactly when the OID query is sent, and
  `KnownTypeIsLookedUp` is an instance.
* For the same reason one type that the server does not have makes every later query fail, also
  those without parameters: `OidResolution.FailsIffEverMissing`, `MissingTypePoisons`.
* Decoding appends to a `std::string`, so what a default member initializer puts into one stays in
  front of every value received: `CodecTheorems.ReceivableRoundTrip` says exactly when a field is
  given back, and `InitializerStays` is an instance.
* The round trip also fails where an embedded length or count leaves `int32_t`, or `8 + member_size`
  and `4 + value_size` leave `int`: `CodecTheorems.RoundTripIff` gives the exact condition, and
  `LongTextIsLost` the shortest text. That is past what libpq can deliver.
* An OID query that fails with an SQLSTATE that parses to 0 is taken for success without rows. The
  query behind it then leaves with an exception, exactly if it needs a type that is not in the map:
  `Connection.BasicConnection.AsyncQuery`, `ConnectionTheorems.OverlookedLookupThrows`.
* A pipeline can report "aborted" instead of the cause, exactly when the cause has an SQLSTATE
  that parses to 0: `ConnectionTheorems.PipelineErrorCause`, `CauseCanBeMasked`.
* The wake-up of a parked notification receiver is skipped when a query is cancelled, fails, or ends
  against the protocol: `SharedSocket.RunStrandsIff`, `FailedQueryStrands`, `CancelledQueryStrands`.
* A receiver whose handler is queued can read the reply that a parked query waits for; nothing wakes
  the query then until the server sends more: `SharedSocket.RunStrandsQueryIff`,
  `ReceiverStrandsQuery`.
* A cancellation of the receiver is lost if input has queued its handler already:
  `SharedSocket.CancelEndsIff`.
* Printing an SQLSTATE loses leading zeros: `SqlState.PrintParsed`, `LeadingZeroIsLost`.

## Model

| member | source | states |
|---|---|---|
| Words.LoadStore | include/psql/detail/serialization.hpp:55-60 | loading a stored big-endian word gives the value modulo the word size |
| Words.StoreLoad | include/psql/detail/deserialization.hpp:27-31 | storing a loaded word gives the bytes back |
| Words.BigEndian | include/psql/detail/serialization.hpp:55-60 | every byte of a stored word: the most significant comes first |
| TimePoints.MicrosTruncates | include/psql/detail/serialization.hpp:66-72 | for every int64 time: no overflow either way, less than a microsecond lost and toward 1970, idempotent, and the identity exactly on whole microseconds |
| TimePoints.WireRoundTrip | include/psql/detail/deserialization.hpp:37-42 | every wire value the decoder can represent is what its time point encodes to |
| TimePoints.RepresentableIff | include/psql/detail/deserialization.hpp:37-42 | the exact range of wire values whose decoding does not overflow; the two infinities are outside it |
| Serialization.ComputeSize | include/psql/detail/size_of.hpp:22-96 | the computation with its loop over array elements yields the size that SizeIsExact is about |
| Serialization.SizeIsExact | include/psql/detail/size_of.hpp:22-96 | the encoding of every value is exactly as long as predicted, whatever the OID map |
| Serialization.Put | include/psql/detail/serialization.hpp:51-127 | appends exactly the encoding and nothing else, keeps all earlier bytes, moves storage only when it must; throws exactly when an OID it needs is missing, leaving a prefix |
| Serialization.PutMember | include/psql/detail/serialization.hpp:106-112 | one member: OID word, length word, payload, or nothing if its OID is missing; which OID that is says PgTypes.MemberOid |
| Serialization.PutElems | include/psql/detail/serialization.hpp:143-147 | the loop over the elements appends them in order and stops at the first that throws |
| Serialization.MemberFraming | include/psql/detail/serialization.hpp:106-127 | each member's length word delimits exactly that member's encoding, and the next member starts there |
| Serialization.ElemFraming | include/psql/detail/serialization.hpp:135-148 | the same for array elements |
| Serialization.LeafBytes | include/psql/detail/serialization.hpp:51-97 | what the leaves are on the wire: the bits of a word in big-endian order, the microseconds since 2000 of a time point, the bytes of a string |
| Serialization.CompositeCount | include/psql/detail/serialization.hpp:114-126 | a composite begins with its member count |
| Serialization.ArrayWords | include/psql/detail/serialization.hpp:135-141 | the five words of an array: one dimension, no NULL flag, the OID of the elements, their count, lower bound 0 |
| Serialization.PutArgs | include/psql/detail/serialization.hpp:40-45 | into a buffer reserved for the sum of the sizes no append reallocates, so all pointers stay good and the slices tile the buffer |
| Serialization.SerializeParams | include/psql/detail/serialization.hpp:26-49 | throws exactly when an OID is missing; otherwise types, lengths and formats match the arguments and the slices are consecutive, cover the buffer, and are the arguments' encodings; which OIDs these are says PgTypes.OidIsTheCatalogs |
| Serialization.TiledReadable | include/psql/detail/serialization.hpp:40-45 | an argument below 2^31 bytes can be read back through its pointer and length |
| Deserialization.Deserialize | include/psql/detail/deserialization.hpp:17-61 | the decoder that runs, with its in-place loop, computes the specification that the codec theorems are about |
| Deserialization.DeserializeElems | include/psql/detail/deserialization.hpp:136-146 | the element loop decodes in place and returns the remaining span |
| Deserialization.LeavesRead | include/psql/detail/deserialization.hpp:23-43 | for any bytes: a word or time point is read from the front, is undefined from fewer bytes than it needs and outside the time range, and ignores what is behind |
| Deserialization.CompositeRefused | include/psql/detail/deserialization.hpp:88-97 | for any bytes: another member count throws |
| Deserialization.ArrayRefused | include/psql/detail/deserialization.hpp:123-147 | for any bytes: not one dimension, an element OID other than expected, and a negative count throw, in this order |
| Codec.OidGivesHead | include/psql/detail/builtins.hpp:17-99 | the OID table separates the built-in types: a passed check fixes the outermost type |
| Codec.IgnoresBytesBehind | include/psql/detail/deserialization.hpp:100-147 | decoding an encoded value with any bytes behind it does what decoding it alone does, except for a string |
| Codec.DecodeFollowsVerdict | include/psql/detail/deserialization.hpp:23-147 | decoding an encoded value as any comparable type, over any value that is there, does exactly what a reference decoder on values, which knows no bytes, says; with lengths that fit never undefined |
| Codec.MembersFollowVerdict | include/psql/detail/deserialization.hpp:100-114 | the member loop agrees with the reference decoder and ends on the span behind the last member |
| Codec.ElemsFollowVerdict | include/psql/detail/deserialization.hpp:139-146 | the element loop agrees with the reference decoder and ends on the span behind the last element |
| CodecTheorems.DecodesOver | include/psql/detail/deserialization.hpp:23-147 | decoding an encoding whose lengths and counts survive, over any value: strings are appended, also to kept elements, all else is overwritten |
| CodecTheorems.OverIffClear | include/psql/detail/deserialization.hpp:54-61 | the outcome is the value itself exactly if every string it is appended to was empty |
| CodecTheorems.RoundTrip | include/psql/field.hpp:56-69 | for every type, every OID map and every value that survives, reading the encoding gives the value over T{}; it is the value, time points to the microsecond, exactly if no string in T{} that it is appended to holds anything |
| CodecTheorems.RoundTripIff | include/psql/detail/deserialization.hpp:77-146 | for values of any size nothing else is given back: every array count must fit, every length must fit with its header or read -1 at the very end of what holds it, and T{} must be empty as above. Not for a composite or array whose length reads -1 in front of a member of user-defined type, nor for initial strings of 2^31 bytes |
| CodecTheorems.UdtFreeRoundTripIff | include/psql/detail/deserialization.hpp:77-146 | without user-defined parts the condition on lengths and counts is exact for every value |
| CodecTheorems.ReceivableRoundTrip | include/psql/field.hpp:45-69 | a value whose encoding is below 2^31 bytes, so that libpq can report its length, is given back exactly if the strings in T{} are empty, so always without user-defined parts |
| CodecTheorems.SmallFits | include/psql/detail/serialization.hpp:106-148 | below 2^31 bytes in all, every embedded length and count fits |
| CodecTheorems.TextMemberSurvivesIff | include/psql/detail/deserialization.hpp:82-87 | for a tuple around a text of any length, the round trip holds exactly below 2^31 - 8 bytes or when the length word reads -1 |
| CodecTheorems.LongTextIsLost | include/psql/detail/deserialization.hpp:87-87 | an instance: 2^31 - 8 bytes are not given back |
| CodecTheorems.InitializerStays | include/psql/field.hpp:59-66 | an instance: a class whose string member begins as "new" is read with that in front of what was received |
| CodecTheorems.TextAppends | include/psql/detail/deserialization.hpp:45-61 | decoding a string appends, so it is right exactly from an empty one; a string view is assigned |
| TypeSafety.ReadsExactlyWhatAgrees | include/psql/field.hpp:56-69 | reading as a type without user-defined parts succeeds exactly when both types agree on OIDs and counts wherever the decoder looks; otherwise it throws, and is never undefined |
| TypeSafety.RejectsBeforeReading | include/psql/detail/deserialization.hpp:63-146 | at any depth, nothing behind the OID or count word that disagrees is read: any bytes that start like the encoding up to that word, and are not fewer, give the same throw |
| TypeSafety.LookedWithin | include/psql/detail/deserialization.hpp:63-146 | that word is inside the field |
| TypeSafety.EndsInTheWord | include/psql/detail/deserialization.hpp:63-146 | what was looked at ends exactly with the OID or count word whose content the exception reports |
| OidResolution.ExtractedIff | include/psql/detail/extract_new_udts.hpp:19-59 | extraction lists exactly the reachable user-defined types the map lacks, through any nesting and inside known types |
| OidResolution.CoveredResolves | include/psql/detail/oid_of.hpp:44-77 | if the map has every reachable type no lookup of the encoder throws |
| OidResolution.ResolvedIffCovered | include/psql/detail/serialization.hpp:106-148 | unless an array is empty, encoding a value throws exactly if the map lacks a user-defined type that occurs anywhere in its type |
| OidResolution.FoundIff | include/psql/connection.hpp:477-504 | a row is found exactly if the catalog has the name and the name with brackets, neither as 0xFFFFFFFF, and then holds these two OIDs in this order |
| OidResolution.EmplacedSound | include/psql/connection.hpp:499-507 | the loop over the rows, also when it stops midway or names repeat, keeps the map sound, only adds to it, and adds exactly the types in front of the first row not found |
| OidResolution.EmplacedRows | include/psql/connection.hpp:499-507 | for any rows: old entries stay; the types of rows in front of the first 0xFFFFFFFF get entries, and each new entry is such a row |
| OidResolution.AskSound | include/psql/connection.hpp:221-228 | one query, however its lookup ends, also without rows, keeps map and list sound, each entry being the catalog's two OIDs and not the sentinel; if the lookup does not fail the map covers its parameter types |
| OidResolution.RunSound | include/psql/connection.hpp:471-509 | after any history every entry is the OIDs that the catalog has for the type's name and for its array, neither 0xFFFFFFFF |
| OidResolution.RunGrows | include/psql/connection.hpp:506-506 | the map of a longer history contains that of a shorter one |
| OidResolution.RunLists | include/psql/connection.hpp:221-223 | the list holds exactly the types ever mentioned, and the map no other |
| OidResolution.LooksUpIffEverMentioned | include/psql/connection.hpp:221-228 | a query is preceded by an OID query exactly when it or an earlier one ever mentioned a user-defined type |
| OidResolution.FailsIffEverMissing | include/psql/connection.hpp:503-504 | an answered lookup fails exactly when it or an earlier one ever mentioned a type for which, or for whose array, the catalog has no OID |
| OidResolution.KnownTypeIsLookedUp | include/psql/connection.hpp:221-228 | an instance: a type whose OIDs are in the map is looked up again |
| OidResolution.MissingTypePoisons | include/psql/connection.hpp:503-504 | an instance: a query without parameters fails because of an earlier one |
| PgTypes.BuiltinsAreStandard | include/psql/detail/builtins.hpp:17-99 | the compiled-in OIDs, single and array, to encode and to decode, are those of `pg_type`, and a fixed-length type is encoded in the length given there |
| PgTypes.OidIsTheCatalogs | include/psql/detail/oid_of.hpp:26-84 | with a sound map the OID of any type, built-in or user-defined, single or array, is the one the catalog has for its SQL name |
| PgTypes.RunOids | include/psql/detail/oid_of.hpp:44-77 | after any history of queries a user-defined type in the map is passed as the catalog's type of that name, and an array of it as that name with brackets |
| PgTypes.MemberOid | include/psql/detail/serialization.hpp:106-112 | the OID word in front of each member on the wire is the catalog's OID of the member's type |
| Libpq.RepliesPair | include/psql/connection.hpp:171-179 | in a pipeline's reply stream result i is at 2i and NULL at 2i+1 |
| Connection.ErrorCodes | include/psql/connection.hpp:559-581 | no error for the three good statuses, the code of a five-digit SQLSTATE unless that is 00000, and the named error of every other status |
| Connection.CommandCarries | include/psql/connection.hpp:231-234 | the command sent is of the statement's kind, with its text or name, the encoding of every argument in its place, and the OID of every type unless it is prepared |
| Libpq.Link.ReceiveResult | include/psql/connection.hpp:429-458 | the wait loop returns the oldest outstanding reply, or NULL if none is due, given that each wait ends with a reply read |
| Connection.SendStatement | include/psql/pipeline.hpp:26-46 | the command sent is the statement's, with each argument's encoding in its place, copied out through pointers that are still good, and each type's OID; throws exactly when an OID is missing |
| Connection.Pipeline.Push | include/psql/pipeline.hpp:31-51 | sends the statement with its arguments' encodings and OIDs, returns the next index, and adds the reply to this command behind those already due |
| Connection.Pipeline.Operate | include/psql/connection.hpp:154-157 | after the operation the replies due are those of its successful pushes in order; it throws exactly by itself or at a push that fails and is not caught |
| Connection.Pipeline.Perform | include/psql/connection.hpp:153-164 | a throwing operation ends with a rollback command |
| Connection.BasicConnection.Drain | include/psql/connection.hpp:171-183 | the loop fetches exactly 2n+1 replies, fills slot i with result i, and leaves none |
| Connection.BasicConnection.ExecPipeline | include/psql/connection.hpp:133-204 | leaves pipeline mode with no reply outstanding and one wake-up sent. The exception error, no results and a rollback as last command exactly if the operation throws or a push that is not caught lacks an OID; otherwise the results, no error if all commands ended well, and the SQLSTATE of the first that did not |
| Connection.PipelineCodes | include/psql/connection.hpp:193-199 | in terms of what the server does: all commands executed well means no error; an SQLSTATE other than 00000 behind only good ones is the error |
| Connection.BasicConnection.SingleResult | include/psql/connection.hpp:523-550 | returns the one result, no error for a good status and the code of its SQLSTATE otherwise, fetches the NULL after it, wakes the receiver |
| Connection.BasicConnection.ExtractNewUdts | include/psql/detail/extract_new_udts.hpp:19-59 | pushes exactly the extracted types behind what the list holds |
| Connection.BasicConnection.LoadRows | include/psql/connection.hpp:499-507 | the loop emplaces row by row, stops at the first with 0xFFFFFFFF in either column, and fails exactly if there is one |
| Connection.BasicConnection.QueryOids | include/psql/connection.hpp:460-510 | sends the names in order; loads the rows, failing exactly if the catalog lacks a name or its array, or reports the error, or takes one whose SQLSTATE parses to 0 for success without rows; leaves no reply, signals the receiver |
| Connection.BasicConnection.AsyncQuery | include/psql/connection.hpp:213-242 | for both kinds of query: the last command sent is this statement with its arguments' encodings, and with the catalog's OIDs for user-defined types and arrays of them, or a lookup that ended it; the result is its reply, a good status is no error, and an SQLSTATE other than 00000 is the error. Serializing throws exactly after an overlooked failure of the lookup, if a type is missing in the map; the connection is idle afterwards whatever the lookup did, and the receiver is signalled once for each command sent |
| ConnectionTheorems.SlotHoldsItsReply | include/psql/connection.hpp:171-179 | the slot a push returned holds the reply to this push, also where other pushes threw and were caught |
| ConnectionTheorems.ArgumentsArrive | include/psql/connection.hpp:231-234 | every parameter of the command sent can be read: decoding it gives the argument over what is there, and over T{} the argument itself, time points to the microsecond, exactly if the strings in there are empty |
| ConnectionTheorems.PipelineErrorCause | include/psql/connection.hpp:193-197 | "aborted" is reported exactly when the failure that aborted the pipeline has a code that parses to 0 |
| Connection.FirstErrorIsLowest | include/psql/connection.hpp:193-197 | the code reported is that of the lowest failing result |
| ConnectionTheorems.CauseCanBeMasked | include/psql/connection.hpp:572-573 | an instance: a first failure with SQLSTATE 00000 is reported as "aborted" |
| ConnectionTheorems.Session | include/psql/connection.hpp:133-242 | over any sequence of queries and pipelines the commands of each stand behind those of the one before, with only OID queries besides; each gets the replies to exactly its own commands or ends for the reason its lookup gives, leaves none for the next, and signals the receiver; the OID map and list are what the whole history makes them |
| ConnectionTheorems.SessionLooksUpIff | include/psql/connection.hpp:221-228 | in a session a query looks OIDs up exactly if it or any before it mentioned a user-defined type, and an answered lookup fails exactly if the catalog has no OID for one of these or for its array |
| ConnectionTheorems.OverlookedLookupThrows | include/psql/connection.hpp:496-509 | an instance: a lookup that fails with 00000 makes the query throw |
| SharedSocket.StepKeepsInv | include/psql/connection.hpp:343-458 | every step of receiver, queries and server keeps both conservation laws, and a query parks or is posted only where the next reply makes that right |
| SharedSocket.RunKeepsInv | include/psql/connection.hpp:343-458 | in every interleaving notifications and replies are each handed over in the order sent, none lost or doubled, and no result is fetched when that would block |
| SharedSocket.FetchTakesOldest | include/psql/connection.hpp:453-453 | a fetch takes the oldest pending reply, wherever it was, or NULL if none is pending |
| SharedSocket.StrandsIff | include/psql/connection.hpp:435-436 | a step strands notifications exactly if it takes an early return of a query, for a cancelled or failed wait, unreadable input or an unexpected reply, with some inside libpq and the receiver parked |
| SharedSocket.RunStrandsIff | include/psql/connection.hpp:529-545 | a run ends with notifications stranded exactly if a step stranded them and no input, cancellation or query has come since |
| SharedSocket.FailedQueryStrands | include/psql/connection.hpp:529-530 | a run in which that happens |
| SharedSocket.CancelledQueryStrands | include/psql/connection.hpp:435-436 | a run in which it happens because a waiting query is cancelled |
| SharedSocket.CancelEndsIff | include/psql/connection.hpp:350-376 | cancelling the receiver ends it exactly if it is parked or a signal has queued its handler; after input the cancellation is lost |
| SharedSocket.LostCancelTakesEffect | include/psql/connection.hpp:350-351 | a lost one ends the receiver at the next signal while it is parked, and not at input |
| SharedSocket.QueryStrandsIff | include/psql/connection.hpp:440-445 | a step strands a parked query exactly if the receiver empties the socket with the query's reply then inside libpq |
| SharedSocket.RunStrandsQueryIff | include/psql/connection.hpp:372-376 | a run ends with a query stranded exactly if such a step was taken, and since then the server has sent nothing and the query's wait has not failed |
| SharedSocket.ReceiverStrandsQuery | include/psql/connection.hpp:440-445 | a run by the protocol in which that happens, and after which nothing moves |
| SharedSocket.LibpqKeepsPromise | include/psql/connection.hpp:171-183 | what libpq hands out for a command and for a pipeline is what the two loops wait for |
| SharedSocket.StepOnTrack | include/psql/connection.hpp:523-545 | with promised replies and readable input no query ends without the signal, and none leaves a reply over |
| SharedSocket.RunOnTrack | include/psql/connection.hpp:133-190 | over whole runs: no notification is stranded, and ended queries have fetched all replies to their commands in order, whatever the receiver read |
| SharedSocket.RestMeansDone | include/psql/connection.hpp:355-381 | where such a run comes to rest a query is stranded, or all replies are fetched and a waiting receiver has been given every notification |
| SharedSocket.Channel.ResumeReceiver | include/psql/connection.hpp:350-381 | the segment after a wake-up: a cancelled one ends without reading; otherwise what is read goes into libpq, unreadable input ends it, and the oldest notification there is taken, or it parks |
| SharedSocket.Channel.CompleteReceive | include/psql/connection.hpp:359-367 | the notification handed over is the next one sent |
| SharedSocket.Channel.ResumeReceiveResult | include/psql/connection.hpp:435-453 | the segment of a waiting query after its wait: end on an error, park again while busy, else go on with its reply |
| SharedSocket.Channel.TakeResult | include/psql/connection.hpp:171-188 | the checks on each reply: where NULL or the synchronization point with nothing behind it is due, anything else ends the query without the signal; behind the last reply the signal wakes a parked receiver |
| SharedSocket.Channel.ResumeFlush | include/psql/connection.hpp:396-423 | input read while commands are flushed stays inside libpq |
| PoolProtocol.StepKeepsInv | include/psql/connection_pool.hpp:37-171 | every step keeps conservation, no lost wake-up, the timer's queue, disjointness, and the health of idle connections |
| PoolProtocol.SegmentKeepsCounts | include/psql/connection_pool.hpp:118-150 | a segment of an acquisition, also of a newcomer that barges in, keeps the count and loses no wake-up |
| PoolProtocol.DestroyKeepsCounts | include/psql/connection_pool.hpp:156-178 | ending a lease lowers the counter by one, not below zero, and loses no wake-up |
| PoolProtocol.CancelKeepsInv | include/psql/connection_pool.hpp:126-132 | cancelling one operation keeps the invariant |
| PoolProtocol.CancelTakesEffect | include/psql/connection_pool.hpp:124-133 | a parked acquisition that is cancelled leaves the queue, the others keep their order; it ends with an empty handle if the pool is full and otherwise takes the slot. One that is not parked is only marked |
| PoolProtocol.SetMaxKeepsInv | include/psql/connection_pool.hpp:98-103 | resizing keeps the invariant |
| PoolProtocol.MoveKeepsInv | include/psql/connection_pool.hpp:40-40 | move construction keeps the invariant: the source no longer returns |
| PoolProtocol.SwapKeepsInv | include/psql/connection_pool.hpp:41-46 | swap assignment keeps the invariant |
| PoolProtocol.ParkedIsQueued | include/psql/connection_pool.hpp:132-132 | every waiting request is in the timer's queue |
| PoolTheorems.RunKeepsInv | include/psql/connection_pool.hpp:111-178 | in every run the counter is the acquisitions in flight plus the handles that will return, is never negative, and all of the invariant holds: every idle connection is OK and transaction-idle, none is idle twice, idle and in a handle, or in two handles |
| PoolTheorems.QuiescentPoolIsFull | include/psql/connection_pool.hpp:124-135 | with no woken request left, a waiter is parked only if every slot is taken |
| PoolTheorems.RunIsBounded | include/psql/connection_pool.hpp:124-170 | leased, in-flight and idle connections together never exceed the largest size ever set |
| PoolTheorems.WorkDecreases | include/psql/connection_pool.hpp:117-171 | in a pool that nobody resizes, without cancellation, every step that brings an acquisition forward or ends a lease lowers a measure, however often requests are parked again |
| PoolTheorems.OthersKeepMeasure | include/psql/connection_pool.hpp:37-58 | using, moving and swapping leases and destroying empty handles leave the measure alone; a new request adds 8 |
| PoolTheorems.PoolTerminates | include/psql/connection_pool.hpp:111-178 | in any interleaving, with requests coming at any time and leases used, broken, moved and swapped, acquisitions take at most 8 working steps each; where none is left all have been served and every slot is free |
| ConnectionPool.Pool.AsyncAquire | include/psql/connection_pool.hpp:112-154 | a new acquisition runs its first segment at once |
| ConnectionPool.Pool.Resumed | include/psql/connection_pool.hpp:118-150 | the segment from a resumption to the next yield: in a full pool a cancelled acquisition ends with an empty handle and any other parks behind the rest; otherwise it counts itself and takes the connection idle for longest, or connects if none is. It keeps the invariant |
| ConnectionPool.Pool.Connected | include/psql/connection_pool.hpp:139-149 | a finished connect, failed or not, hands out a handle that will return |
| ConnectionPool.Pool.SetMaxSize | include/psql/connection_pool.hpp:98-103 | sets the size and wakes exactly the requests in the queue |
| ConnectionPool.Pool.DestroyHandle | include/psql/connection_pool.hpp:174-179 | a handle returns its connection exactly once, if it still points to the pool: the count falls by one, the oldest waiter is woken, and the connection is appended to the idle ones exactly if it is OK and transaction-idle |
| ConnectionPool.Pool.ReturnConnection | include/psql/connection_pool.hpp:156-170 | frees the slot, wakes the oldest waiter, keeps the connection exactly if it is OK and transaction-idle |
| ConnectionPool.Pool.MoveHandle | include/psql/connection_pool.hpp:40-40 | the new handle has what the source had, the source is empty |
| ConnectionPool.Pool.AssignHandle | include/psql/connection_pool.hpp:41-46 | the two handles are swapped |
| SqlState.ToBase36 | include/psql/sqlstate.hpp:812-825 | the loop yields upper-case digits without a leading zero that denote the value |
| SqlState.ParsePrinted | include/psql/connection.hpp:572-573 | parsing a printed code gives it back; nothing is printed for 0 and below |
| SqlState.PrintParsed | include/psql/sqlstate.hpp:807-807 | printing the code of a digit string gives it back in upper case without leading zeros, so the whole string exactly when it has none |
| SqlState.LeadingZeroIsLost | include/psql/sqlstate.hpp:807-807 | an instance: 01000 is not printed as it was received |
| SqlState.DigitsParse | include/psql/connection.hpp:573-573 | strtol's value of a digit string, and that the cast keeps it exactly below 2^31 |
| SqlState.StrtolReads | include/psql/connection.hpp:573-573 | all of strtol where the number starts with a digit: white space skipped, a sign taken, digits of either case up to the first other character, saturation at 64 bits |
| SqlState.CodeOfDigits | include/psql/sqlstate.hpp:9-180 | the code of five digits in base 36, as the enumeration has it: 01000 is 46656, 23505 is 3505685, 42P01 is 6844177 |
| SqlState.NumberInjective | include/psql/connection.hpp:573-573 | strings of one length with one code are the same up to case |
| SqlState.FiveCharacters | include/psql/connection.hpp:572-573 | five characters fit an int and are determined by their code, which is 0 only for zeros |

## Left out

- libpq's and Asio's inside (sockets, polling, executors, completion tokens), `async_connect`, `async_prepare` and the describe calls: sequences of library calls without logic of their own. Of `async_flush` only what it reads is modelled.
- Sends that libpq refuses for reasons of its own. A failing `PQconsumeInput` ends the operation in `SharedSocket` and does not occur in `Connection`.
- CodecTheorems.RoundTripIff: says nothing of a composite or array of k * 2^32 - 1 bytes in front of a member of user-defined type, or of an array of one: there the decoder takes any bytes for the OID, so the end depends on the payload. Nor of a string that is 2^31 bytes or longer in `T{}`, which could make up for what a cut length leaves out.
- Default member initializers that are not constant: each class has fixed initial values.
- `std::vector<bool>` can be encoded, but decoding it does not compile; the model does not tell it from other arrays.
- Libpq.Link.ReceiveResult: takes it for granted that each wait ends with a reply read; `SharedSocket.RunStrandsQueryIff` says exactly when that fails.
- SharedSocket.RestMeansDone: is about runs that come to rest; a socket that stays readable without a whole message could be read for ever.
- Loss of the connection, and libpq's keeping back of a notification that stands behind an unfetched reply: in `SharedSocket` a notification inside libpq can be taken at once.
- The parameter of the OID query as bytes: the server is assumed to answer one row per name, in order, or to fail.
- The server's own encodings: it sends empty arrays with zero dimensions, which the decoder rejects, and NULL as length -1.
- Types that contain themselves: the extraction would not end on them, and a finite `Type` cannot express them.
- `const char*` and `std::array` as types of their own: they are encoded like `Text` and `Array` and never decoded.
- Pooled connections as objects: they are entries of a table in `Pool`, so two C++ references to one handle are not told apart; a user who moves the connection out of its handle is not modelled.
- Fairness of the pool: a newcomer may take a slot that a woken waiter was meant to have, so no order among requests is claimed.
- `Deserialization.Deserialize`: a value half written when an exception leaves is not represented, because `as` drops it.
- The SQLSTATE table and message texts, the row and result accessors, the examples.
