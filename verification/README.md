# Contact discovery: verified models

Dafny models of the parts of the contact-discovery enclave (C) and its host (Java) whose
correctness is not visible from one function: constant-time division, the Robin Hood set, the
shard queue and worker, the client handle protocol, the protobuf wire layer, the token rate
limiter, directory replication, Noise packets, and the response builder.  `dafny verify
dfyconfig.toml` checks the whole project.

Files follow the components.

| file | component |
|---|---|
| `Words.dfy` | machine words: wrapping, shifts, bitwise operators, branch-free selection |
| `WideDivision.dfy`, `ConstantTimeDivision.dfy` | Algorithm D with two digits; division by an invariant divisor |
| `RobinHood.dfy`, `FixedSet.dfy` | the slot table as a value; the mutable set over it |
| `Queue.dfy`, `Shard.dfy` | the bounded request queue; worker start, stop and barrier |
| `ClientHandles.dfy`, `EnclaveCalls.dfy`, `CallOrder.dfy`, `LookupFailure.dfy` | acquire, release, kill and free of clients; the calls that do so, stage by stage and exit by exit; the order of the stages; a run whose lookup fails |
| `Wire.dfy`, `Decoder.dfy`, `Grammar.dfy`, `Merge.dfy` | encoder; heap and decoder; the inputs that decode; merge of the two e164 lists |
| `RateLimits.dfy`, `RateLimiter.dfy` | leaky bucket arithmetic; prepare, validate and collection over the store |
| `BucketLevels.dfy`, `TokenCosts.dfy`, `SparePermits.dfy`, `LateCharge.dfy` | over every run: what the level is, what a token costs, what collections may use; a run with a late charge |
| `Directory.dfy`, `Relay.dfy`, `Replication.dfy` | change filter and snapshot; the filter with failures and retries; the subscriber that follows the stream |
| `Noise.dfy`, `Triples.dfy` | packet chunking; masked triples |
| `Options.dfy` | a value that may be missing |

How things are modelled:

- Words are naturals below 2^64 (or 2^32) and every operation that may wrap does.  Bitwise
  operators are defined bit by bit and related to arithmetic by lemmas.
- Concurrent code is a transition system over any set of threads.  Each stretch that the source
  makes atomic, by a mutex or a compare-exchange, is one step, and theorems quantify over every
  run.  Condition variables wake at least one sleeper per signal and may wake spuriously.
- What the source takes from outside is a parameter: the keyed hash is any function, `rand()` any
  number at each call, the code a stage of an enclave call returns any code, the cipher any pair of
  functions that invert each other, the clock any instant (also backwards), the memory around the
  workspace any content, a put on the stream any outcome (also one that fails and still lands).
- `double` is `real`; instants are nanoseconds and spans are rounded to whole seconds as
  `Duration.toSeconds` does.

Where documentation and code differ, the code is followed:

- The comment above the e164 merge (c/enclave/enc.c:659-664) promises the previous list followed by
  the new one.  The loop puts first whichever list lies lower in the workspace, that is the
  one that came first in the request.
- The comment at c/enclave/enc.c:671-682 says no invalid location is dereferenced.
  `Merge.ReadsInsideIff` gives the exact condition: it fails when the request carries an explicit
  empty previous list directly before a new list that is longer than the workspace below it;
  `Merge.EmptyPrevReadsBelow` gives the request bytes.  The value read there is discarded, so the
  output is right all the same.
- A failed `sharded_ohtable_get_batch` in `enclave_run` jumps to `free_e164s` and leaves `user_records`
  allocated; a failed `create_e164_pni_aci_triples` would leave `out_triples`
  (`EnclaveCalls.GivenBackIff`).  The latter function only ever returns success, so in this version
  only the former can happen; `LookupFailure.FailedLookup` is a run that ends so.
- `fixedset` adds hash and distance in 64-bit words, and `% cap` does not commute with wrap-around
  (`FixedSet.NextSlotIff`): with three keys in a table of 40 slots a member can no longer be found
  (`FixedSet.LostMember`).
- Overlapping subscriptions to the stream can leave a number at an earlier state
  (`Replication.OverlapGoesWrong`), and so can a request made while a new subscription has not
  delivered anything (`Replication.StaleRequestGoesWrong`); `Directory.DeliverIff` gives the exact
  condition on a delivery.
- A charge stamped before the drop of the bucket's predecessor can exceed the limit
  (`LateCharge.LateExceeds`); `RateLimiter.RenewedFollowsIff` gives the exact condition.
- `advanceGcts` is documented to take the permits used away from the next collection
  (CosmosTokenRateLimiter.java:260-267).  It counts the scalar per second and ignores the leak
  duration; `SparePermits.UsedUpIff` says when permits are left over all the same, and
  `SparePermits.CollectedWithinTime` what holds in any case.
- `prep_ct_div` is meaningful for divisors 2 to 2^63 only (`ConstantTimeDivision.PrepDefinedIff`).

Assumptions taken over from the design:

- Directory replication: changes reach the filter in the order they happened to the table, a batch
  with failures is offered again from the first record reported, phone numbers are unique at every
  step, an account has a PNI exactly when it has a number, and a subscription from the start time
  begins no later than the first change of the scan.  An event that is zero milliseconds behind the
  latest comes when all records on the stream so far have been delivered.
  `Replication.SnapshotThenReplay` also takes each new subscription to end the one before it, as the
  Kinesis contract quoted at DynamoDbAccountPopulator.java:185-195 has it, and to begin no later than
  what was delivered last; `Replication.PromptReplay` takes instead that the subscriber makes one
  request at a time, after the live subscription has delivered something.
- Client handles: the secret occurs in memory only where `client_add` put it.  A failing
  `noise_handshakestate_split` sets neither cipher state.
- Rate limiter: token identifiers are random and never drawn twice; leak scalar and leak duration
  are positive; batches are atomic, and a batch with a stale etag or a missing token does nothing;
  the bucket is dropped no earlier than its time to live after its last stamp.
- `fixedset`: hash values leave room for `hash + cap` below 2^64, and capacities stay below 2^32, up
  to the largest capacity `calloc` grants.

## Model

| member | source | states |
|---|---|---|
| Words.TernarySelects | c/util/util.h:64-75 | the masked selection returns the first word when the condition is true and the second otherwise, for all words |
| WideDivision.GuessTooBig | c/util/uint128div.c:58-61 | the test left > right holds exactly when the guessed digit exceeds the true quotient digit |
| WideDivision.BigRemainder | c/util/uint128div.c:65-71 | leaving the correction loop because the remainder reached the base is only possible when the guess is no longer too big |
| WideDivision.QuotientDigit | c/util/uint128div.c:54-72 | a digit of the quotient is exact and below 2^32 after at most two corrections, with no wrap-around on the way |
| WideDivision.ShiftDividend | c/util/uint128div.c:34-44 | the two shifted halves together are the dividend times the normalising power of two, nothing shifted out |
| WideDivision.Normalise | c/util/uint128div.c:26-28 | shifting dividend and divisor alike keeps the quotient |
| WideDivision.PartialRemainder | c/util/uint128div.c:74-76 | the wrapping computation of the partial remainder gives the true remainder |
| WideDivision.LongDivision | c/util/uint128div.c:50-97 | two digits found one after the other make up the quotient of the whole dividend |
| WideDivision.DivMod128By64 | c/util/uint128div.c:16-98 | for every v > u1 the result is the floor of (u1 * 2^64 + u0) / v |
| WideDivision.Div128By64 | c/util/uint128div.c:101-108 | the same for a 128-bit dividend whose quotient fits a word |
| ConstantTimeDivision.FloorLog2 | c/util/util.h:17-26 | 2^result <= n < 2^(result+1) for n > 0, and zero for zero |
| ConstantTimeDivision.CeilLog2 | c/util/util.h:28-32 | the least exponent whose power of two reaches n |
| ConstantTimeDivision.PrepDefinedIff | c/util/util.h:127-137 | the shift amounts stay below the word size exactly for divisors 2 to 2^63 |
| ConstantTimeDivision.PrepCtDiv | c/util/util.h:127-137 | the stored multiplier is floor(2^64 (2^l - d) / d) + 1, fits a word, and goes with shifts 1 and l - 1 |
| ConstantTimeDivision.MultiplyDivides | c/util/util.h:116-119 | Granlund and Montgomery's theorem 4.2: a multiplier close enough above P / d divides exactly |
| ConstantTimeDivision.CtDivIsOneDivision | c/util/util.h:150-153 | the subtraction does not wrap and the steps of ct_div together are one division by 2^(64+l) |
| ConstantTimeDivision.CtDivModExact | c/util/util.h:150-169 | with the prepared constants ct_div is n / d and ct_mod is n % d for every word n |
| ConstantTimeDivision.DivideBy | c/util/util.h:127-169 | preparing for d and then dividing gives n / d and n % d |
| RobinHood.PlaceKeeps | c/fixedset/fixedset.c:212-242 | taking a slot from an entry nearer its hash keeps homes, the order jump[i+1] <= jump[i] + 1 and distinct keys, and exchanges exactly the two keys |
| RobinHood.DisplacedFits | c/fixedset/fixedset.c:223-241 | the displaced key can go on from the next slot under the same invariant |
| RobinHood.ShiftKeeps | c/fixedset/fixedset.c:261-267 | one backward shift keeps the table well formed apart from the moving hole and loses no key |
| RobinHood.EndHole | c/fixedset/fixedset.c:263-268 | emptying the hole before an entry at distance at most one restores the whole invariant |
| RobinHood.ProbeIffMember | c/fixedset/fixedset.c:158-172 | a present key is met by exactly one probe in 1..maxjump, an absent one by none |
| RobinHood.JumpAtMostSize | c/fixedset/fixedset.c:36-44 | no entry lies further from its hash than there are entries |
| RobinHood.FindEmpty | c/fixedset/fixedset.c:176-180 | a table with fewer keys than slots has an empty slot |
| RobinHood.RunWithin | c/fixedset/fixedset.c:204-268 | the run from a key's hash over its slot to the next empty slot is no longer than the table, so positions stay below hash + cap |
| FixedSet.NextSlotIff | c/fixedset/fixedset.c:84-88 | adding one to a 64-bit position goes to the next slot if and only if the sum does not wrap or cap divides 2^64 |
| FixedSet.LostMember | c/fixedset/fixedset.c:158-243 | without that room a member can be lost: hashes for which the third insertion into a table of 40 slots carries the second key across 2^64, after which it is in the table and no lookup at any distance finds it |
| FixedSet.FixedSet.constructor | c/fixedset/fixedset.c:90-112 | a new set is valid, empty and has 32 slots |
| FixedSet.FixedSet.Find | c/fixedset/fixedset.c:158-172 | the exclusive-or accumulation yields position and address of the one slot holding the key, or zeros, and reports membership |
| FixedSet.FixedSet.Get | c/fixedset/fixedset.c:246-251 | true exactly for members |
| FixedSet.FixedSet.Upsert | c/fixedset/fixedset.c:174-244 | adds the key and nothing else, says whether it was there, and grows exactly when the keys and an eighth of them exceed the slots, by a quarter and a random part of a half; without memory to grow it fails, only when the keys exceed half the largest capacity, and nothing changes |
| FixedSet.FixedSet.Insert | c/fixedset/fixedset.c:204-243 | the displacing loop, in wrapping words, ends at an empty slot and adds exactly the new key; no sum wraps and no distance is cut to 32 bits; the table is the one its trips lead to |
| FixedSet.FixedSet.Resize | c/fixedset/fixedset.c:124-146 | a larger block with the same keys, without a nested resize; or, exactly when calloc does not grant it, no change |
| FixedSet.FixedSet.Remove | c/fixedset/fixedset.c:253-270 | removes the key and nothing else and says whether it was there |
| FixedSet.FixedSet.Clear | c/fixedset/fixedset.c:280-283 | no key is left and the set is usable again |
| FixedSet.Lifetime | c/fixedset/fixedset.c:90-283 | for every hash that leaves room and every sequence of operations all answers and sizes are those of a mathematical set, but for insertions into a set over half the largest capacity that report no memory and do nothing |
| Queue.Queue.TryAdd | c/sharded_ohtable/queue.c:58-81 | one pass of queue_add_item: waits when full and open, refuses when closed, else appends at the ring position and signals as it should |
| Queue.Queue.TryTake | c/sharded_ohtable/queue.c:83-104 | one pass of queue_next_item: takes the oldest item, or waits, or reports nothing |
| Queue.Queue.Close | c/sharded_ohtable/queue.c:39-45 | closes without touching the contents |
| Queue.StepKeepsFifo | c/sharded_ohtable/queue.c:58-104 | every step keeps: items taken, then items inside, are the items added |
| Queue.AddKeepsWakeups | c/sharded_ohtable/queue.c:58-81 | adding never leaves a sleeper that could go on without someone of its kind awake |
| Queue.TakeKeepsWakeups | c/sharded_ohtable/queue.c:83-104 | the same for taking |
| Queue.OtherKeepsWakeups | c/sharded_ohtable/queue.c:39-45 | the same for closing and for spurious wake-ups |
| Queue.StepOutcome | c/sharded_ohtable/queue.c:39-104 | an item is taken in exactly if the queue is open and has room, its producer waits exactly if it is open and full, a consumer gets the oldest item and waits only if it asked to |
| Queue.ClosedStays | c/sharded_ohtable/queue.c:39-81 | in every run, once closed nothing is taken in any more |
| Queue.EveryRun | c/sharded_ohtable/queue.c:39-104 | in every interleaving: first in first out, and no wake-up is lost, for producers and consumers |
| Shard.StepKeepsOwnership | c/sharded_ohtable/shard.c:281-334 | every step keeps one owner of the worker slot and one stop in one of its stages |
| Shard.WorkerSafety | c/sharded_ohtable/shard.c:281-334 | never two workers; at most one stop, be it claimed, queued or taken, and only while STOPPING; keep_alive falls only by handling it; the exit check never fails |
| Shard.StopHasWorker | c/sharded_ohtable/shard.c:308-334 | while a stop waits, a worker is in the loop that must come to the request before it can leave |
| Shard.StopReached | c/sharded_ohtable/shard.c:281-334 | from every reachable state with a blocked shard_stop, steps of the one worker alone, bounded by four per request ahead of it, bring the stop to its end without waiting |
| Shard.CanRunAgain | c/sharded_ohtable/shard.c:298-306 | the exit exchange succeeds and the next shard_run starts |
| Shard.StepKeepsLog | c/sharded_ohtable/shard.c:248-296 | requests handled, in hand and queued are together those ever queued, in order, and a waiter is done exactly when its request is handled |
| Shard.WaitIsBarrier | c/sharded_ohtable/shard.c:149-177 | when shard_wait or shard_stop may return, every request queued before its own has been handled, in order, across restarts |
| ClientHandles.SecretWords | c/enclave/enc.c:238-244 | for every random word, the unused, in-use and dead values are three different words, and the secret keeps all its bits but the lowest and the highest |
| ClientHandles.StepKeepsSound | c/enclave/enc.c:141-193 | every step keeps: the word of an owned client says so, nobody shares a client, the secret sits only in live clients |
| ClientHandles.StepKeepsSerials | c/enclave/enc.c:414-428 | every step keeps: a freed allocation is not live and was not freed before |
| ClientHandles.StepKeepsFree | c/enclave/enc.c:141-193 | every step keeps: a live client that cannot be acquired is in the hands of some thread |
| ClientHandles.ClientSafety | c/enclave/enc.c:84-107 | in every run with arbitrary handles: one owner, no use or free after free, no double free, no failing release, secret never overwritten |
| ClientHandles.AcceptedIff | c/enclave/enc.c:154-193 | a handle is acquired or removed exactly when it names a published, unowned client; otherwise nothing changes |
| EnclaveCalls.RefusedIff | c/enclave/enc.c:542-545 | the masked input check refuses exactly the requests that are not whole pairs and words or hold no number |
| EnclaveCalls.FlowOk | c/enclave/enc.c:441-921 | going on from a stage adds what it takes and removes what it frees to what the call owes, for every stage of every call |
| EnclaveCalls.FlowError | c/enclave/enc.c:441-921 | every jump on failure goes to the label that frees exactly what the call owes, but for two jumps of enclave_run |
| EnclaveCalls.StepRefines | c/enclave/enc.c:430-921 | every stage, label and exit of the five calls is one step of the handle protocol or invisible to it |
| EnclaveCalls.StepKeepsInv | c/enclave/enc.c:430-921 | every stage keeps: handle protocol, resources, and the state of each client's parts that the next stages rely on |
| EnclaveCalls.AlwaysReleased | c/enclave/enc.c:482-920 | in every run a live client can be acquired exactly when no thread is inside a call that works on it; so every call that acquires releases on all exits |
| EnclaveCalls.CallSafety | c/enclave/enc.c:414-921 | in every run no stage follows an unset pointer, loses a part, takes a resource twice, frees what it does not hold, shares a client or fails to release |
| EnclaveCalls.RequestStays | c/enclave/enc.c:542-551 | while enclave_run works, the client still has the checked request: whole pairs and words |
| EnclaveCalls.GivenBackIff | c/enclave/enc.c:653-776 | before the release a call has freed all it took, each exactly once, if and only if it did not fail in the lookup or in building the triples; it reports its first failure |
| CallOrder.InOrder | c/enclave/enc.c:430-921 | every stage of the five calls goes on to the next in the order of the source, numbered without reference to the transitions |
| CallOrder.OnePlace | c/enclave/enc.c:430-921 | no two stages of a call have the same number |
| CallOrder.AllStagesDone | c/enclave/enc.c:430-921 | in every run a call that is back at the host without a failure has done every one of its stages, in order |
| CallOrder.ReportsFailure | c/enclave/enc.c:441-921 | in every run a call reports the code of the one stage that failed, or success if none did |
| LookupFailure.FailedLookup | c/enclave/enc.c:713-776 | there is a run from an enclave without clients, through a new client, a handshake and an accepted request, whose lookup fails and which returns to the host with the record buffer not freed |
| Wire.VarintBytes | c/proto/pbtools.c:175-191 | the loop produces the base 128 form of every 64-bit value |
| Wire.Encoder.Write | c/proto/pbtools.c:150-173 | prepends the bytes if they fit with one byte to spare, else fails for good |
| Wire.Encoder.WriteTag | c/proto/pbtools.c:193-200 | prepends the varint of number * 8 + wire type |
| Wire.Encoder.WriteTaggedVarint | c/proto/pbtools.c:202-212 | prepends tag and value, or nothing for zero |
| Wire.Encoder.WriteField | c/proto/pbtools.c:473-485 | prepends the field's wire form, or nothing for the default value |
| Wire.Encoder.Result | c/proto/pbtools.c:131-148 | moves the message to the front and returns its length, or minus the error |
| Wire.PrependAllIsMessage | c/proto/pbtools.c:150-231 | fields written last to first give the whole message in order or the sticky failure |
| Wire.KeptIff | c/proto/pbtools.c:202-212 | what is written are exactly the non-zero numbers and the non-empty byte strings |
| Wire.Encode | c/proto/pbtools.c:2429-2441 | a strictly larger buffer gets exactly the message; a smaller one gives -4, buffer full |
| Decoder.HeapAlloc | c/proto/pbtools.c:78-120 | a block is aligned, starts behind all earlier ones, ends where the next may start, and is refused only for lack of room |
| Decoder.BlocksDisjoint | c/proto/pbtools.c:58-120 | over every series of allocations the blocks lie in the workspace in order and do not overlap |
| Decoder.WorkspaceSuffices | c/proto/pbutil.h:10-13 | after the message structure is allocated, at least the input's size is left |
| Decoder.VarintFrom | c/proto/pbtools.c:1037-1060 | reading on moves forward within the input or stops with an error that stays |
| Decoder.DecodeAll | c/proto/pbtools.c:2443-2455 | for every input the final state is the end of the input or minus the first error |
| Decoder.SkipMatchesReader | c/proto/pbtools.c:2365-2394 | skipping ends where the matching reader would, also out of data; an offset beyond INT_MAX is reported as a failed seek where the reader of a fixed size reports the end of the data |
| Decoder.VarintReads | c/proto/pbtools.c:1037-1060 | reading a number in base 128, in whatever form, gives its value modulo 2^64 and stops right behind |
| Decoder.ReadVarintBack | c/proto/pbtools.c:1037-1060 | reading the base 128 form of a value returns it |
| Decoder.FieldBack | c/proto/pbtools.c:1106-1122 | a written field is read back, or skipped whole if unknown |
| Decoder.RoundTrip | c/proto/pbtools.c:122-231 | decoding an encoded message returns every known field in order and ends at its end |
| Decoder.MemoryOnlyIfOverlong | c/enclave/enc.c:520-533 | with the enclave's workspace, out of memory means some length prefix exceeds the bytes left |
| Grammar.DecodesIff | c/proto/pbtools.c:2443-2455 | for every input, heap and schema: decoding ends at the end of the input if and only if the input is a concatenation of whole fields in the wire format, written down in numbers, and the memory is there; then the known fields are returned with the values the format gives them |
| Grammar.EnclaveDecodesIff | c/enclave/enc.c:520-533 | in the enclave's workspace a request is accepted if and only if it is such a concatenation |
| Grammar.CutShort | c/proto/pbtools.c:1021-1035 | a message that ends inside a field, wherever, is refused with -2, out of data |
| Grammar.TagRefused | c/proto/pbtools.c:1106-1122 | a tag with number zero is refused with -5, one with a wire type its field does not have or nobody has with -1 |
| Grammar.LengthRefused | c/proto/pbtools.c:1087-1104 | a length of 2^31 - 1 or more is refused with -8, one without memory with -3, one that leads out of the range of int with -7 |
| Grammar.EndlessRefused | c/proto/pbtools.c:1037-1060 | ten bytes that all say there is more are refused with -6 |
| Grammar.FieldIsPiece | c/proto/pbtools.c:473-485 | the encoder writes each field as one well-formed field of that format that says just this field; the low three bits of its first byte are 0 for a number and 2 for bytes |
| Decoder.OrAccumulates | c/proto/pbtools.c:1049-1050 | the shifted or is the sum of the groups modulo 2^64 |
| Decoder.Reader.TakeVarint | c/proto/pbtools.c:1037-1060 | the loop computes the specified varint read |
| Decoder.Reader.TakeTag | c/proto/pbtools.c:1106-1122 | number and wire type of the tag, or the error for number zero |
| Decoder.Reader.TakeLength | c/proto/pbtools.c:1087-1104 | the length prefix, refused at INT_MAX and for a wrong wire type |
| Decoder.Reader.Take | c/proto/pbtools.c:1021-1035 | the next bytes, or zeros and the error |
| Decoder.Reader.TakeBytes | c/proto/pbtools.c:1293-1311 | allocates first, then reads; either may stop the decoder |
| Decoder.Reader.SeekBy | c/proto/pbtools.c:2338-2363 | moves forward within the input or stops |
| Decoder.Reader.Skip | c/proto/pbtools.c:2365-2394 | skips as specified for every wire type |
| Decoder.Decode | c/proto/pbtools.c:2443-2455 | the loop over the primitives computes the specified decoding |
| Decoder.ThroughBuffer | c/proto/pbtools.c:2429-2455 | encoder and decoder run one after the other return the present, known fields |
| Merge.MergeE164s | c/enclave/enc.c:683-711 | the output is one list followed by the other, the one lower in memory first; the addresses read are as listed |
| Merge.ReadsInsideIff | c/enclave/enc.c:671-711 | every read of both arms stays in the workspace if and only if it is not the case that an empty previous list shares its address with a new list longer than the part below it |
| Merge.EmptyPrevReadsBelow | c/enclave/enc.c:520-533 | request bytes with an empty previous list before a new one decode in the enclave's workspace to two lists at one address, and the merge reads below the workspace exactly if the new list is longer than header, padding and message |
| Merge.HeapLaysOut | c/proto/pbtools.c:78-120 | whatever else was allocated, the heap lays out the two lists as the merge needs |
| Merge.LocatedOrdered | c/proto/pbtools.c:1293-1311 | for every input that decodes, the bytes fields lie in the workspace in the order they came and do not overlap |
| Merge.WordBytes | c/enclave/enc.c:683-711 | byte i of a loaded word is its i-th digit in base 256 |
| Merge.MergedRequest | c/enclave/enc.c:520-711 | from request bytes to output: whenever a request decodes and its lists are whole words, the merge yields the list that came first in the request followed by the other, whatever the memory held |
| RateLimits.AcceptedBounds | src/main/java/org/signal/cdsi/limits/RateLimits.java:20-42 | an accepted charge keeps the level within the bucket and is covered by the rise of the level plus the leak |
| RateLimits.LevelExact | src/main/java/org/signal/cdsi/limits/RateLimits.java:20-42 | the decision and the new level in plain numbers, from whole seconds, scalar and duration: what has not leaked plus the charge, or just the charge on a drained bucket; refused exactly if that is over the size |
| RateLimits.RetryWorksIff | src/main/java/org/signal/cdsi/limits/RateLimits.java:34-42 | after the reported wait a rejected charge is accepted exactly if it is at most bucketSize |
| RateLimits.RetryTight | src/main/java/org/signal/cdsi/limits/RateLimits.java:34-42 | no wait shorter than reported by more than a second is enough |
| RateLimits.TtlLeast | src/main/java/org/signal/cdsi/limits/cosmos/CosmosTokenRateLimiter.java:490-496 | the time to live is the least number of leak intervals that drain a full bucket, cut to an int |
| RateLimits.DropAfterTtlIff | src/main/java/org/signal/cdsi/limits/cosmos/CosmosTokenRateLimiter.java:490-496 | a bucket idle for the time to live is empty whatever its level, exactly if that time leaks a full bucket; always so when it fits an int |
| RateLimits.DropUnobservable | src/main/java/org/signal/cdsi/limits/cosmos/CosmosTokenRateLimiter.java:490-496 | replacing such a bucket by a new one changes no later decision |
| RateLimiter.SelectForGc | src/main/java/org/signal/cdsi/limits/cosmos/CosmosTokenRateLimiter.java:359-368 | the loop makes the greedy selection: within the permits and the batch, and nothing left out that would still fit |
| RateLimiter.ByAgeOrders | src/main/java/org/signal/cdsi/limits/cosmos/CosmosTokenRateLimiter.java:356-357 | candidates come oldest first |
| RateLimiter.PlanCollection | src/main/java/org/signal/cdsi/limits/cosmos/CosmosTokenRateLimiter.java:313-391 | from a listing of the whole partition, filter, sort and selection give the specified collection and timestamp |
| RateLimiter.CollectionSound | src/main/java/org/signal/cdsi/limits/cosmos/CosmosTokenRateLimiter.java:323-391 | for every listing of the partition the collection names stored records, each once, never the predecessor, worth at most the permits; the timestamp moves to the present exactly when no candidate stays |
| RateLimiter.OldestCollected | src/main/java/org/signal/cdsi/limits/cosmos/CosmosTokenRateLimiter.java:356-368 | oldest first: a candidate stays only if the batch is full of tokens no newer than it, or those and it exceed the permits |
| RateLimiter.PlanStep | src/main/java/org/signal/cdsi/limits/cosmos/CosmosTokenRateLimiter.java:375-391 | the timestamp moves to the present exactly when no candidate stays, else by what is used; with nothing to collect the call goes on |
| RateLimiter.GcGoesOn | src/main/java/org/signal/cdsi/limits/cosmos/CosmosTokenRateLimiter.java:313-333 | a collection that is skipped, refused or done never stops the prepare call |
| RateLimiter.GcPermitsExact | src/main/java/org/signal/cdsi/limits/cosmos/CosmosTokenRateLimiter.java:254-303 | the permits are the scalar times the whole leak intervals since the timestamp, from both sides, none if it is ahead |
| RateLimiter.AdvanceLeast | src/main/java/org/signal/cdsi/limits/cosmos/CosmosTokenRateLimiter.java:268-275 | the timestamp moves by the fewest whole seconds that are worth the permits at the scalar a second |
| RateLimiter.StepKeepsInv | src/main/java/org/signal/cdsi/limits/cosmos/CosmosTokenRateLimiter.java:134-462 | every read, batch, creation, expiry of a token and drop of the bucket keeps ledger, tokens and snapshots consistent |
| RateLimiter.ChargedOnce | src/main/java/org/signal/cdsi/limits/cosmos/CosmosTokenRateLimiter.java:405-440 | in every run the level is within the bucket and every charge is the cost of a stored token that is gone, never the same one twice |
| RateLimiter.GcWithinPermits | src/main/java/org/signal/cdsi/limits/cosmos/CosmosTokenRateLimiter.java:299-402 | a committed collection deletes at most what calculateGcPermits gives for the very bucket it replaces at the time its prepare began, never the predecessor, and leaves the level alone |
| RateLimiter.GctsNeverBack | src/main/java/org/signal/cdsi/limits/cosmos/CosmosTokenRateLimiter.java:260-275 | no step moves the collection timestamp back |
| RateLimiter.RenewedFollowsIff | src/main/java/org/signal/cdsi/limits/cosmos/CosmosTokenRateLimiter.java:134-153 | a charge to a bucket that took the place of a dropped one is covered from the drop on exactly if it, or the creation it counts from, is not stamped before the drop |
| RateLimiter.RateHolds | src/main/java/org/signal/cdsi/limits/cosmos/CosmosTokenRateLimiter.java:134-167 | all that is charged from one ledger entry to a later one is at most bucketSize plus the leak between their stamps, also across drops and new buckets when the time to live drains a full bucket and no charge is late |
| BucketLevels.LevelIsPeak | src/main/java/org/signal/cdsi/limits/cosmos/CosmosTokenRateLimiter.java:134-167 | in every run the level after an entry is the largest of what was charged from some entry on less what leaked from there; never more, and exactly that if buckets are dropped only after they have drained |
| BucketLevels.RefusedIff | src/main/java/org/signal/cdsi/limits/cosmos/CosmosTokenRateLimiter.java:134-167 | in every run a charge is refused only if, from some entry on, charges less leak leave no room for it, and always then under that condition |
| BucketLevels.PrepareIff | src/main/java/org/signal/cdsi/limits/cosmos/CosmosTokenRateLimiter.java:176-240 | in every run a prepare call stores its token exactly if the bucket it read would take the cost at that moment |
| TokenCosts.CostStep | src/main/java/org/signal/cdsi/limits/cosmos/CosmosTokenRateLimiter.java:219-231 | a prepare call goes on with the amount asked for plus the cost of an unspent predecessor, and ends without a token only if that is nothing or over the size; never for nothing while the predecessor is unspent |
| TokenCosts.CostIsDue | src/main/java/org/signal/cdsi/limits/cosmos/CosmosTokenRateLimiter.java:464-480 | in every run the cost of every token is what was due when it was worked out, which happens once |
| TokenCosts.ChainCost | src/main/java/org/signal/cdsi/limits/cosmos/CosmosTokenRateLimiter.java:464-480 | in every run the last token of a chain of unspent predecessors costs all that was asked for along it |
| SparePermits.TimestampPays | src/main/java/org/signal/cdsi/limits/cosmos/CosmosTokenRateLimiter.java:260-275 | in every run what is charged and collected moves the timestamp of its bucket by the time it is worth at the scalar a second |
| SparePermits.CollectedWithinTime | src/main/java/org/signal/cdsi/limits/cosmos/CosmosTokenRateLimiter.java:335-391 | in every run all that was charged and collected up to a collection is worth no more than the scalar a second since any earlier timestamp of the bucket |
| SparePermits.UsedUpIff | src/main/java/org/signal/cdsi/limits/cosmos/CosmosTokenRateLimiter.java:254-275 | a bucket whose permits are all used has none left if and only if less than a leak interval is left over |
| LateCharge.LateExceeds | src/main/java/org/signal/cdsi/limits/cosmos/CosmosTokenRateLimiter.java:134-210 | there is a run with a late charge that exceeds that bound: two full charges one second apart, on either side of a drop |
| Directory.ProcessRecord | filter-cds-updates/src/main/java/org/signal/lambda/FilterCdsUpdatesHandler.java:80-116 | puts on the stream exactly the updates that carry a number and a PNI, in order; when a put fails, those before it and perhaps that one |
| Directory.FilterExact | filter-cds-updates/src/main/java/org/signal/lambda/FilterCdsUpdatesHandler.java:97-116 | loading what a change emits turns the directory of the old table into that of the new one |
| Directory.NeverTwice | filter-cds-updates/src/main/java/org/signal/lambda/FilterCdsUpdatesHandler.java:97-116 | after every single update of a change no account is listed under two numbers |
| Directory.MirrorOf | src/main/java/org/signal/cdsi/account/aws/DynamoDbAccountPopulator.java:252-280 | every valid table has a directory: its discoverable accounts by number, each with its ACI, PNI and access key, and nothing else |
| Directory.LoadSnapshot | src/main/java/org/signal/cdsi/account/aws/DynamoDbAccountPopulator.java:225-280 | in whatever order the scan delivers, every number seen gets the ACI, PNI and access key of an account seen with it, and no other number gets an entry |
| Directory.StreamMirrors | filter-cds-updates/src/main/java/org/signal/lambda/FilterCdsUpdatesHandler.java:80-116 | loading the stream from the start leads through the directories of all tables |
| Directory.SnapshotRight | src/main/java/org/signal/cdsi/account/aws/DynamoDbAccountPopulator.java:156-178 | a scan spread over many changes is right about every number that no record from its start on mentions, on every stream that brings all changes and mentions from there on what they touch |
| Directory.DeliverIff | src/main/java/org/signal/cdsi/account/aws/DynamoDbAccountPopulator.java:346-379 | a delivery brings every directory that is right up to some record to its own end, if and only if what it skips is mentioned again later |
| Directory.RedeliveryHarmless | src/main/java/org/signal/cdsi/account/aws/DynamoDbAccountPopulator.java:156-159 | delivering again from any earlier record changes nothing in the end |
| Relay.HandleRequest | filter-cds-updates/src/main/java/org/signal/lambda/FilterCdsUpdatesHandler.java:62-78 | whatever puts fail, the records reported are those not relayed in full, and the stream gets what the tries of all records sent |
| Relay.RelaySettles | filter-cds-updates/src/main/java/org/signal/lambda/FilterCdsUpdatesHandler.java:62-95 | however often records fail and later updates get ahead of earlier ones, once no record is left to try again the stream leads to the directory of the last table |
| Relay.ScanRight | src/main/java/org/signal/cdsi/account/aws/DynamoDbAccountPopulator.java:156-178 | on such a stream a scan is right about every number that the records from its start on do not mention |
| Replication.StepOrderly | src/main/java/org/signal/cdsi/account/aws/DynamoDbAccountPopulator.java:185-202 | when a new subscription ends the one before it and begins no later than what was delivered last, no delivery skips a record, whatever events, lapses and renewals come |
| Replication.PromptOrderly | src/main/java/org/signal/cdsi/account/aws/DynamoDbAccountPopulator.java:291-326 | although events may come between reading the continuation and taking over, a subscriber that makes one request at a time, after the live subscription has delivered something, begins no later than what was delivered last |
| Replication.SnapshotThenReplay | src/main/java/org/signal/cdsi/account/aws/DynamoDbAccountPopulator.java:142-202 | in every run of filter, subscriber and stream the directory is right up to the recorded continuation, and holds exactly the discoverable accounts, each with its ACI, PNI and access key, whenever all is delivered, so right after an event zero milliseconds behind |
| Replication.FinishedIff | src/main/java/org/signal/cdsi/account/aws/DynamoDbAccountPopulator.java:380-388 | the populator reports that it is synchronised exactly from the first event on that is zero milliseconds behind |
| Replication.PromptReplay | src/main/java/org/signal/cdsi/account/aws/DynamoDbAccountPopulator.java:142-326 | the same end for every such subscriber, with no condition on where its subscriptions begin |
| Replication.OverlapGoesWrong | src/main/java/org/signal/cdsi/account/aws/DynamoDbAccountPopulator.java:196-202 | there is a run with two live subscriptions that ends synchronised, zero milliseconds behind, with an entry out of date |
| Replication.StaleRequestGoesWrong | src/main/java/org/signal/cdsi/account/aws/DynamoDbAccountPopulator.java:291-326 | there is a run with one live subscription at a time that ends so as well, a request having been made before the new subscription delivered anything |
| Replication.Populator.HandleEvent | src/main/java/org/signal/cdsi/account/aws/DynamoDbAccountPopulator.java:346-389 | loads the readable records in order, drops the others, and records continuation and completion |
| Replication.Populator.StartingPoint | src/main/java/org/signal/cdsi/account/aws/DynamoDbAccountPopulator.java:291-309 | the position asked for is where the follower of the stream has to resume |
| Replication.Perform | src/main/java/org/signal/cdsi/account/aws/DynamoDbAccountPopulator.java:291-389 | each act of stream and populator is one step of the follower |
| Replication.Follow | src/main/java/org/signal/cdsi/account/aws/DynamoDbAccountPopulator.java:142-389 | the populator run through any acts from the loaded snapshot has the discoverable accounts, each with its ACI, PNI and access key, whenever all is delivered |
| Noise.PacketsLength | c/noiseutil/noise.h:9-11 | the ciphertext is the plaintext plus 16 bytes per started packet of 65519 |
| Noise.PacketAt | c/noiseutil/noise.c:24-52 | packet i is the i-th piece of 65519 bytes sealed under the i-th message number |
| Noise.UnpackIff | c/noiseutil/noise.c:64-87 | a ciphertext unpacks if and only if each of its packets of 65535 bytes opens under its message number |
| Noise.UnpackAt | c/noiseutil/noise.c:64-87 | what comes out are the opened packets in order |
| Noise.RoundTrip | c/noiseutil/noise.c:24-87 | decryption with a synchronised state returns the plaintext of any length |
| Noise.EncryptMessage | c/noiseutil/noise.c:24-52 | succeeds exactly if the buffer is large enough and then holds the packets |
| Noise.DecryptMessage | c/noiseutil/noise.c:54-87 | every memmove stays in the output buffer if and only if the buffer holds the packets looked at, each behind the plaintext so far, and always in place; then the outcome is that of the original ciphertext, nothing unread being overwritten |
| Triples.LoadPairs | c/aci_pni_uak_helpers/aci_pni_uak_helpers.c:12-20 | the index then holds exactly the client's pairs besides what it held, or the error of an index that cannot grow |
| Triples.GotMaskMeans | c/aci_pni_uak_helpers/aci_pni_uak_helpers.c:36-40 | the mask is all ones exactly for a record that is present and has an ACI |
| Triples.MakeTriple | c/aci_pni_uak_helpers/aci_pni_uak_helpers.c:32-60 | the masked words are the plain answer for the record |
| Triples.CreateTriples | c/aci_pni_uak_helpers/aci_pni_uak_helpers.c:24-63 | every record gets its plain answer |
| Triples.Respond | c/aci_pni_uak_helpers/aci_pni_uak_helpers.c:12-63 | from any pair list and any records: nothing for missing or deleted ones, else number and PNI, and the ACI exactly if the access key is non-zero and the pair is in the list; an error only for more pairs than half the largest index |

## Left out

- Path ORAM, oblivious sort and compact, table accessors and batch preparation: only declared in the C code, implemented elsewhere.
- Tables, shards and statistics set-up: allocation around that code.
- Rate-limit token hashing: SHA-256 is not part of this model.
- pbtools packed and repeated fields, sub-messages, strings, floats, zig-zag and generated per-message code: the decoder loop of `Decoder.Decode` stands for the generated ones.
- Timing and obliviousness.
- Memory ordering below atomic steps, `shard_destroy` and `queue_destroy` racing with callers.
- What handling a request does to the table, and its per-request error: the table operations are among the code implemented elsewhere.
- Attestation, the Noise handshake, the JNI shim, HTTP and WebSocket handling, Redis, metrics and health.
- Shard, ClientHandles and EnclaveCalls: modelled on values as transition systems, since their steps belong to different threads; fields updated in place appear as components of the state.
- FixedSet.FixedSet.Upsert: keys are opaque values, so the byte-wise comparison and swapping through `tmpk` are not modelled; nor are the operations on a table whose positions wrap, beyond `FixedSet.LostMember`.
- ClientHandles.ClientSafety: words at unaligned addresses that overlap a client's word are covered by the assumption about the secret, not modelled byte by byte.
- EnclaveCalls.GivenBackIff: says nothing about stack buffers, nor about what the stages compute between taking and freeing.
- The number `validate` returns to its caller when its batch fails, and record versions written before the collection timestamp existed.
- Replication.Populator.HandleEvent: readable records are taken to carry a number and a PNI, as the filter guarantees.
