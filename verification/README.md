# Model of the bobliew runtime

bobliew is a C++ server framework built on fibers. This project models the parts of it whose correctness is hard to see
from the code and proves, for every input, every run or every reachable state, what they are for:

- **ByteArray** (`ByteArray.dfy`, `FlatMemory.dfy`): a chain of equal nodes on the heap with a cached cursor behaves like
  one flat byte sequence; zero-copy reading and writing refine plain reading and writing.
- **Encodings** (`Numbers.dfy`, `Codec.dfy`, `TypedBytes.dfy`, `WireNumbers.dfy`, `TypedStreams.dfy`): big-endian
  integers, base-128 varints and zigzag as bit-vectors and as numbers, F16 strings, and the Request and Notify frames; any list of typed writes is read back.
- **Timers** (`TimerSet.dfy`, `TimerMachine.dfy`, `TimerRuns.dfy`, `TimerWatch.dfy`, `TimerResults.dfy`,
  `TimerManager.dfy`): the ordered set with mutable keys, expiry, re-arming, cancellation and the tickled flag, as a machine, over runs, and as classes.
- **Event slots** (`IoEvents.dfy`, `IoManager.dfy`): registration, removal, cancellation and dispatch per descriptor.
- **Fiber runtime** (`Runtime.dfy`, `RuntimeTokens.dfy`, `RuntimeProofs.dfy`, `RuntimeRuns.dfy`, `Scheduler.dfy`): workers,
  run queue, fiber states, event slots and semaphores as one transition system, and the scheduler's own methods; the
  accounts of each event slot (`SlotLedger.dfy`), the threads work asked for (`RuntimePins.dfy`), the yield as two
  steps (`SplitYield.dfy`) and runs into failing assertions (`RuntimeWitness.dfy`).
- **Blocking calls** (`DoIo.dfy`, `DoIoProofs.dfy`, `DoIoRuns.dfy`, `DoIoPlaces.dfy`, `DoIoUntimed.dfy`): try, arm a
  timeout, register, yield, wake, retry; and exactly when a timeout is lost (`DoIoTimeouts.dfy`, `DoIoRelease.dfy`, `DoIoWitness.dfy`).
- **FiberSemaphore and WorkerGroup** (`Semaphore.dfy`, `WorkerGroup.dfy`).
- **URL escaping and query parsing** (`Url.dfy`, `Query.dfy`).

Locks make the bodies they guard atomic steps. Registering as a waiter and yielding are separate steps; a yield and the
worker's bookkeeping after `swapIn` are one step, and so are taking expired timers and queueing their callbacks, and each
timer callback. The kernel's answer to `epoll_ctl`, the clock, addresses of new objects and what `epoll_wait` reports are
parameters. Numbers that wrap in the source wrap in the model.

## What turned out false of the code

Each has a lemma with the exact condition; the ones about interleavings and timers also have a concrete run.

- The positional `read` starts in the cursor node, whatever position it is given (`ReadAtStartExact`); `toString` uses it
  where that is right. The positional `getReadBuffers` is cut by the current position, not by its argument
  (`ReadBuffersAtExact`).
- `writeStringF16` keeps 16 bits of the length (`TextExact`), and `readStringF32` reads a 16-bit length
  (`TextF32Mismatch`).
- Two timers whose deadlines wrap to zero are equivalent for the comparator: the second is not stored, and cancelling it
  removes the first (`ZeroDeadlinesCollide`; exact conditions in `StepExact`). A deadline that wraps can also become earlier
  without a notification (`RefreshExact`, `ExpireExact`, `WrapBreaksPromise`).
- `idle` does not mask reported events with the registered ones, so a report that is stale in part fails the assertion in
  `triggerEvent` (`ReportExact`, `StaleReportHappens`).
- A callback fiber that calls `YieldToReady` stays with its worker and fails the assertion of `reset` on the next callback
  (`YieldReadyExact`, `YieldReadyHappens`).
- `YieldToHold` sets HOLD before the context is left, and a second worker that swaps the fiber in before the first has left
  runs it a second time (`DoubleExecutionExact`, `DoubleExecutionHappens`).
- In `do_io` a timeout is lost when a timeout callback of the call runs while the caller is not registered, be it between
  arming the timer and registering, or, left over from an earlier round, while the caller tries again; and when the kernel
  refuses to cancel. The caller then waits in its slot and none of its timers can release it (`TimeoutLostCause`,
  `LostBeforeRegistering`, `LostBetweenRounds`, `LostByRefusal`).
- A callback that throws keeps its permit of the `WorkerGroup`, and `waitAll` can return exactly when none has
  (`WaitAllReturnsExact`, `ThrowHappens`). A second `waitAll` returns at once (`WaitForAll`).

## Model

| member | source | states |
|---|---|---|
| `ByteArrays.ByteArray.constructor` | bobliew/bytearray.cc:33-41 | a new buffer is a valid chain of one node with position and size 0 |
| `ByteArrays.ByteArray.Clear` | bobliew/bytearray.cc:311-322 | position and size 0, capacity one node; the invariant holds and the first node keeps its bytes |
| `ByteArrays.ByteArray.AddCapacity` | bobliew/bytearray.cc:479-506 | capacity grows by the least number of nodes that makes room for n bytes after the position, the flat memory is extended and no byte of it changes; the cursor is set when it was past the end |
| `ByteArrays.ByteArray.Write` | bobliew/bytearray.cc:323-362 | on the concatenation of all nodes, write acts as overwriting (and extending) one flat byte sequence at the position; position, size, cursor and capacity are right and bytes outside the range keep their value |
| `ByteArrays.ByteArray.Read` | bobliew/bytearray.cc:364-390 | returns exactly the next n bytes of the flat data and moves by n, or throws and changes nothing, the first exactly when n bytes are left |
| `ByteArrays.ByteArray.SetPosition` | bobliew/bytearray.cc:422-438 | accepts exactly positions up to the capacity, grows the size to the position and re-seats the cursor on the node of the position |
| `ByteArrays.ByteArray.ReadAt` | bobliew/bytearray.cc:392-420 | what the positional read returns: the bytes from the cursor node at offset position modulo node size, or an error exactly when n exceeds the size_t difference of size and position, which wraps past the size |
| `ByteArrays.ByteArray.ReadAtStartExact` | bobliew/bytearray.cc:397-400 | that starting address is the one asked for exactly when it lies in the cursor node |
| `ByteArrays.ByteArray.ToString` | bobliew/bytearray.cc:609-617 | returns all bytes from position to size: the one use for which the positional read is right |
| `ByteArrays.ByteArray.GetReadBuffers` | bobliew/bytearray.cc:508-536 | the pieces are consecutive from the position, their total is len cut to what is left, and their concatenation is what read would return |
| `ByteArrays.ByteArray.GetReadBuffersAt` | bobliew/bytearray.cc:537-573 | pieces consecutive from the given position, cut by what is left after the current one |
| `ByteArrays.ByteArray.ReadBuffersAtExact` | bobliew/bytearray.cc:538-540 | the overload yields all readable bytes from the given position up to len exactly when that is the current position or len is at most what is left after either; it stays inside the written data when it is not after the current one |
| `ByteArrays.ByteArray.GetWriteBuffers` | bobliew/bytearray.cc:575-603 | room for len bytes as consecutive pieces from the position; the data does not change |
| `ByteArrays.ByteArray.GatherCovers` | bobliew/bytearray.cc:508-536 | the bytes of consecutive pieces are a slice of the flat memory |
| `ByteArrays.ByteArray.Scatter` | bobliew/bytearray.cc:575-603 | filling consecutive pieces in order is storing the bytes in the flat memory |
| `ByteArrays.ByteArray.ReceiveInto` | bobliew/streams/socket_stream.cc:28-39 | zero-copy writing refines plain writing: getWriteBuffers, filling n of the len bytes through the pieces and setPosition leave contents, size and position as write of those n bytes does |
| `FlatMemory.FlatPut` | bobliew/bytearray.cc:334-361 | storing inside one node stores in the flat memory at index times node size plus offset, and nowhere else |
| `FlatMemory.FlatSlice` | bobliew/bytearray.cc:371-389 | reading inside one node reads that slice of the flat memory |
| `Codec.Fixed16Inverse` | bobliew/bytearray.cc:62-74 | reading a written 16-bit value gives it back |
| `Codec.Fixed32Inverse` | bobliew/bytearray.cc:75-89 | the same for 32 bits |
| `Codec.Fixed64Inverse` | bobliew/bytearray.cc:90-104 | the same for 64 bits |
| `Codec.FixedIsBigEndian` | bobliew/endian.h:28-66 | the swap and the host's little-endian store together put the most significant byte first, at all three widths: the bytes joined from the first on are the value |
| `Codec.Zigzag32Bijective` | bobliew/bytearray.cc:107-128 | zigzag at 32 bits with wrapping arithmetic and its shift/xor decoder are inverse to each other, both ways |
| `Codec.Zigzag64Bijective` | bobliew/bytearray.cc:116-128 | the same at 64 bits |
| `Codec.VarintInverse` | bobliew/bytearray.cc:233-263 | the reader, from any group on, rebuilds the value from its varint wherever it stands and consumes exactly those bytes |
| `Codec.VarintPrefixFree` | bobliew/bytearray.cc:133-157 | no varint is a prefix of another one |
| `Codec.VarintLength` | bobliew/bytearray.cc:133-157 | a varint has at most k bytes exactly when the value fits in k groups of seven bits |
| `Codec.VarintBounds` | bobliew/bytearray.cc:133-157 | at most 5 bytes for 32-bit values and 10 for 64-bit ones |
| `Codec.VarintMinimal` | bobliew/bytearray.cc:133-157 | no byte string that the reader maps to a value is shorter than the written varint |
| `WireNumbers.Zigzag32Number` | bobliew/bytearray.cc:107-115 | the code of a signed 32-bit number n is 2n for n >= 0 and -2n - 1 for n < 0, as numbers |
| `WireNumbers.Zigzag64Number` | bobliew/bytearray.cc:116-122 | the same at 64 bits |
| `WireNumbers.UnzigzagNumber` | bobliew/bytearray.cc:123-128 | the decoders give back the signed number of each code, at both widths |
| `WireNumbers.VarintDigits` | bobliew/bytearray.cc:133-157 | a varint consists of the base-128 digits of its number, the lowest first, and exactly its last byte lacks the mark that more follow |
| `WireNumbers.VarintNumberLength` | bobliew/bytearray.cc:133-157 | a varint has at most k bytes exactly when its number is below 128^k |
| `WireNumbers.SignedLength` | bobliew/bytearray.cc:130-147 | a signed number n takes at most k bytes exactly when -2^(7k-1) <= n < 2^(7k-1), at both widths |
| `WireNumbers.ReadUint32Exact` | bobliew/bytearray.cc:233-247 | on any bytes the reader takes one varint of at most five bytes, its digits modulo 2^32, and throws exactly when the bytes run out in the middle of it |
| `WireNumbers.ReadUint64Exact` | bobliew/bytearray.cc:252-264 | on any bytes the reader takes one varint of at most ten bytes, up to nine of which are its digits, and throws exactly when they run out |
| `WireNumbers.ItemDigits` | bobliew/bytearray.cc:130-157 | what the four varint writers put on the wire, as numbers |
| `WireNumbers.TextOnWire` | bobliew/bytearray.cc:170-173 | a text travels after its length modulo 65536, as two bytes with the higher one first |
| `WireNumbers.FixedOnWire` | bobliew/protocol.cc:18-68 | fixed-width values travel big-endian, a Request as 1, sn, cmd and a Notify as 3 and its value |
| `TypedBytes.Var32Inverse` | bobliew/bytearray.cc:233-247 | readUint32 undoes writeUint32 for every value, consuming exactly its bytes |
| `TypedBytes.Var64Inverse` | bobliew/bytearray.cc:252-264 | the same for 64 bits |
| `TypedBytes.TextInverse` | bobliew/bytearray.cc:170-173 | what readStringF16 makes of a written text: its first length-modulo-65536 bytes |
| `TypedBytes.TextExact` | bobliew/bytearray.cc:280-286 | a text survives the F16 pair exactly when it is shorter than 65536 bytes |
| `TypedBytes.TextF32Mismatch` | bobliew/bytearray.cc:287-294 | readStringF32 reads a 16-bit length: it never ends where writeStringF32 did and returns the text exactly when that is empty |
| `TypedBytes.RequestInverse` | bobliew/protocol.cc:18-29 | a Request frame is parsed back to the same sn and cmd |
| `TypedBytes.NotifyInverse` | bobliew/protocol.cc:59-68 | a Notify frame is parsed back to the same value |
| `TypedBytes.ItemInverse` | bobliew/bytearray.cc:190-286 | every typed value is read back from its own encoding, consuming exactly its bytes |
| `TypedBytes.AllInverse` | bobliew/bytearray.cc:56-286 | any finite list of typed values is read back from the concatenation of the encodings |
| `TypedStreams.VarintBytes32` | bobliew/bytearray.cc:133-143 | the loop produces the varint and never overruns its five-byte buffer |
| `TypedStreams.VarintBytes64` | bobliew/bytearray.cc:148-157 | the loop produces the varint and never overruns its ten-byte buffer |
| `TypedStreams.WriteUint32` | bobliew/bytearray.cc:133-143 | the flat data is overwritten at the position by the varint |
| `TypedStreams.WriteUint64` | bobliew/bytearray.cc:148-157 | the same for 64 bits |
| `TypedStreams.WriteStringF16` | bobliew/bytearray.cc:170-173 | the flat data is overwritten by the 16-bit length and the text |
| `TypedStreams.SerializeRequest` | bobliew/protocol.cc:18-23 | the flat data is overwritten by the Request frame |
| `TypedStreams.SerializeNotify` | bobliew/protocol.cc:59-63 | the flat data is overwritten by the Notify frame |
| `TypedStreams.WriteAll` | bobliew/bytearray.cc:56-173 | any list of typed writes overwrites the flat data by the concatenated encodings |
| `TypedStreams.ReadUint32` | bobliew/bytearray.cc:233-247 | the bitwise loop at 32 bits returns what the specification decodes at the position, or throws having consumed the rest |
| `TypedStreams.ReadUint64` | bobliew/bytearray.cc:252-264 | the same for 64 bits |
| `TypedStreams.ReadStringF16` | bobliew/bytearray.cc:280-286 | returns what the specification decodes, or throws |
| `TypedStreams.ParseRequest` | bobliew/protocol.cc:25-29 | returns sn and cmd as the specification decodes them, or throws |
| `TypedStreams.ReadItem` | bobliew/bytearray.cc:190-286 | each typed reader returns what the specification decodes at the position and stops right after it |
| `TypedStreams.RoundTrip` | bobliew/bytearray.cc:56-286 | writing any list of values, going back and reading with the mirrored readers returns the same values and stops where the writers stopped; into an empty buffer that is position = size |
| `Url.DecodeEncode` | bobliew/util.cc:423-483 | decoding undoes encoding for every byte string and both flags |
| `Url.PlusOnlyEncoded` | bobliew/util.cc:423-483 | with the flag set for the encoder only, the text survives exactly when it has no space |
| `Url.EncodeAlphabet` | bobliew/util.cc:377-452 | encoded output consists of table characters, %XX with upper-case digits and, with the flag, + |
| `Url.EncodedHasNo` | bobliew/util.cc:377-452 | no other character, such as &, occurs in encoded output |
| `Url.UnreservedTable` | bobliew/util.cc:377-398 | the indices at which uri_chars holds a one |
| `Url.EncodeExact` | bobliew/util.cc:423-452 | what one byte is encoded to, digit by digit |
| `Url.EncodeIdentity` | bobliew/util.cc:423-452 | encoding changes nothing exactly when every byte is unreserved |
| `Url.DecodeExact` | bobliew/util.cc:454-483 | what the decoder makes of the first byte: an escape with hexadecimal digits in either case is the byte with that number, a percent sign without them stays, a plus is a space when asked for |
| `Url.UrlEncode` | bobliew/util.cc:423-452 | the loop with its lazily created copy equals the per-byte map |
| `Url.UrlDecode` | bobliew/util.cc:454-483 | the loop with its lazily created copy equals the recursive decoder |
| `Query.LessTotal` | bobliew/http/http.cc:54-56 | the comparator is asymmetric, and neither of two keys is less exactly when they agree up to case and the first NUL |
| `Query.LessTransitive` | bobliew/http/http.cc:54-56 | the comparator is transitive |
| `Query.FoldIsLower` | bobliew/http/http.cc:54-56 | for keys without NUL the comparison sees the whole key in lower case |
| `Query.KeysAlike` | bobliew/http/http.cc:54-56 | two keys are the same for the map exactly when up to the first NUL they have one length and letter by letter are equal or the two cases of one ASCII letter |
| `Query.LessExact` | bobliew/http/http.cc:54-56 | one key comes before another exactly when at the first letter that differs, case aside, it ends or has the smaller one |
| `Query.InsertAllFirst` | bobliew/http/http.cc:219-220 | repeated map insert binds each key to its earlier or else its first value and nothing else |
| `Query.Find` | bobliew/http/http.cc:213-218 | find returns the first match at or after the start |
| `Query.ParseParam` | bobliew/http/http.cc:209-226 | the scanning loop, with its decreasing measure, inserts exactly the pairs the specification splits off |
| `Query.HttpRequest.InitQueryParam` | bobliew/http/http.cc:205-229 | the query is parsed once, however often it is asked for |
| `Query.PairsOfJoin` | bobliew/http/http.cc:209-226 | the &-join of key=UrlEncode(value) fields is split back into its pairs, whatever precedes it |
| `Query.PairsExact` | bobliew/http/http.cc:209-226 | what the loop takes from an arbitrary query: nothing when no = is left, else the key up to the first = and the decoded text up to the next & or the end, and then the rest |
| `Query.JoinedQuery` | bobliew/http/http.cc:205-229 | after parsing such a join a look-up finds the first pair whose key is the same case aside, and nothing when there is none |
| `TimerSet.LessIsOrder` | bobliew/timer.cc:10-28 | the comparator is a strict weak order; different timers are equivalent exactly when both deadlines are zero |
| `TimerSet.FindHits` | bobliew/timer.cc:163-174 | in a set sorted by current keys find never misses a member |
| `TimerSet.DuePrefix` | bobliew/timer.cc:132-136 | lower_bound of a probe with any address followed by the skip of equal deadlines separates due from not due |
| `TimerMachine.InsertOrdered` | bobliew/timer.cc:61-65 | insertion keeps the order and adds the timer, unless it would be a second zero deadline |
| `TimerMachine.EraseOrdered` | bobliew/timer.cc:163-174 | erase(find(t)) removes t and nothing else |
| `TimerMachine.AddKeeps` | bobliew/timer.cc:51-76 | addTimer keeps "ordered by current keys, live exactly when in the set" exactly when it does not add a second zero deadline |
| `TimerMachine.CancelKeeps` | bobliew/timer.cc:163-174 | cancel succeeds exactly on live timers, kills and removes that one and keeps the invariant |
| `TimerMachine.ReinsertKeeps` | bobliew/timer.cc:201-218 | moving a timer keeps the invariant exactly when the new deadline is not a second zero, and changes no other timer |
| `TimerMachine.RefreshKeeps` | bobliew/timer.cc:201-218 | refresh succeeds exactly on live timers, and keeps the invariant exactly when it does not make a second zero deadline |
| `TimerMachine.ResetKeeps` | bobliew/timer.cc:176-199 | the same for reset, with its early return |
| `TimerMachine.ExpireLists` | bobliew/timer.cc:108-145 | listExpireCb lists exactly the timers due, in comparator order (all of them on rollover): the lower_bound form equals a plain filter |
| `TimerMachine.RearmExact` | bobliew/timer.cc:139-149 | the re-arming loop keeps the invariant exactly when no two deadlines collide at zero; then each recurring timer is back at now + period and each one-shot is dead |
| `TimerMachine.ExpireKeeps` | bobliew/timer.cc:108-150 | listExpireCb keeps the invariant exactly when at most one listed timer is re-armed at zero; unlisted timers do not change |
| `TimerRuns.StepExact` | bobliew/timer.cc:51-218 | any operation keeps the invariant exactly when it does not make a second zero deadline |
| `TimerRuns.RunKeeps` | bobliew/timer.cc:51-218 | over every run the set stays ordered by current keys and live means in the set |
| `TimerRuns.DeadStaysDead` | bobliew/timer.cc:108-174 | a timer without callback is never listed in any continuation |
| `TimerRuns.CancelledNeverListed` | bobliew/timer.cc:163-174 | a successfully cancelled timer is never listed again |
| `TimerRuns.ZeroDeadlinesCollide` | bobliew/timer.cc:10-28 | a concrete pair of timers whose deadlines wrap to zero: the second is not stored, and cancelling it removes the first |
| `TimerWatch.RefreshWatched` | bobliew/timer.cc:201-218 | refresh may skip the notification: it never moves the minimum earlier |
| `TimerWatch.ExpireWatched` | bobliew/timer.cc:137-149 | recurring re-arm may skip the notification for the same reason |
| `TimerWatch.WatchKeeps` | bobliew/timer.cc:61-218 | under a non-decreasing clock every operation keeps: while not tickled, the earliest deadline is no earlier than at the last getNextTimer |
| `TimerWatch.RefreshExact` | bobliew/timer.cc:201-218 | for any clock: refresh keeps that exactly when tickled is set or the new deadline is not before the one reported |
| `TimerWatch.ExpireExact` | bobliew/timer.cc:137-149 | the same for re-arming in listExpireCb |
| `TimerWatch.WrapBreaksPromise` | bobliew/timer.cc:201-218 | a concrete timer whose refresh wraps: it becomes due early and nobody is notified |
| `TimerWatch.NoStaleSleeper` | bobliew/timer.cc:61-106 | in every run, if some timer is due before what the last getNextTimer reported, the notification has been sent since |
| `TimerManagers.TimerManager.AddTimer` | bobliew/timer.cc:51-76 | the object's new state and the notification are those of the machine |
| `TimerManagers.TimerManager.GetNextTimer` | bobliew/timer.cc:93-106 | result and new state are those of the machine |
| `TimerManagers.TimerManager.ListExpireCb` | bobliew/timer.cc:108-150 | the loops list the machine's callbacks in order and leave the machine's state |
| `TimerMachine.RolloverExact` | bobliew/timer.cc:152-161 | rollover is reported exactly when the clock went back and either by more than an hour or while the last time was within the first hour, where the unsigned difference wraps |
| `TimerResults.LessMeaning` | bobliew/timer.cc:10-28 | the comparator orders by deadline and then by address; zero deadlines are alike |
| `TimerResults.AddResult` | bobliew/timer.cc:30-76 | addTimer stores the deadline (now + ms) mod 2^64, the period, the recurring flag and the callback it was given, changes no other record, puts the timer into the set unless a second zero, and notifies exactly when it is first and nothing was pending |
| `TimerResults.ResetResult` | bobliew/timer.cc:176-199 | the record, the set and the notification after reset, in each of its three cases |
| `TimerResults.RefreshResult` | bobliew/timer.cc:201-218 | refresh changes the deadline of one live timer and nothing else |
| `TimerResults.CancelResult` | bobliew/timer.cc:163-174 | cancel clears the callback of one live timer, takes it out and changes nothing else |
| `TimerResults.NextResult` | bobliew/timer.cc:93-106 | getNextTimer returns nothing for an empty set, zero exactly when some timer is due, and else the time left to the earliest deadline of all |
| `TimerResults.RecurringServed` | bobliew/timer.cc:108-149 | over every run without a cancel of it, a live recurring timer stays live with its callback and every expiry at or after its deadline lists it |
| `TimerResults.AddedIsServed` | bobliew/timer.cc:51-149 | the same for one just added as recurring |
| `TimerManagers.TimerManager.Cancel` | bobliew/timer.cc:163-174 | new state and result are those of the machine |
| `TimerManagers.TimerManager.Reset` | bobliew/timer.cc:176-199 | new state, result and notification are those of the machine |
| `TimerManagers.TimerManager.Refresh` | bobliew/timer.cc:201-218 | new state and result are those of the machine |
| `IoEvents.AddEventKeeps` | bobliew/iomanager.cc:69-136 | fills exactly the slot asked for, keeps the invariant (bit set exactly when the slot has a scheduler and one of fiber and callback, interest mask equals events, pending count equals set bits) and fails only when the kernel does |
| `IoEvents.DelEventKeeps` | bobliew/iomanager.cc:139-178 | empties exactly that slot when its bit was set, and keeps the invariant |
| `IoEvents.CancelEventKeeps` | bobliew/iomanager.cc:181-218 | hands out exactly the waiter of that slot and empties it |
| `IoEvents.CancelAllKeeps` | bobliew/iomanager.cc:220-257 | hands out both waiters of the descriptor and leaves no bit, which is the assertion at its end |
| `IoEvents.DispatchKeeps` | bobliew/iomanager.cc:376-413 | a report hands out exactly the registered waiters it names, each once |
| `IoEvents.RoundIsDispatch` | bobliew/iomanager.cc:376-413 | the round as written, with its assertions, does what the specification says when the report is safe and fails otherwise |
| `IoEvents.ReportExact` | bobliew/iomanager.cc:382-413 | the assertion in triggerEvent fails exactly when epoll_ctl succeeds, the report names something registered (an error report does as soon as anything is) and also something that is not |
| `IoEvents.StaleReport` | bobliew/iomanager.cc:382-413 | a report that gets through meets the failing assertion when one of its two events is cancelled before it is dispatched |
| `IoManagers.FdContext.TriggerEvent` | bobliew/iomanager.cc:460-479 | clears the bit and the slot and hands out its owner |
| `IoManagers.DispatchAllKeeps` | bobliew/iomanager.cc:364-414 | over a whole batch of reports: who is handed out was waiting, who waited and is not handed out still waits, and the pending count falls by the number handed out |
| `IoManagers.IOManager.constructor` | bobliew/iomanager.cc:15-52 | 32 empty contexts and the invariant |
| `IoManagers.IOManager.ContextResize` | bobliew/iomanager.cc:441-452 | adds fresh contexts and changes no other |
| `IoManagers.IOManager.AddEvent` | bobliew/iomanager.cc:69-136 | the objects end in the state of the specification and the invariant holds |
| `IoManagers.IOManager.DelEvent` | bobliew/iomanager.cc:139-178 | the same for removal; a descriptor above the number of contexts fails and changes nothing |
| `IoManagers.IOManager.CancelEvent` | bobliew/iomanager.cc:181-218 | the same, and the waiter is appended to the run queue; a descriptor above the number of contexts fails and changes nothing |
| `IoManagers.IOManager.CancelAll` | bobliew/iomanager.cc:220-257 | the same for both waiters, and no bit is left; a descriptor above the number of contexts fails and changes nothing |
| `IoManagers.IOManager.DispatchReports` | bobliew/iomanager.cc:364-414 | the dispatch loop does to the objects and the run queue what the reports one after the other specify |
| `Semaphores.FiberSemaphore.WaitHere` | bobliew/mutex.cc:58-69 | takes a permit or appends the fiber to the waiters |
| `Semaphores.FiberSemaphore.TryWaitHere` | bobliew/mutex.cc:46-56 | takes a permit if there is one |
| `Semaphores.FiberSemaphore.NotifyOne` | bobliew/mutex.cc:71-81 | hands the permit to the first waiter or stores it |
| `Semaphores.StepKeeps` | bobliew/mutex.cc:46-81 | a positive count means no waiters, initial permits plus notifies equal count plus grants, and served followed by waiting is the arrival order |
| `Semaphores.RunKeeps` | bobliew/mutex.cc:46-81 | the same over every run; while somebody waits no newcomer gets a permit by wait or tryWait |
| `Semaphores.EveryRun` | bobliew/mutex.cc:46-81 | the laws for every run from a new semaphore: grants are strictly in arrival order |
| `Semaphores.GrantsExact` | bobliew/mutex.cc:46-81 | in every run wait and tryWait succeed exactly when fewer permits were granted than there have been, and notify grants at once to the longest waiter if there is one |
| `WorkerGroups.StepKeeps` | bobliew/worker.cc:21-38 | every permit is in the semaphore, with a callback or collected by waitAll, and whoever asked before waitAll is ahead of it |
| `WorkerGroups.BoundedInFlight` | bobliew/worker.cc:21-38 | in every run at most m_batchSize callbacks are in flight |
| `WorkerGroups.WaitAllIsBarrier` | bobliew/worker.cc:26-33 | when the first waitAll returns, every callback that had a permit has finished and none threw; with a positive batch size, so has every callback scheduled before it |
| `WorkerGroups.EarlierJobsFinished` | bobliew/worker.cc:26-33 | stated over the run: whatever was scheduled before the step in which waitAll began has finished when it returns |
| `WorkerGroups.ThrownStays` | bobliew/worker.cc:35-38 | a callback that throws keeps its permit for ever |
| `WorkerGroups.CanCloseExact` | bobliew/worker.cc:26-38 | from any consistent state in which waitAll has begun, some continuation lets it return exactly when no callback has thrown |
| `WorkerGroups.WaitAllReturnsExact` | bobliew/worker.cc:26-38 | the same over every run of a group |
| `WorkerGroups.ThrowHappens` | bobliew/worker.cc:35-38 | a concrete run with one throwing callback after which waitAll never returns |
| `WorkerGroups.ClosedForever` | bobliew/worker.cc:21-33 | after waitAll returned, whoever schedules is parked for ever |
| `WorkerGroups.LoopIsRun` | bobliew/worker.cc:29-31 | the loop of waitAll up to where it parks is a run of single waits |
| `WorkerGroups.WorkerGroup.ScheduleJob` | bobliew/worker.cc:21-24 | the object takes the step of the machine |
| `WorkerGroups.WorkerGroup.WaitForAll` | bobliew/worker.cc:26-33 | returns at once when called a second time, else runs the loop until it parks or has all permits |
| `WorkerGroups.WorkerGroup.EndWork` | bobliew/worker.cc:35-38 | the end of doWork is the step of the machine, and says whom it woke |
| `WorkerGroups.WorkerGroup.WakeUp` | bobliew/worker.cc:29-31 | a parked waitAll that was woken counts its permit and goes on with the loop |
| `WorkerGroups.WorkerGroup.Loop` | bobliew/worker.cc:29-31 | the loop collects permits until it parks or has them all |
| `Schedulers.Scheduler.ScheduleNoLock` | bobliew/scheduler.h:84-93 | appends one entry, nothing for a null one, and reports whether the list was empty |
| `Schedulers.Scheduler.ScheduleBatch` | bobliew/scheduler.h:52-66 | appends the non-null pointers in order and leaves null in the caller's range |
| `Schedulers.BatchConserves` | bobliew/scheduler.h:96-127 | batch scheduling by swapping conserves work: what was pointed to is queued afterwards, as often as before |
| `Schedulers.Scheduler.PickTask` | bobliew/scheduler.cc:184-213 | takes the earliest entry eligible on this thread with the rest in order, or finds that none is; counts it as active; asks for a wake-up exactly when it passed an entry of another thread or left some behind |
| `Schedulers.Scheduler.Settle` | bobliew/scheduler.cc:222-264 | what follows swapIn is the machine's yield or finish step, for fibers and for callback fibers |
| `Schedulers.Scheduler.Stopping` | bobliew/scheduler.cc:142-146 | true exactly when a stop was asked for, the list is empty and no worker has a task: the counter agrees with the workers |
| `RuntimeProofs.PickKeeps` | bobliew/scheduler.cc:180-206 | picking an eligible entry keeps the invariant of the runtime |
| `RuntimeProofs.SwapInKeeps` | bobliew/scheduler.cc:219-222 | so does swapping in a picked fiber, whose assertion holds |
| `RuntimeProofs.StartCallbackKeeps` | bobliew/scheduler.cc:234-248 | so does starting a callback in the kept or a new fiber |
| `RuntimeProofs.YieldHoldKeeps` | bobliew/fiber.cc:192-197 | so does parking a fiber that registered, even if its waiter was released in between |
| `RuntimeProofs.YieldReadyKeeps` | bobliew/fiber.cc:186-191 | so does yielding to the queue, for fibers that were not started as callbacks |
| `RuntimeProofs.FinishKeeps` | bobliew/fiber.cc:203-222 | so does the end of a fiber's function |
| `RuntimeProofs.RegisterFiberKeeps` | bobliew/iomanager.cc:121-135 | so does registering the running fiber for an event |
| `RuntimeProofs.RegisterCallbackKeeps` | bobliew/iomanager.cc:121-135 | so does registering a callback |
| `RuntimeProofs.DropEventKeeps` | bobliew/iomanager.cc:139-178 | so does deleting a waiter |
| `RuntimeProofs.SemWaitKeeps` | bobliew/mutex.cc:58-69 | so does queueing in a semaphore |
| `RuntimeProofs.SemNotifyKeeps` | bobliew/mutex.cc:71-81 | so does handing a permit to a waiter |
| `RuntimeRuns.NextKeeps` | bobliew/scheduler.cc:180-281 | every step of workers, fibers, events and semaphores keeps the invariant |
| `RuntimeRuns.RunKeeps` | bobliew/scheduler.cc:180-281 | so does every run |
| `RuntimeRuns.NoDoubleExecution` | bobliew/scheduler.cc:184-230 | in every run no fiber is executed by two workers, also when its event or permit comes between registering and yielding; picked fibers are not executing and a kept callback fiber is in INIT when it is reused, as the code asserts |
| `RuntimeRuns.WorkConserved` | bobliew/scheduler.cc:180-281 | in every run each fiber and each callback is in exactly one of its places, pinned entries are with their thread, and the active count is the number of workers holding a task |
| `RuntimeRuns.NoTimeoutNoTimer` | bobliew/iomanager.cc:274-279 | getNextTimer returns ~0ull exactly when the timer set is empty, once the clock is past zero |
| `RuntimeRuns.StoppingIsQuiet` | bobliew/iomanager.cc:269-279 | in every run stopping is true only with an empty timer set, no set bit, no waiter in a slot, an empty queue, no busy worker and no executing fiber |
| `RuntimeRuns.StoppingExact` | bobliew/iomanager.cc:269-279 | in every run stopping is true exactly when a stop was asked for and there is no timer, no queued entry, no waiter in a slot and no busy worker |
| `RuntimePins.StepPinned` | bobliew/scheduler.cc:184-212 | work submitted for a thread stays with it through every step by which it does not yield or end, and no other worker picks it |
| `RuntimePins.PinnedStaysHome` | bobliew/scheduler.h:84-93 | over every run: until its first yield or end it is a queue entry for its thread, held by that worker or running on it |
| `RuntimePins.UnpinnedForAnyone` | bobliew/scheduler.cc:222-227 | work that asks for no thread and a fiber that yields to ready may be taken by every worker |
| `SlotLedger.SlotStep` | bobliew/iomanager.cc:69-257 | what a step does to a slot: a successful addEvent stores its waiter, a successful delEvent drops it, a successful cancelEvent, cancelAll or report makes it one new queue entry that waits nowhere else, and no other step changes the slot |
| `SlotLedger.EveryWaiterLeavesOnce` | bobliew/iomanager.cc:69-257 | over every run: successful registrations of a slot equal drops plus releases plus one if it is occupied |
| `RuntimeRuns.YieldReadyExact` | bobliew/scheduler.cc:251-252 | after YieldToReady the fiber kept by the worker passes the assertion of reset exactly when the yielding fiber was not started as a callback |
| `RuntimeWitness.YieldReadyHappens` | bobliew/scheduler.cc:234-252 | a run to a callback fiber whose YieldToReady makes the reset for the next callback fail |
| `RuntimeWitness.StaleReportHappens` | bobliew/iomanager.cc:382-413 | a run after which half a report goes stale and triggerEvent fails |
| `SplitYield.OtherSimulates` | bobliew/scheduler.cc:184-230 | with the yield split into setting HOLD and leaving, every other step is the same step of the system with atomic yields |
| `SplitYield.StepKeeps` | bobliew/scheduler.cc:222-262 | the invariant is kept by every step except swapping in a fiber between its two yield steps |
| `SplitYield.DoubleExecutionExact` | bobliew/fiber.cc:192-197 | over every run: two workers run one fiber exactly when one of them swapped it in between its two yield steps, for which it must have picked it in between |
| `SplitYield.WaitingIsSafe` | bobliew/fiber.cc:192-197 | while the waiter of the fiber is still in its slot or semaphore nobody can pick it or swap it in |
| `SplitYield.PickAloneIsHarmless` | bobliew/scheduler.cc:222-230 | if the first worker leaves before the second swaps in, picking in between does no harm |
| `SplitYield.DoubleExecutionHappens` | bobliew/fiber.cc:192-197 | a concrete run in which it happens |
| `DoIoProofs.BeginKeeps` | bobliew/hook.cc:94-118 | entering do_io keeps the invariant of the blocking-call protocol |
| `DoIoProofs.ArmKeeps` | bobliew/hook.cc:126-143 | so does arming the timeout timer |
| `DoIoProofs.RegisterKeeps` | bobliew/hook.cc:145-153 | so does addEvent, and on failure cancelling the timer and returning |
| `DoIoProofs.YieldKeeps` | bobliew/hook.cc:154-156 | so does yielding |
| `DoIoProofs.ResumeKeeps` | bobliew/hook.cc:160-169 | so does cancelling the timer on waking, with either outcome |
| `DoIoProofs.ExpireKeeps` | bobliew/iomanager.cc:354-359 | so does handing an expired timer's callback to the queue |
| `DoIoProofs.RunTimerKeeps` | bobliew/hook.cc:134-142 | so does running a timeout callback, whether its call is alive or not |
| `DoIoProofs.RuntimeKeeps` | bobliew/scheduler.cc:180-281 | so does every step of everybody else |
| `DoIoProofs.StepKeeps` | bobliew/hook.cc:94-173 | so does every step of callers, timers and the rest |
| `DoIoRuns.NeverTwoWorkers` | bobliew/hook.cc:94-173 | blocking calls and timeouts included, no fiber is run by two workers |
| `DoIoRuns.WokenExactlyOnce` | bobliew/hook.cc:145-156 | over every interleaving a caller has been woken exactly once per registration when its yield returns, and waits nowhere then |
| `DoIoRuns.ReturnsClean` | bobliew/hook.cc:145-171 | whichever way do_io returns, the caller is in no slot, queue or semaphore and none of its timers is armed |
| `DoIoRuns.MarkedBy` | bobliew/hook.cc:134-142 | only a timeout callback created for that call marks it as timed out |
| `DoIoRuns.TimeoutIsOwn` | bobliew/hook.cc:134-169 | in every run a call that reports the timeout had one of its own timers fire |
| `DoIoRuns.LeftoverTimerHarmless` | bobliew/timer.cc:78-91 | once a call is over, a timer left from it, however late it fires, cancels nothing, wakes nobody and marks no call |
| `DoIoRuns.ParkedIsGuarded` | bobliew/hook.cc:126-156 | a parked caller with a timeout that is not marked has its timer armed or the timer's callback on its way |
| `DoIoUntimed.StepUntimed` | bobliew/hook.cc:131-143 | every step keeps: a call without a timeout has no timer, no timeout callback of its own and no mark |
| `DoIoUntimed.UntimedHasNoTimer` | bobliew/hook.cc:131-143 | in every run such a call has no timer and no step runs a timer of its own |
| `DoIoUntimed.EndsBy` | bobliew/hook.cc:145-172 | a call ends by returning, by a refused registration, or by resuming when it is marked |
| `DoIoUntimed.UntimedEndsBy` | bobliew/hook.cc:145-172 | one without a timeout ends only by returning or a refused registration |
| `DoIoUntimed.CallIsAsBegun` | bobliew/hook.cc:94-118 | in every run a call in progress is for the descriptor, event and timeout flag with which its fiber began it |
| `DoIoPlaces.StepPlaced` | bobliew/hook.cc:94-173 | every step keeps: a caller is in no semaphore and was not dropped, a timeout callback is in no slot and not pinned to a thread |
| `DoIoPlaces.StoppingEndsCalls` | bobliew/iomanager.cc:269-279 | in every run stopping is true only when no blocking call is in progress and no timeout timer is armed |
| `DoIoTimeouts.TimerReleasesExact` | bobliew/hook.cc:134-142 | a timeout callback of a caller in its slot leaves it marked, and releases it exactly when it was not marked before and the kernel agrees |
| `DoIoTimeouts.MarkedInSlotExact` | bobliew/hook.cc:116-156 | in every run a caller in its slot is marked exactly when a timeout callback of this call ran while it had not registered, in this round or an earlier one, or ran later and epoll_ctl refused |
| `DoIoTimeouts.MarkStays` | bobliew/hook.cc:116-169 | the mark lasts as long as the call |
| `DoIoTimeouts.DeafForever` | bobliew/hook.cc:134-142 | in every continuation no timer of a marked call touches a slot or the queue |
| `DoIoRelease.GoOn` | bobliew/scheduler.cc:184-262 | from any state with the callback queued and a worker that can move, a continuation is built in which the callback runs while the caller still waits |
| `DoIoRelease.TimeoutLostExact` | bobliew/hook.cc:126-156 | in every run a caller with a timeout that waits in its slot can no longer be released by a timer of its own exactly when it is marked |
| `DoIoRelease.TimeoutLostCause` | bobliew/hook.cc:116-156 | that is, exactly when a callback of this call ran too early or was refused |
| `DoIoWitness.LostBeforeRegistering` | bobliew/hook.cc:131-156 | a run that loses its timeout between arming and registering |
| `DoIoWitness.LostBetweenRounds` | bobliew/hook.cc:116-156 | a run that loses it while the caller tries again: the callback is of the first round |
| `DoIoWitness.LostByRefusal` | bobliew/hook.cc:134-142 | a run that loses it because epoll_ctl refuses to cancel |

## Left out

- ByteArrays.ByteArray.Read: a zero-length read at position = capacity is excluded, because the code dereferences a null cursor there.
- ByteArrays.ByteArray.ReadAt: needs the bytes it will touch to exist, because the code would run off the chain.
- ByteArrays.ByteArray.GetReadBuffersAt: needs the bytes it will touch to exist, for the same reason.
- ByteArrays.ByteArray.Clear: freed nodes are dropped from the chain; freeing their memory is not modelled.
- IoManagers.IOManager.DelEvent: needs fd not to equal the number of contexts, because the range test of delEvent, cancelEvent and cancelAll lets that value through to an index out of bounds.
- IoManagers.IOManager.CancelEvent: the same.
- IoManagers.IOManager.CancelAll: the same.
- RuntimeProofs.YieldHoldKeeps: covers fibers that registered for an event or a permit; sleep, usleep and nanosleep, which park a fiber whose timer callback queues it again, are not modelled.
- DoIoRelease.TimeoutLostExact: needs one worker that is not at the failing assertion of addEvent on a taken slot, which ends the program.
- WireNumbers.ReadUint64Exact: does not give the value of a ten-byte varint that no writer produces, whose last byte counts with its lowest bit only.
- TimerWatch.ExpireExact: needs that no two listed timers are re-armed at zero, the case of ExpireKeeps.
- RuntimeRuns.StoppingIsQuiet: fibers waiting in a semaphore may remain, since the code does not count them.
- TimerManagers.TimerManager.Cancel: needs that find does not return end(), which the code erases without a check; it holds in every state that keeps the invariant.
- TimerWatch.WatchKeeps: needs sums of clock and period to stay below 2^64 and a positive clock; RefreshExact and ExpireExact say what holds otherwise.
- DoIoProofs.RunTimerKeeps: needs the descriptor of a live call not to equal the number of contexts, for the same reason as IoManagers.IOManager.DelEvent.
- TypedStreams.RoundTrip: texts are non-empty and shorter than 65536 bytes; an empty text last in a full chain meets the zero-length read above.
- RuntimeProofs.YieldReadyKeeps: excludes callback fibers, for which YieldReadyExact shows the assertion of reset to fail.
- A ByteArray with node size 0, and hosts that are not little-endian.
- std::set and std::map are modelled by sorted sequences and by maps over folded keys; the balanced tree is not.
- The scheduling part of do_io is a state machine over its steps, since its body is cut at the yield; the checks for hooks, descriptors without context, closed and non-blocking ones before it are not modelled. connect_with_timeout is its one-round form.
- Event deletion on a descriptor while a caller is parked on it through do_io: delEvent drops the caller for ever.
- Several schedulers, and waiters that belong to another scheduler than the one that releases them.
- Starting and stopping a scheduler, idle threads and their count, the pipe that wakes a sleeping epoll_wait, and the 3000 ms cap on its timeout.
- Real contexts, stacks, threads, locks, epoll, sockets and the clock.
- FiberSemaphore reset, the thread semaphore, mutexes.
- WorkerManager and its configuration.
- Response frames and strings with 32-bit, 64-bit and varint length beyond TextF32Mismatch; float and double, which only reinterpret bits; toHexString; reading from and writing to files.
- Body and cookie parameters, which use the same loop; the generated HTTP and URI parsers; chunked responses; connection pools; servlets.
- Rock messages, addresses, TLS, logging, configuration, modules, databases and the remaining string helpers.
